/** Interleaving ranked groups one element at a time, and the three spreads built on it. */
module RoundRobin {
  import opened Common
  import opened Ordering

  datatype Group = Group(key: string, firstIndex: nat, refs: seq<string>)

  /** Where an element comes from: its position in its group, and its group's place in the order. */
  datatype Coordinate = Coordinate(position: nat, group: nat)

  predicate GroupBefore(a: Group, b: Group) {
    if a.firstIndex != b.firstIndex then a.firstIndex < b.firstIndex else StringLess(a.key, b.key)
  }

  predicate Earlier(a: Coordinate, b: Coordinate) {
    a.position < b.position || (a.position == b.position && a.group < b.group)
  }

  /** Past the end and the empty string are both skipped. */
  predicate Present(groups: seq<Group>, c: Coordinate) {
    c.group < |groups| && c.position < |groups[c.group].refs| && groups[c.group].refs[c.position] != ""
  }

  function RefAt(groups: seq<Group>, c: Coordinate): string {
    if Present(groups, c) then groups[c.group].refs[c.position] else ""
  }

  function RefsAt(groups: seq<Group>, cs: seq<Coordinate>): (r: seq<string>)
    ensures |r| == |cs| && forall i :: 0 <= i < |r| ==> r[i] == RefAt(groups, cs[i])
  {
    Map(cs, c => RefAt(groups, c))
  }

  /** What has been taken after `position` full rounds and the first `group` groups of the next one. */
  function Emitted(groups: seq<Group>, position: nat, group: nat): seq<Coordinate>
    decreases position, group
  {
    if group > 0 then
      var c := Coordinate(position, group - 1);
      Emitted(groups, position, group - 1) + if Present(groups, c) then [c] else []
    else if position > 0 then Emitted(groups, position - 1, |groups|)
    else []
  }

  function TotalRefs(groups: seq<Group>): nat {
    if groups == [] then 0 else TotalRefs(groups[..|groups| - 1]) + |groups[|groups| - 1].refs|
  }

  function Longest(groups: seq<Group>): (r: nat)
    ensures forall g :: g in groups ==> |g.refs| <= r
  {
    if groups == [] then 0 else
    var init, last := groups[..|groups| - 1], groups[|groups| - 1];
    SplitLast(groups);
    if |last.refs| > Longest(init) then |last.refs| else Longest(init)
  }

  predicate RoundIsBlank(groups: seq<Group>, position: nat) {
    forall g :: 0 <= g < |groups| ==> !Present(groups, Coordinate(position, g))
  }

  /** The first round in which no group has anything to give. */
  function FirstBlankRound(groups: seq<Group>, position: nat): (r: nat)
    ensures r >= position && RoundIsBlank(groups, r)
    ensures forall p :: position <= p < r ==> !RoundIsBlank(groups, p)
    decreases Longest(groups) - position
  {
    if RoundIsBlank(groups, position) then position else
    var g :| 0 <= g < |groups| && Present(groups, Coordinate(position, g));
    assert groups[g] in groups;
    FirstBlankRound(groups, position + 1)
  }

  function Taken(groups: seq<Group>): seq<Coordinate> {
    Emitted(groups, FirstBlankRound(groups, 0), 0)
  }

  /** What the loop of `spreadRankedGroups` computes. */
  function Interleave(groups: seq<Group>): seq<string> {
    var ordered := Sort(groups, GroupBefore);
    RefsAt(ordered, Taken(ordered))
  }

  ghost predicate NoEmptyRef(groups: seq<Group>) {
    forall g :: g in groups ==> "" !in g.refs
  }

  function AllRefs(groups: seq<Group>): multiset<string> {
    if groups == [] then multiset{} else AllRefs(groups[..|groups| - 1]) + multiset(groups[|groups| - 1].refs)
  }

  // ----- what is emitted, and in which order -----

  lemma {:induction false} EmittedIff(groups: seq<Group>, position: nat, group: nat, c: Coordinate)
    requires group <= |groups|
    ensures c in Emitted(groups, position, group) <==> Present(groups, c) && Earlier(c, Coordinate(position, group))
    decreases position, group
  {
    if group > 0 {
      EmittedIff(groups, position, group - 1, c);
    } else if position > 0 {
      EmittedIff(groups, position - 1, |groups|, c);
    }
  }

  lemma {:induction false} EmittedInOrder(groups: seq<Group>, position: nat, group: nat, i: nat, j: nat)
    requires group <= |groups| && i < j < |Emitted(groups, position, group)|
    ensures Earlier(Emitted(groups, position, group)[i], Emitted(groups, position, group)[j])
    decreases position, group
  {
    if group > 0 {
      var before := Emitted(groups, position, group - 1);
      if j < |before| {
        EmittedInOrder(groups, position, group - 1, i, j);
      } else {
        assert before[i] in before;
        EmittedIff(groups, position, group - 1, before[i]);
      }
    } else {
      EmittedInOrder(groups, position - 1, |groups|, i, j);
    }
  }

  /** Round robin: ordered by position in the group and then by group, each element with a name exactly once. */
  lemma {:induction false} TakenInRounds(groups: seq<Group>)
    requires NoEmptyRef(groups)
    ensures forall c :: c in Taken(groups) <==> c.group < |groups| && c.position < |groups[c.group].refs|
    ensures forall i, j :: 0 <= i < j < |Taken(groups)| ==> Earlier(Taken(groups)[i], Taken(groups)[j])
  {
    var rounds := FirstBlankRound(groups, 0);
    forall c ensures c in Taken(groups) <==> c.group < |groups| && c.position < |groups[c.group].refs| {
      EmittedIff(groups, rounds, 0, c);
      PresentIff(groups, c);
      if Present(groups, c) {
        LaterRoundsAreBlank(groups, rounds, c);
      }
    }
    forall i, j | 0 <= i < j < |Taken(groups)| ensures Earlier(Taken(groups)[i], Taken(groups)[j]) {
      EmittedInOrder(groups, rounds, 0, i, j);
    }
  }

  lemma {:induction false} PresentIff(groups: seq<Group>, c: Coordinate)
    requires NoEmptyRef(groups)
    ensures Present(groups, c) <==> c.group < |groups| && c.position < |groups[c.group].refs|
  {
    if c.group < |groups| && c.position < |groups[c.group].refs| {
      assert groups[c.group] in groups && groups[c.group].refs[c.position] in groups[c.group].refs;
    }
  }

  lemma {:induction false} LaterRoundsAreBlank(groups: seq<Group>, position: nat, c: Coordinate)
    requires NoEmptyRef(groups) && RoundIsBlank(groups, position) && Present(groups, c)
    ensures c.position < position
  {
    PresentIff(groups, Coordinate(position, c.group));
  }

  // ----- fairness -----

  function CountOf(cs: seq<Coordinate>, group: nat): nat {
    if cs == [] then 0 else CountOf(cs[..|cs| - 1], group) + if cs[|cs| - 1].group == group then 1 else 0
  }

  lemma {:induction false} CountOfSnoc(cs: seq<Coordinate>, c: Coordinate, group: nat)
    ensures CountOf(cs + [c], group) == CountOf(cs, group) + if c.group == group then 1 else 0
  {
    assert (cs + [c])[..|cs|] == cs;
  }

  lemma {:induction false} CountEmitted(groups: seq<Group>, position: nat, group: nat, g: nat)
    requires NoEmptyRef(groups) && group <= |groups| && g < |groups|
    ensures CountOf(Emitted(groups, position, group), g) ==
            Min(|groups[g].refs|, if g < group then position + 1 else position)
    decreases position, group
  {
    if group > 0 {
      var c := Coordinate(position, group - 1);
      CountEmitted(groups, position, group - 1, g);
      PresentIff(groups, c);
      CountOfSnoc(Emitted(groups, position, group - 1), c, g);
      assert Emitted(groups, position, group - 1) + [] == Emitted(groups, position, group - 1);
    } else if position > 0 {
      CountEmitted(groups, position - 1, |groups|, g);
    }
  }

  /** Every prefix of the output is what the loops had taken at some point. */
  lemma {:induction false} PrefixIsEmitted(groups: seq<Group>, position: nat, group: nat, k: nat)
    returns (p: nat, g: nat)
    requires group <= |groups| && k <= |Emitted(groups, position, group)|
    ensures g <= |groups| && Emitted(groups, position, group)[..k] == Emitted(groups, p, g)
    decreases position, group
  {
    var all := Emitted(groups, position, group);
    if k == |all| {
      p, g := position, group;
      assert all[..k] == all;
    } else if group > 0 {
      p, g := PrefixIsEmitted(groups, position, group - 1, k);
      assert all[..k] == Emitted(groups, position, group - 1)[..k];
    } else {
      p, g := PrefixIsEmitted(groups, position - 1, |groups|, k);
    }
  }

  /** In every prefix two groups' counts differ by at most one, until the one behind is exhausted. */
  lemma {:induction false} InterleavingIsFair(groups: seq<Group>, k: nat, g: nat, h: nat)
    requires NoEmptyRef(groups) && k <= |Taken(groups)| && g < |groups| && h < |groups|
    ensures CountOf(Taken(groups)[..k], g) <= |groups[g].refs|
    ensures CountOf(Taken(groups)[..k], g) < |groups[g].refs| ==>
              CountOf(Taken(groups)[..k], h) <= CountOf(Taken(groups)[..k], g) + 1
    ensures CountOf(Taken(groups)[..k], g) < |groups[g].refs| && g < h ==>
              CountOf(Taken(groups)[..k], h) <= CountOf(Taken(groups)[..k], g)
  {
    var p, i := PrefixIsEmitted(groups, FirstBlankRound(groups, 0), 0, k);
    CountEmitted(groups, p, i, g);
    CountEmitted(groups, p, i, h);
  }

  // ----- conservation -----

  function Cut(refs: seq<string>, n: nat): seq<string> {
    if n <= |refs| then refs[..n] else refs
  }

  function Named(refs: seq<string>): seq<string> {
    Filter(refs, r => r != "")
  }

  function One(ref: string): multiset<string> {
    if ref != "" then multiset{ref} else multiset{}
  }

  function TakenRefs(groups: seq<Group>, position: nat, group: nat): multiset<string> {
    multiset(RefsAt(groups, Emitted(groups, position, group)))
  }

  function NthRef(refs: seq<string>, n: nat): string {
    if n < |refs| then refs[n] else ""
  }

  lemma {:induction false} CutGrows(refs: seq<string>, n: nat)
    ensures multiset(Named(Cut(refs, n + 1))) == multiset(Named(Cut(refs, n))) + One(NthRef(refs, n))
  {
    if n < |refs| {
      assert Cut(refs, n + 1) == Cut(refs, n) + [refs[n]];
      FilterSnoc(Cut(refs, n), refs[n], r => r != "");
    } else {
      assert Cut(refs, n + 1) == Cut(refs, n);
    }
  }

  lemma {:induction false} TakenStep(groups: seq<Group>, position: nat, group: nat)
    requires 0 < group <= |groups|
    ensures TakenRefs(groups, position, group) ==
            TakenRefs(groups, position, group - 1) + One(NthRef(groups[group - 1].refs, position))
  {
    var c := Coordinate(position, group - 1);
    var before := Emitted(groups, position, group - 1);
    if Present(groups, c) {
      assert RefsAt(groups, before + [c]) == RefsAt(groups, before) + [RefAt(groups, c)];
    } else {
      assert before + [] == before;
    }
  }

  /** The last group only adds elements of its own. */
  lemma {:induction false} LastGroupSplitsOff(
    groups: seq<Group>, init: seq<Group>, last: Group, position: nat, group: nat)
    requires groups == init + [last] && group <= |groups|
    ensures TakenRefs(groups, position, group) ==
              TakenRefs(init, position, Min(group, |init|)) +
              multiset(Named(Cut(last.refs, if group == |groups| then position + 1 else position)))
    decreases position, group
  {
    hide TakenRefs, Named;
    if group > 0 {
      LastGroupSplitsOff(groups, init, last, position, group - 1);
      TakenStep(groups, position, group);
      if group < |groups| {
        TakenStep(init, position, group);
      } else {
        CutGrows(last.refs, position);
      }
    } else if position > 0 {
      LastGroupSplitsOff(groups, init, last, position - 1, |groups|);
      NextRound(groups, position);
      NextRound(init, position);
    } else {
      NothingYet(groups);
      NothingYet(init);
    }
  }

  lemma {:induction false} NextRound(groups: seq<Group>, position: nat)
    requires position > 0
    ensures TakenRefs(groups, position, 0) == TakenRefs(groups, position - 1, |groups|)
  {
  }

  lemma {:induction false} NothingYet(groups: seq<Group>)
    ensures TakenRefs(groups, 0, 0) == multiset{} && Named([]) == []
  {
  }

  /** After enough rounds every named element of every group has been taken, as often as it occurs. */
  lemma {:induction false} EnoughRounds(groups: seq<Group>, position: nat)
    requires forall g :: g in groups ==> |g.refs| <= position
    ensures TakenRefs(groups, position, 0) == NamedRefs(groups)
    decreases |groups|
  {
    hide Named, Emitted;
    if groups == [] {
      NothingFromNoGroups(position);
    } else {
      var init, last := groups[..|groups| - 1], groups[|groups| - 1];
      SplitLast(groups);
      LastGroupSplitsOff(groups, init, last, position, 0);
      EnoughRounds(init, position);
      assert last in groups;
      assert Cut(last.refs, position) == last.refs;
    }
  }

  lemma {:induction false} NothingFromNoGroups(position: nat)
    ensures Emitted([], position, 0) == []
    decreases position
  {
    if position > 0 {
      NothingFromNoGroups(position - 1);
    }
  }

  function NamedRefs(groups: seq<Group>): multiset<string> {
    if groups == [] then multiset{} else NamedRefs(groups[..|groups| - 1]) + multiset(Named(groups[|groups| - 1].refs))
  }

  /** What has been taken never exceeds what there is. */
  lemma {:induction false} TakenIsBounded(groups: seq<Group>, position: nat)
    ensures |Emitted(groups, position, 0)| <= TotalRefs(groups)
    decreases |groups|
  {
    hide Named, Emitted;
    if groups == [] {
      NothingFromNoGroups(position);
    } else {
      var init, last := groups[..|groups| - 1], groups[|groups| - 1];
      SplitLast(groups);
      LastGroupSplitsOff(groups, init, last, position, 0);
      TakenIsBounded(init, position);
      NamedIsShorter(Cut(last.refs, position));
      assert |TakenRefs(groups, position, 0)| == |Emitted(groups, position, 0)|;
      assert |TakenRefs(init, position, 0)| == |Emitted(init, position, 0)|;
    }
  }

  lemma {:induction false} NamedIsShorter(refs: seq<string>)
    ensures |multiset(Named(refs))| <= |refs|
  {
  }

  /** A round that gives something makes the output longer. */
  lemma {:induction false} RoundAdds(groups: seq<Group>, position: nat, group: nat)
    requires group <= |groups|
    ensures |Emitted(groups, position, group)| >= |Emitted(groups, position, 0)|
    ensures |Emitted(groups, position, group)| == |Emitted(groups, position, 0)| ==>
              forall g :: 0 <= g < group ==> !Present(groups, Coordinate(position, g))
    decreases group
  {
    if group > 0 {
      RoundAdds(groups, position, group - 1);
    }
  }

  lemma {:induction false} FullMeansBlank(groups: seq<Group>, position: nat)
    requires |Emitted(groups, position, 0)| >= TotalRefs(groups)
    ensures RoundIsBlank(groups, position)
  {
    RoundAdds(groups, position, |groups|);
    TakenIsBounded(groups, position + 1);
  }

  lemma {:induction false} BlankRoundsAddNothing(groups: seq<Group>, blank: nat, later: nat, group: nat)
    requires NoEmptyRef(groups) && RoundIsBlank(groups, blank) && group <= |groups|
    requires blank < later || (blank == later && group == 0)
    ensures Emitted(groups, later, group) == Emitted(groups, blank, 0)
    decreases later, group
  {
    if group > 0 {
      BlankRoundsAddNothing(groups, blank, later, group - 1);
      if Present(groups, Coordinate(later, group - 1)) {
        LaterRoundsAreBlank(groups, blank, Coordinate(later, group - 1));
      }
    } else if blank < later {
      if blank < later - 1 {
        BlankRoundsAddNothing(groups, blank, later - 1, |groups|);
      } else {
        RoundIsBlankAddsNothing(groups, blank, |groups|);
      }
    }
  }

  lemma {:induction false} RoundIsBlankAddsNothing(groups: seq<Group>, position: nat, group: nat)
    requires RoundIsBlank(groups, position) && group <= |groups|
    ensures Emitted(groups, position, group) == Emitted(groups, position, 0)
    decreases group
  {
    if group > 0 {
      RoundIsBlankAddsNothing(groups, position, group - 1);
    }
  }

  lemma {:induction false} NamedIsAll(groups: seq<Group>)
    requires NoEmptyRef(groups)
    ensures NamedRefs(groups) == AllRefs(groups)
    decreases |groups|
  {
    if groups != [] {
      var init, last := groups[..|groups| - 1], groups[|groups| - 1];
      SplitLast(groups);
      assert last in groups;
      NamedIsAll(init);
      NothingToSkip(last.refs);
    }
  }

  lemma {:induction false} NothingToSkip(refs: seq<string>)
    requires "" !in refs
    ensures Named(refs) == refs
    decreases |refs|
  {
    if refs != [] {
      SplitLast(refs);
      NothingToSkip(refs[..|refs| - 1]);
    }
  }

  lemma {:induction false} AllRefsSnoc(groups: seq<Group>, g: Group)
    ensures AllRefs(groups + [g]) == AllRefs(groups) + multiset(g.refs)
  {
    assert (groups + [g])[..|groups|] == groups;
  }

  lemma {:induction false} SumAssociative(a: multiset<string>, b: multiset<string>, c: multiset<string>)
    ensures (a + b) + c == a + (b + c)
  {
  }

  lemma {:induction false} AllRefsConcat(a: seq<Group>, b: seq<Group>)
    ensures AllRefs(a + b) == AllRefs(a) + AllRefs(b)
    decreases |b|
  {
    if b == [] {
      assert a + b == a;
    } else {
      var init, last := b[..|b| - 1], b[|b| - 1];
      AllRefsConcat(a, init);
      SplitLast(b);
      ConcatAssociative(a, init, [last]);
      AllRefsSnoc(a + init, last);
      SumAssociative(AllRefs(a), AllRefs(init), multiset(last.refs));
    }
  }

  lemma {:induction false} AllRefsOne(g: Group)
    ensures AllRefs([g]) == multiset(g.refs)
  {
    assert [g][..0] == [];
  }

  lemma {:induction false} NoRefs()
    ensures AllRefs([]) == multiset{}
  {
  }

  lemma {:induction false} AllRefsOfInsert(g: Group, s: seq<Group>)
    ensures AllRefs(Insert(g, s, GroupBefore)) == AllRefs(s) + multiset(g.refs)
    decreases |s|
  {
    hide AllRefs;
    AllRefsOne(g);
    NoRefs();
    if s != [] {
      var head, rest := s[0], s[1..];
      assert s == [head] + rest;
      AllRefsConcat([g], s);
      AllRefsOfInsert(g, rest);
      AllRefsConcat([head], rest);
      AllRefsConcat([head], Insert(g, rest, GroupBefore));
      SumAssociative(AllRefs([head]), AllRefs(rest), multiset(g.refs));
    }
  }

  lemma {:induction false} AllRefsOfSort(groups: seq<Group>)
    ensures AllRefs(Sort(groups, GroupBefore)) == AllRefs(groups)
    decreases |groups|
  {
    if groups != [] {
      AllRefsOfSort(groups[..|groups| - 1]);
      AllRefsOfInsert(groups[|groups| - 1], Sort(groups[..|groups| - 1], GroupBefore));
    }
  }

  lemma {:induction false} AllRefsContains(groups: seq<Group>, g: Group, ref: string)
    requires g in groups && ref in g.refs
    ensures ref in AllRefs(groups)
    decreases |groups|
  {
    SplitLast(groups);
    if g != groups[|groups| - 1] {
      AllRefsContains(groups[..|groups| - 1], g, ref);
    }
  }

  /** The interleaving is a permutation of all the groups' elements exactly when none of them is the empty string. */
  lemma {:induction false} InterleaveKeepsAllIff(groups: seq<Group>)
    ensures multiset(Interleave(groups)) == AllRefs(groups) <==> NoEmptyRef(groups)
    ensures "" !in Interleave(groups)
  {
    var ordered := Sort(groups, GroupBefore);
    var rounds := FirstBlankRound(ordered, 0);
    NeverEmitsEmpty(ordered, rounds);
    if NoEmptyRef(groups) {
      var enough := rounds + Longest(ordered);
      BlankRoundsAddNothing(ordered, rounds, enough, 0);
      EnoughRounds(ordered, enough);
      NamedIsAll(ordered);
      AllRefsOfSort(groups);
    } else {
      var g :| g in groups && "" in g.refs;
      AllRefsContains(groups, g, "");
    }
  }

  lemma {:induction false} NeverEmitsEmpty(groups: seq<Group>, position: nat)
    ensures "" !in RefsAt(groups, Emitted(groups, position, 0))
  {
    var cs := Emitted(groups, position, 0);
    forall i | 0 <= i < |cs| ensures RefAt(groups, cs[i]) != "" {
      assert cs[i] in cs;
      EmittedIff(groups, position, 0, cs[i]);
    }
  }

  /** The loop: one element of each group per round, until all are out or a round gives nothing. */
  method SpreadRankedGroups(groups: seq<Group>) returns (spread: seq<string>)
    ensures spread == Interleave(groups)
  {
    hide Emitted, RefsAt, GroupBefore, Longest;
    var ordered := Sort(groups, GroupBefore);
    NothingEmittedYet(ordered);
    var totalRefs := 0;
    for i := 0 to |ordered|
      invariant totalRefs == TotalRefs(ordered[..i])
    {
      assert ordered[..i + 1][..i] == ordered[..i];
      totalRefs := totalRefs + |ordered[i].refs|;
    }
    assert ordered[..|ordered|] == ordered;
    spread := [];
    var offset := 0;
    while |spread| < totalRefs
      invariant spread == RefsAt(ordered, Emitted(ordered, offset, 0))
      invariant forall p :: 0 <= p < offset ==> !RoundIsBlank(ordered, p)
      decreases FirstBlankRound(ordered, 0) - offset
    {
      var added := false;
      for g := 0 to |ordered|
        invariant spread == RefsAt(ordered, Emitted(ordered, offset, g))
        invariant added <==> exists h :: 0 <= h < g && Present(ordered, Coordinate(offset, h))
      {
        TakeOne(ordered, offset, g);
        var refs := ordered[g].refs;
        if offset >= |refs| || refs[offset] == "" {
          continue;
        }
        spread := spread + [refs[offset]];
        added := true;
        assert Present(ordered, Coordinate(offset, g));
      }
      if !added {
        RoundIsBlankAddsNothing(ordered, offset, |ordered|);
        assert RoundIsBlank(ordered, offset);
        break;
      }
      RoundEnds(ordered, offset);
      offset := offset + 1;
    }
    if |spread| >= totalRefs {
      FullMeansBlank(ordered, offset);
    }
    FirstBlankIs(ordered, offset);
  }

  lemma {:induction false} NothingEmittedYet(groups: seq<Group>)
    ensures RefsAt(groups, Emitted(groups, 0, 0)) == []
  {
  }

  lemma {:induction false} RoundEnds(groups: seq<Group>, position: nat)
    ensures Emitted(groups, position + 1, 0) == Emitted(groups, position, |groups|)
  {
  }

  lemma {:induction false} FirstBlankIs(groups: seq<Group>, position: nat)
    requires RoundIsBlank(groups, position) && forall p :: 0 <= p < position ==> !RoundIsBlank(groups, p)
    ensures position == FirstBlankRound(groups, 0)
  {
    var first := FirstBlankRound(groups, 0);
    assert RoundIsBlank(groups, first);
  }

  lemma {:induction false} TakeOne(groups: seq<Group>, position: nat, g: nat)
    requires g < |groups|
    ensures var c := Coordinate(position, g);
            RefsAt(groups, Emitted(groups, position, g + 1)) ==
              RefsAt(groups, Emitted(groups, position, g)) + if Present(groups, c) then [RefAt(groups, c)] else []
  {
    var before := Emitted(groups, position, g);
    assert before + [] == before;
  }
}
