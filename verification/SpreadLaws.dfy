/** What spreading does to the order: each kind keeps its own, and the kinds share every prefix. */
module SpreadLaws {
  import opened Common
  import opened RoundRobin
  import opened RankedSpread

  // ----- one interleaving -----

  function InGroup(g: nat): Coordinate -> bool {
    (c: Coordinate) => c.group == g
  }

  function Column(g: nat, n: nat): (cs: seq<Coordinate>)
    ensures |cs| == n && forall i :: 0 <= i < n ==> cs[i] == Coordinate(i, g)
  {
    seq(n, i requires 0 <= i < n => Coordinate(i, g))
  }

  lemma {:induction false} ColumnGrows(g: nat, n: nat)
    ensures Column(g, n + 1) == Column(g, n) + [Coordinate(n, g)]
  {
  }

  lemma {:induction false} EmittedNext(groups: seq<Group>, position: nat, group: nat)
    requires NoEmptyRef(groups) && 0 < group <= |groups|
    ensures Emitted(groups, position, group) ==
            if position < |groups[group - 1].refs| then
              Emitted(groups, position, group - 1) + [Coordinate(position, group - 1)]
            else Emitted(groups, position, group - 1)
  {
    PresentIff(groups, Coordinate(position, group - 1));
    assert Emitted(groups, position, group - 1) + [] == Emitted(groups, position, group - 1);
  }

  /** What has been taken from one group are its first elements, in its order. */
  lemma {:induction false} TakenFromGroup(groups: seq<Group>, position: nat, group: nat, g: nat)
    requires NoEmptyRef(groups) && group <= |groups| && g < |groups|
    ensures Filter(Emitted(groups, position, group), InGroup(g)) ==
            Column(g, Min(|groups[g].refs|, if g < group then position + 1 else position))
    decreases position, group
  {
    if group > 0 {
      var c, before := Coordinate(position, group - 1), Emitted(groups, position, group - 1);
      TakenFromGroup(groups, position, group - 1, g);
      EmittedNext(groups, position, group);
      hide Emitted, Column;
      FilterSnoc(before, c, InGroup(g));
      ColumnGrows(g, position);
    } else if position > 0 {
      TakenFromGroup(groups, position - 1, |groups|, g);
    }
  }

  lemma {:induction false} FilterRefsAt(groups: seq<Group>, cs: seq<Coordinate>, p: string -> bool, g: nat)
    requires forall c :: c in cs ==> (p(RefAt(groups, c)) <==> c.group == g)
    ensures Filter(RefsAt(groups, cs), p) == RefsAt(groups, Filter(cs, InGroup(g)))
    ensures |Filter(RefsAt(groups, cs), p)| == CountOf(cs, g)
    decreases |cs|
  {
    if cs != [] {
      var init, last := cs[..|cs| - 1], cs[|cs| - 1];
      SplitLast(cs);
      FilterRefsAt(groups, init, p, g);
      assert RefsAt(groups, cs) == RefsAt(groups, init) + [RefAt(groups, last)];
      FilterSnoc(RefsAt(groups, init), RefAt(groups, last), p);
      assert RefsAt(groups, Filter(init, InGroup(g)) + [last]) ==
        RefsAt(groups, Filter(init, InGroup(g))) + [RefAt(groups, last)];
    }
  }

  /** `p` tells the elements of group `g` from all others. */
  ghost predicate Tells(groups: seq<Group>, p: string -> bool, g: nat) {
    forall h, ref :: 0 <= h < |groups| && ref in groups[h].refs ==> (p(ref) <==> h == g)
  }

  lemma {:induction false} TakenAreToldApart(groups: seq<Group>, p: string -> bool, g: nat)
    requires NoEmptyRef(groups) && Tells(groups, p, g)
    ensures forall c :: c in Taken(groups) ==> (p(RefAt(groups, c)) <==> c.group == g)
  {
    hide Taken;
    TakenInRounds(groups);
    forall c | c in Taken(groups) ensures p(RefAt(groups, c)) <==> c.group == g {
      PresentIff(groups, c);
      assert RefAt(groups, c) in groups[c.group].refs;
    }
  }

  /** All of a group comes out, in the group's order. */
  lemma {:induction false} GroupComesOutInOrder(groups: seq<Group>, p: string -> bool, g: nat)
    requires NoEmptyRef(groups) && g < |groups| && Tells(groups, p, g)
    ensures Filter(RefsAt(groups, Taken(groups)), p) == groups[g].refs
  {
    TakenAreToldApart(groups, p, g);
    FilterRefsAt(groups, Taken(groups), p, g);
    var rounds := FirstBlankRound(groups, 0);
    TakenFromGroup(groups, rounds, 0, g);
    PresentIff(groups, Coordinate(rounds, g));
    assert RefsAt(groups, Column(g, |groups[g].refs|)) == groups[g].refs by {
      forall i | 0 <= i < |groups[g].refs| ensures RefAt(groups, Coordinate(i, g)) == groups[g].refs[i] {
        PresentIff(groups, Coordinate(i, g));
      }
    }
  }

  /** In every prefix the counts of two groups differ by at most one, until the one behind is exhausted. */
  lemma {:induction false} GroupsShare(
    groups: seq<Group>, k: nat, p: string -> bool, g: nat, q: string -> bool, h: nat)
    requires NoEmptyRef(groups) && g < |groups| && h < |groups| && Tells(groups, p, g) && Tells(groups, q, h)
    requires k <= |RefsAt(groups, Taken(groups))|
    ensures var prefix := RefsAt(groups, Taken(groups))[..k];
            |Filter(prefix, p)| < |groups[g].refs| ==> |Filter(prefix, q)| <= |Filter(prefix, p)| + 1
  {
    var cs := Taken(groups);
    TakenAreToldApart(groups, p, g);
    TakenAreToldApart(groups, q, h);
    assert RefsAt(groups, cs)[..k] == RefsAt(groups, cs[..k]);
    FilterRefsAt(groups, cs[..k], p, g);
    FilterRefsAt(groups, cs[..k], q, h);
    InterleavingIsFair(groups, k, g, h);
  }

  // ----- one level -----

  function HasKey(key: Key, k: Option<string>): string -> bool {
    ref => key(ref) == k
  }

  function SpreadGroups(refs: seq<string>, key: Key, inner: Inner): seq<Group> {
    Respread(Groups(refs, key), inner) + Unscoped(refs, key, inner)
  }

  lemma {:induction false} SpreadGroupsAre(refs: seq<string>, key: Key, inner: Inner)
    requires "" !in refs && Permutes(inner)
    ensures var groups, keys := SpreadGroups(refs, key, inner), KeysSeen(refs, key);
            && NoEmptyRef(groups) && |keys| <= |groups| <= |keys| + 1
            && (forall i :: 0 <= i < |keys| ==> groups[i].refs == inner(WithKey(refs, key, Some(keys[i]))) &&
                                                Tells(groups, HasKey(key, Some(keys[i])), i))
            && (WithKey(refs, key, None) == [] ==> |groups| == |keys|)
            && (WithKey(refs, key, None) != [] ==>
                  |groups| == |keys| + 1 && groups[|keys|].refs == inner(WithKey(refs, key, None)) &&
                  Tells(groups, HasKey(key, None), |keys|))
  {
    var groups, keys, rest := SpreadGroups(refs, key, inner), KeysSeen(refs, key), WithKey(refs, key, None);
    hide KeysSeen, WithKey;
    KeysSeenIff(refs, key);
    forall h | 0 <= h < |groups|
      ensures "" !in groups[h].refs
      ensures forall ref :: ref in groups[h].refs ==> key(ref) == if h < |keys| then Some(keys[h]) else None
    {
      var k := if h < |keys| then Some(keys[h]) else None;
      assert groups[h].refs == inner(WithKey(refs, key, k));
      InnerKeepsKey(refs, key, inner, k);
    }
  }

  lemma {:induction false} InnerKeepsKey(refs: seq<string>, key: Key, inner: Inner, k: Option<string>)
    requires "" !in refs && Permutes(inner)
    ensures "" !in inner(WithKey(refs, key, k))
    ensures forall ref :: ref in inner(WithKey(refs, key, k)) ==> key(ref) == k
  {
    FilterContains(refs, ref => key(ref) == k);
    SameElements(inner(WithKey(refs, key, k)), WithKey(refs, key, k));
  }

  predicate Spreads(refs: seq<string>, kinds: Key) {
    |refs| > 1 && |KeysSeen(refs, kinds)| >= 2
  }

  lemma {:induction false} SpreadByIs(refs: seq<string>, kinds: Key, key: Key, inner: Inner)
    requires |refs| <= MAX_SAFE_INTEGER
    ensures SpreadBy(refs, kinds, key, inner) ==
            if Spreads(refs, kinds) then
              RefsAt(SpreadGroups(refs, key, inner), Taken(SpreadGroups(refs, key, inner)))
            else if |refs| <= 1 then refs else inner(refs)
  {
    GroupsTakeTurnsByRank(refs, key, inner);
  }

  lemma {:induction false} NothingOfKey(refs: seq<string>, out: seq<string>, inner: Inner, p: string -> bool)
    requires multiset(out) == multiset(refs) && Permutes(inner) && forall ref :: ref in refs ==> !p(ref)
    ensures Filter(out, p) == inner(Filter(refs, p))
  {
    SameElements(out, refs);
    FilterContains(refs, p);
    FilterContains(out, p);
    EmptyIff(Filter(refs, p));
    EmptyIff(Filter(out, p));
    assert |multiset(inner([]))| == |inner([])| && inner(Filter(refs, p)) == inner([]);
  }

  /** With kinds to spread over, what there is of one key comes out as the level below orders it. */
  lemma {:induction false} KeyComesOutInOrder(refs: seq<string>, kinds: Key, key: Key, inner: Inner, k: Option<string>)
    requires "" !in refs && Permutes(inner) && |refs| <= MAX_SAFE_INTEGER && Spreads(refs, kinds)
    ensures Filter(SpreadBy(refs, kinds, key, inner), HasKey(key, k)) == inner(Filter(refs, HasKey(key, k)))
  {
    hide Taken, SpreadBy, SpreadGroups, Permutes, KeysSeen, Tells, NoEmptyRef, RefsAt;
    var groups, keys, rest := SpreadGroups(refs, key, inner), KeysSeen(refs, key), WithKey(refs, key, None);
    assert Filter(refs, HasKey(key, k)) == WithKey(refs, key, k) by {
      FilterAgrees(refs, HasKey(key, k), ref => key(ref) == k);
    }
    SpreadGroupsAre(refs, key, inner);
    SpreadByIs(refs, kinds, key, inner);
    hide WithKey, Spreads;
    if k.Some? && k.value in keys {
      var i :| 0 <= i < |keys| && keys[i] == k.value;
      GroupComesOutInOrder(groups, HasKey(key, k), i);
    } else if k.None? && rest != [] {
      GroupComesOutInOrder(groups, HasKey(key, k), |keys|);
    } else {
      SpreadByPermutes(refs, kinds, key, inner);
      KeyIsAbsent(refs, key, k);
      NothingOfKey(refs, SpreadBy(refs, kinds, key, inner), inner, HasKey(key, k));
    }
  }

  lemma {:induction false} KeyIsAbsent(refs: seq<string>, key: Key, k: Option<string>)
    requires k.Some? ==> k.value !in KeysSeen(refs, key)
    requires k.None? ==> WithKey(refs, key, None) == []
    ensures forall ref :: ref in refs ==> key(ref) != k
  {
    KeysSeenIff(refs, key);
    FilterContains(refs, ref => key(ref) == None);
    EmptyIff(WithKey(refs, key, None));
  }

  /** ... and the keys share every prefix, as long as they have anything left to give. */
  lemma {:induction false} KeysShare(
    refs: seq<string>, kinds: Key, key: Key, inner: Inner, k: nat, p: string, q: string)
    requires "" !in refs && Permutes(inner) && |refs| <= MAX_SAFE_INTEGER && Spreads(refs, kinds)
    requires k <= |SpreadBy(refs, kinds, key, inner)| && p in KeysSeen(refs, key) && q in KeysSeen(refs, key)
    ensures var prefix := SpreadBy(refs, kinds, key, inner)[..k];
            var ofP, ofQ := HasKey(key, Some(p)), HasKey(key, Some(q));
            |Filter(prefix, ofP)| < |Filter(refs, ofP)| ==> |Filter(prefix, ofQ)| <= |Filter(prefix, ofP)| + 1
  {
    var groups, keys := SpreadGroups(refs, key, inner), KeysSeen(refs, key);
    SpreadGroupsAre(refs, key, inner);
    SpreadByIs(refs, kinds, key, inner);
    FilterAgrees(refs, HasKey(key, Some(p)), ref => key(ref) == Some(p));
    assert |inner(WithKey(refs, key, Some(p)))| == |WithKey(refs, key, Some(p))| by {
      FilterContains(refs, ref => key(ref) == Some(p));
      var mine := WithKey(refs, key, Some(p));
      assert |multiset(inner(mine))| == |multiset(mine)|;
    }
    hide Taken, SpreadBy, SpreadGroups, KeysSeen, Tells, NoEmptyRef, RefsAt, Permutes;
    var i :| 0 <= i < |keys| && keys[i] == p;
    var j :| 0 <= j < |keys| && keys[j] == q;
    GroupsShare(groups, k, HasKey(key, Some(p)), i, HasKey(key, Some(q)), j);
  }

  // ----- the three levels -----

  /** The level below leaves the elements of each kind in their order. */
  ghost predicate KeepsOrder(inner: Inner, p: string -> bool) {
    forall rs :: "" !in rs && |rs| <= MAX_SAFE_INTEGER ==> Filter(inner(rs), p) == Filter(rs, p)
  }

  lemma {:induction false} LevelKeepsOrder(
    refs: seq<string>, kinds: Key, key: Key, inner: Inner, k: Option<string>, p: string -> bool, both: string -> bool)
    requires "" !in refs && |refs| <= MAX_SAFE_INTEGER && Permutes(inner) && KeepsOrder(inner, p)
    requires forall ref :: both(ref) <==> key(ref) == k && p(ref)
    ensures Filter(SpreadBy(refs, kinds, key, inner), both) == Filter(refs, both)
  {
    var out, ofKey := SpreadBy(refs, kinds, key, inner), HasKey(key, k);
    if Spreads(refs, kinds) {
      FilterContains(refs, ofKey);
      KeyComesOutInOrder(refs, kinds, key, inner, k);
      FilterTwice(out, ofKey, p, both);
      FilterTwice(refs, ofKey, p, both);
    } else if |refs| > 1 {
      FilterTwice(inner(refs), p, ofKey, both);
      FilterTwice(refs, p, ofKey, both);
    }
  }

  datatype Kind = Kind(package: Option<string>, language: Option<string>, role: Option<string>)

  function RoleOf(roles: Option<map<string, string>>, ref: string): Option<string> {
    if roles.Some? then OrEmpty(roles.value)(ref) else None
  }

  function KindOf(packages: Key, languages: map<string, string>, roles: Option<map<string, string>>,
    ref: string): Kind {
    Kind(packages(ref), Scoped(languages)(ref), RoleOf(roles, ref))
  }

  function OfKind(packages: Key, languages: map<string, string>, roles: Option<map<string, string>>, kind: Kind)
    : string -> bool
  {
    ref => KindOf(packages, languages, roles, ref) == kind
  }

  lemma {:induction false} EvidenceLevel(roles: Option<map<string, string>>, role: Option<string>)
    ensures Permutes(rs => SpreadEvidence(rs, roles))
    ensures KeepsOrder(rs => SpreadEvidence(rs, roles), ref => RoleOf(roles, ref) == role)
  {
    if roles.Some? {
      var all: string -> bool := ref => true;
      forall rs | "" !in rs ensures multiset(SpreadEvidence(rs, roles)) == multiset(rs) {
        SpreadByPermutes(rs, Scoped(roles.value), OrEmpty(roles.value), rs => rs);
      }
      forall rs | "" !in rs && |rs| <= MAX_SAFE_INTEGER
        ensures Filter(SpreadEvidence(rs, roles), ref => RoleOf(roles, ref) == role) ==
                Filter(rs, ref => RoleOf(roles, ref) == role)
      {
        LevelKeepsOrder(rs, Scoped(roles.value), OrEmpty(roles.value), rs => rs, role, all,
                        ref => RoleOf(roles, ref) == role);
      }
    }
  }

  lemma {:induction false} LanguageLevel(
    languages: map<string, string>, roles: Option<map<string, string>>, language: Option<string>, role: Option<string>)
    ensures Permutes(rs => SpreadLanguage(rs, languages, roles))
    ensures KeepsOrder(rs => SpreadLanguage(rs, languages, roles),
                       ref => Scoped(languages)(ref) == language && RoleOf(roles, ref) == role)
  {
    var inner: Inner := rs => SpreadEvidence(rs, roles);
    var ofRole := ref => RoleOf(roles, ref) == role;
    var both := ref => Scoped(languages)(ref) == language && RoleOf(roles, ref) == role;
    EvidenceLevel(roles, role);
    forall rs | "" !in rs ensures multiset(SpreadLanguage(rs, languages, roles)) == multiset(rs) {
      SpreadByPermutes(rs, Scoped(languages), Scoped(languages), inner);
    }
    forall rs | "" !in rs && |rs| <= MAX_SAFE_INTEGER
      ensures Filter(SpreadLanguage(rs, languages, roles), both) == Filter(rs, both)
    {
      LevelKeepsOrder(rs, Scoped(languages), Scoped(languages), inner, language, ofRole, both);
    }
  }

  /** Refs of one package, language and role keep their order throughout. */
  lemma {:induction false} SpreadKeepsKinds(
    refs: seq<string>, packages: Key, languages: map<string, string>, roles: Option<map<string, string>>, kind: Kind)
    requires "" !in refs && |refs| <= MAX_SAFE_INTEGER
    ensures Filter(SpreadContext(refs, packages, languages, roles), OfKind(packages, languages, roles, kind)) ==
            Filter(refs, OfKind(packages, languages, roles, kind))
  {
    hide SpreadLanguage;
    var inner: Inner := rs => SpreadLanguage(rs, languages, roles);
    LanguageLevel(languages, roles, kind.language, kind.role);
    LevelKeepsOrder(
      refs, packages, packages, inner, kind.package,
      ref => Scoped(languages)(ref) == kind.language && RoleOf(roles, ref) == kind.role,
      OfKind(packages, languages, roles, kind));
  }

  /** At most one key among the refs that have any. */
  ghost predicate OneKey(refs: seq<string>, key: Key) {
    forall a, b :: a in refs && b in refs && key(a).Some? && key(b).Some? ==> key(a) == key(b)
  }

  lemma {:induction false} OneKeySeen(refs: seq<string>, key: Key)
    ensures |KeysSeen(refs, key)| < 2 <==> OneKey(refs, key)
  {
    var keys := KeysSeen(refs, key);
    KeysSeenIff(refs, key);
    if |keys| >= 2 {
      assert keys[0] in keys && keys[1] in keys && keys[0] != keys[1];
      var i :| 0 <= i < |refs| && key(refs[i]) == Some(keys[0]);
      var j :| 0 <= j < |refs| && key(refs[j]) == Some(keys[1]);
      assert refs[i] in refs && refs[j] in refs;
    } else {
      forall a, b | a in refs && b in refs && key(a).Some? && key(b).Some? ensures key(a) == key(b) {
        var i :| 0 <= i < |refs| && refs[i] == a;
        var j :| 0 <= j < |refs| && refs[j] == b;
        assert key(refs[i]) == Some(key(a).value) && key(refs[j]) == Some(key(b).value);
        assert key(a).value in keys && key(b).value in keys;
      }
    }
  }

  /** With at most one package, language and role there is nothing to spread over: the ranking stands. */
  lemma {:induction false} NothingToSpread(
    refs: seq<string>, packages: Key, languages: map<string, string>, roles: Option<map<string, string>>)
    requires OneKey(refs, packages) && OneKey(refs, Scoped(languages))
    requires roles.Some? ==> OneKey(refs, Scoped(roles.value))
    ensures SpreadContext(refs, packages, languages, roles) == refs
  {
    OneKeySeen(refs, packages);
    OneKeySeen(refs, Scoped(languages));
    if roles.Some? {
      OneKeySeen(refs, Scoped(roles.value));
    }
  }

  /** With two packages or more, these share every prefix. */
  lemma {:induction false} PackagesShare(
    refs: seq<string>, packages: Key, languages: map<string, string>, roles: Option<map<string, string>>, k: nat,
    a: string, b: string)
    requires "" !in refs && |refs| <= MAX_SAFE_INTEGER && a in refs && b in refs
    requires packages(a).Some? && packages(b).Some? && packages(a) != packages(b)
    requires k <= |SpreadContext(refs, packages, languages, roles)|
    ensures var prefix := SpreadContext(refs, packages, languages, roles)[..k];
            |Filter(prefix, HasKey(packages, packages(a)))| < |Filter(refs, HasKey(packages, packages(a)))| ==>
              |Filter(prefix, HasKey(packages, packages(b)))| <= |Filter(prefix, HasKey(packages, packages(a)))| + 1
  {
    OneKeySeen(refs, packages);
    KeysSeenIff(refs, packages);
    var i :| 0 <= i < |refs| && refs[i] == a;
    var j :| 0 <= j < |refs| && refs[j] == b;
    assert packages(refs[i]) == Some(packages(a).value) && packages(refs[j]) == Some(packages(b).value);
    hide SpreadLanguage, KeysSeen;
    LanguageLevel(languages, roles, None, None);
    KeysShare(refs, packages, packages, rs => SpreadLanguage(rs, languages, roles), k, packages(a).value,
              packages(b).value);
  }
}
