/** Spreading a ranked list over packages, then languages, then evidence roles. */
module RankedSpread {
  import opened Common
  import opened Ordering
  import opened RoundRobin

  /** `Number.MAX_SAFE_INTEGER`, the first index given to the group of unscoped refs. */
  const MAX_SAFE_INTEGER: nat := 9007199254740991

  type Key = string -> Option<string>

  /** A missing key and the empty string both mean unscoped. */
  function Scoped(m: map<string, string>): Key {
    ref => if ref in m && m[ref] != "" then Some(m[ref]) else None
  }

  /** `get(ref) ?? ""`: here the empty key is a group like any other. */
  function OrEmpty(m: map<string, string>): Key {
    ref => Some(if ref in m then m[ref] else "")
  }

  /** The package root read off the path, else the one from metadata. */
  function PackageRoot(pathRoots: map<string, string>, metadataRoots: map<string, string>): Key {
    ref => if ref in pathRoots then Scoped(pathRoots)(ref) else Scoped(metadataRoots)(ref)
  }

  // ----- grouping -----

  /** The keys in order of first appearance. */
  function KeysSeen(refs: seq<string>, key: Key): seq<string> {
    if refs == [] then [] else
    var before, k := KeysSeen(refs[..|refs| - 1], key), key(refs[|refs| - 1]);
    if k.Some? && k.value !in before then before + [k.value] else before
  }

  function WithKey(refs: seq<string>, key: Key, k: Option<string>): seq<string> {
    Filter(refs, ref => key(ref) == k)
  }

  function FirstWithKey(refs: seq<string>, key: Key, k: string): nat {
    if refs == [] then 0
    else if key(refs[0]) == Some(k) then 0
    else 1 + FirstWithKey(refs[1..], key, k)
  }

  function GroupOf(refs: seq<string>, key: Key, k: string): Group {
    Group(k, FirstWithKey(refs, key, k), WithKey(refs, key, Some(k)))
  }

  function Groups(refs: seq<string>, key: Key): seq<Group> {
    Map(KeysSeen(refs, key), k => GroupOf(refs, key, k))
  }

  lemma {:induction false} KeysSeenSnoc(refs: seq<string>, ref: string, key: Key)
    ensures KeysSeen(refs + [ref], key) ==
            if key(ref).Some? && key(ref).value !in KeysSeen(refs, key) then KeysSeen(refs, key) + [key(ref).value]
            else KeysSeen(refs, key)
  {
    assert (refs + [ref])[..|refs|] == refs;
  }

  lemma {:induction false} KeysSeenIff(refs: seq<string>, key: Key)
    ensures forall k :: k in KeysSeen(refs, key) <==> exists i :: 0 <= i < |refs| && key(refs[i]) == Some(k)
    ensures Distinct(KeysSeen(refs, key))
    decreases |refs|
  {
    if refs != [] {
      var init, last := refs[..|refs| - 1], refs[|refs| - 1];
      SplitLast(refs);
      KeysSeenIff(init, key);
      KeysSeenSnoc(init, last, key);
      forall k ensures k in KeysSeen(refs, key) <==> exists i :: 0 <= i < |refs| && key(refs[i]) == Some(k) {
        if key(last) == Some(k) {
          assert key(refs[|refs| - 1]) == Some(k);
        }
        if i :| 0 <= i < |init| && key(init[i]) == Some(k) {
          assert key(refs[i]) == Some(k);
        }
      }
    }
  }

  lemma {:induction false} FirstWithKeySnoc(refs: seq<string>, ref: string, key: Key, k: string)
    ensures (exists i :: 0 <= i < |refs| && key(refs[i]) == Some(k)) ==>
              FirstWithKey(refs + [ref], key, k) == FirstWithKey(refs, key, k)
    ensures !(exists i :: 0 <= i < |refs| && key(refs[i]) == Some(k)) && key(ref) == Some(k) ==>
              FirstWithKey(refs + [ref], key, k) == |refs|
    decreases |refs|
  {
    if refs != [] {
      var more := refs + [ref];
      assert more[0] == refs[0] && more[1..] == refs[1..] + [ref];
      FirstWithKeySnoc(refs[1..], ref, key, k);
      if i :| 0 <= i < |refs| && key(refs[i]) == Some(k) {
        assert i == 0 || key(refs[1..][i - 1]) == Some(k);
      }
      if i :| 0 <= i < |refs[1..]| && key(refs[1..][i]) == Some(k) {
        assert key(refs[i + 1]) == Some(k);
      }
    }
  }

  function Extended(refs: seq<string>, ref: string, key: Key, k: string): Group {
    var g := if k in KeysSeen(refs, key) then GroupOf(refs, key, k) else Group(k, |refs|, []);
    if key(ref) == Some(k) then g.(refs := g.refs + [ref]) else g
  }

  /** One more ref: its group grows at the end or starts; every other group stays. */
  lemma {:induction false} GroupOfSnoc(refs: seq<string>, ref: string, key: Key, k: string)
    requires k in KeysSeen(refs, key) || key(ref) == Some(k)
    ensures GroupOf(refs + [ref], key, k) == Extended(refs, ref, key, k)
  {
    KeysSeenIff(refs, key);
    FirstWithKeySnoc(refs, ref, key, k);
    FilterSnoc(refs, ref, r => key(r) == Some(k));
    if k !in KeysSeen(refs, key) {
      NoneWithKey(refs, key, k);
    }
  }

  lemma {:induction false} NoneWithKey(refs: seq<string>, key: Key, k: string)
    requires !exists i :: 0 <= i < |refs| && key(refs[i]) == Some(k)
    ensures WithKey(refs, key, Some(k)) == []
  {
    FilterContains(refs, r => key(r) == Some(k));
    EmptyIff(WithKey(refs, key, Some(k)));
  }

  lemma {:induction false} NothingGrouped(key: Key)
    ensures KeysSeen([], key) == [] && WithKey([], key, None) == []
  {
  }

  /** The grouping loop, with the insertion-ordered map it fills and the list of refs without a key. */
  method GroupRanked(refs: seq<string>, key: Key) returns (groups: seq<Group>, unscoped: seq<string>)
    ensures groups == Groups(refs, key) && unscoped == WithKey(refs, key, None)
  {
    hide GroupOf, KeysSeen, WithKey;
    NothingGrouped(key);
    var order: seq<string>, entries: map<string, Group> := [], map[];
    unscoped := [];
    assert refs[..0] == [];
    for i := 0 to |refs|
      invariant order == KeysSeen(refs[..i], key)
      invariant forall k :: k in entries <==> k in order
      invariant forall k :: k in entries ==> entries[k] == GroupOf(refs[..i], key, k)
      invariant unscoped == WithKey(refs[..i], key, None)
    {
      var ref := refs[i];
      GroupingStep(refs[..i], refs[..i + 1], ref, key);
      match key(ref)
      case None => unscoped := unscoped + [ref];
      case Some(k) =>
        if k !in entries {
          order, entries := order + [k], entries[k := Group(k, i, [])];
        }
        entries := entries[k := entries[k].(refs := entries[k].refs + [ref])];
    }
    assert refs[..|refs|] == refs;
    groups := [];
    for j := 0 to |order|
      invariant groups == Map(order[..j], k => GroupOf(refs, key, k))
    {
      assert order[j] in order;
      assert order[..j + 1] == order[..j] + [order[j]];
      groups := groups + [entries[order[j]]];
    }
    assert order[..|order|] == order;
  }

  lemma {:induction false} GroupingStep(before: seq<string>, after: seq<string>, ref: string, key: Key)
    requires after == before + [ref]
    ensures KeysSeen(after, key) ==
            if key(ref).Some? && key(ref).value !in KeysSeen(before, key) then KeysSeen(before, key) + [key(ref).value]
            else KeysSeen(before, key)
    ensures forall k :: k in KeysSeen(after, key) ==> GroupOf(after, key, k) == Extended(before, ref, key, k)
    ensures WithKey(after, key, None) == WithKey(before, key, None) + if key(ref).None? then [ref] else []
  {
    KeysSeenSnoc(before, ref, key);
    forall k | k in KeysSeen(after, key) ensures GroupOf(after, key, k) == Extended(before, ref, key, k)
    {
      GroupOfSnoc(before, ref, key, k);
    }
    FilterSnoc(before, ref, r => key(r) == None);
  }

  // ----- one level of spreading -----

  type Inner = seq<string> -> seq<string>

  function Respread(groups: seq<Group>, inner: Inner): seq<Group> {
    Map(groups, (g: Group) => g.(refs := inner(g.refs)))
  }

  function Unscoped(refs: seq<string>, key: Key, inner: Inner): seq<Group> {
    var rest := WithKey(refs, key, None);
    if rest == [] then [] else [Group("", MAX_SAFE_INTEGER, inner(rest))]
  }

  /** `kinds` decides whether there is anything to spread over, `key` how the refs are grouped. */
  function SpreadBy(refs: seq<string>, kinds: Key, key: Key, inner: Inner): seq<string> {
    if |refs| <= 1 then refs
    else if |KeysSeen(refs, kinds)| < 2 then inner(refs)
    else Interleave(Respread(Groups(refs, key), inner) + Unscoped(refs, key, inner))
  }

  ghost predicate Permutes(inner: Inner) {
    forall refs :: "" !in refs ==> multiset(inner(refs)) == multiset(refs)
  }

  function GroupedRefs(refs: seq<string>, key: Key): multiset<string> {
    AllRefs(Groups(refs, key)) + multiset(WithKey(refs, key, None))
  }

  lemma {:induction false} ReplaceOne(groups: seq<Group>, after: seq<Group>, i: nat, ref: string)
    requires i < |groups| == |after|
    requires forall j :: 0 <= j < |groups| && j != i ==> after[j].refs == groups[j].refs
    requires after[i].refs == groups[i].refs + [ref]
    ensures AllRefs(after) == AllRefs(groups) + multiset{ref}
    decreases |groups|
  {
    var n := |groups| - 1;
    if i < n {
      ReplaceOne(groups[..n], after[..n], i, ref);
    } else {
      SameRefs(groups[..n], after[..n]);
    }
  }

  lemma {:induction false} SameRefs(groups: seq<Group>, after: seq<Group>)
    requires |groups| == |after| && forall j :: 0 <= j < |groups| ==>
               multiset(after[j].refs) == multiset(groups[j].refs)
    ensures AllRefs(after) == AllRefs(groups)
    decreases |groups|
  {
    if groups != [] {
      SameRefs(groups[..|groups| - 1], after[..|groups| - 1]);
    }
  }

  /** Grouping loses nothing and invents nothing. */
  lemma {:induction false} GroupingConserves(refs: seq<string>, key: Key)
    ensures GroupedRefs(refs, key) == multiset(refs)
    decreases |refs|
  {
    if refs != [] {
      var init, ref := refs[..|refs| - 1], refs[|refs| - 1];
      SplitLast(refs);
      GroupingConserves(init, key);
      GroupingAdds(init, refs, ref, key);
    }
  }

  /** What one more ref does to the list of groups. */
  lemma {:induction false} GroupsStep(before: seq<string>, after: seq<string>, ref: string, key: Key) returns (i: nat)
    requires after == before + [ref]
    ensures key(ref).None? ==> Groups(after, key) == Groups(before, key)
    ensures key(ref).Some? && key(ref).value !in KeysSeen(before, key) ==>
              Groups(after, key) == Groups(before, key) + [Group(key(ref).value, |before|, [ref])]
    ensures key(ref).Some? && key(ref).value in KeysSeen(before, key) ==>
              i < |Groups(before, key)| && Groups(before, key)[i].key == key(ref).value &&
              Groups(after, key) ==
                Groups(before, key)[i := Groups(before, key)[i].(refs := Groups(before, key)[i].refs + [ref])]
  {
    var keys, keysAfter := KeysSeen(before, key), KeysSeen(after, key);
    GroupingStep(before, after, ref, key);
    KeysSeenIff(before, key);
    hide GroupOf, KeysSeen;
    forall j | 0 <= j < |keys| ensures keys[j] in keys && keysAfter[j] == keys[j] {
    }
    i := 0;
    if key(ref).Some? {
      var k := key(ref).value;
      if k in keys {
        i :| 0 <= i < |keys| && keys[i] == k;
        GroupKey(before, key, k);
      } else {
        assert keysAfter[|keys|] == k && k in keysAfter;
        assert Group(k, |before|, []).(refs := [] + [ref]) == Group(k, |before|, [ref]);
      }
    }
  }

  lemma {:induction false} GroupKey(refs: seq<string>, key: Key, k: string)
    ensures GroupOf(refs, key, k).key == k
  {
  }

  lemma {:induction false} GroupingAdds(before: seq<string>, after: seq<string>, ref: string, key: Key)
    requires after == before + [ref]
    ensures GroupedRefs(after, key) == GroupedRefs(before, key) + multiset{ref}
  {
    var i := GroupsStep(before, after, ref, key);
    var groups, groupsAfter := Groups(before, key), Groups(after, key);
    FilterSnoc(before, ref, r => key(r) == None);
    if key(ref).Some? {
      if key(ref).value in KeysSeen(before, key) {
        hide Groups, KeysSeen, AllRefs;
        ReplaceOne(groups, groupsAfter, i, ref);
      } else {
        AllRefsSnoc(groups, Group(key(ref).value, |before|, [ref]));
      }
    }
  }

  lemma {:induction false} GroupsNameNoEmpty(refs: seq<string>, key: Key)
    requires "" !in refs
    ensures NoEmptyRef(Groups(refs, key)) && "" !in WithKey(refs, key, None)
  {
    FilterContains(refs, ref => key(ref) == None);
    forall g | g in Groups(refs, key) ensures "" !in g.refs {
      var i :| 0 <= i < |Groups(refs, key)| && Groups(refs, key)[i] == g;
      var k := KeysSeen(refs, key)[i];
      FilterContains(refs, ref => key(ref) == Some(k));
    }
  }

  /** Spreading at one level permutes every list of non-empty refs, if the level below does. */
  lemma {:induction false} SpreadByPermutes(refs: seq<string>, kinds: Key, key: Key, inner: Inner)
    requires "" !in refs && Permutes(inner)
    ensures multiset(SpreadBy(refs, kinds, key, inner)) == multiset(refs)
  {
    hide Groups, KeysSeen, WithKey, Interleave, AllRefs, Respread;
    var groups, rest := Groups(refs, key), WithKey(refs, key, None);
    var spread, unscoped := Respread(groups, inner), Unscoped(refs, key, inner);
    GroupsNameNoEmpty(refs, key);
    GroupingConserves(refs, key);
    RespreadPermutes(groups, inner);
    AllRefsConcat(spread, unscoped);
    NoRefs();
    assert AllRefs(unscoped) == multiset(rest) by {
      if rest != [] {
        AllRefsOne(unscoped[0]);
      }
    }
    assert NoEmptyRef(spread + unscoped) by {
      if rest != [] {
        SameElements(inner(rest), rest);
      }
    }
    InterleaveKeepsAllIff(spread + unscoped);
  }

  lemma {:induction false} SameElements(a: seq<string>, b: seq<string>)
    requires multiset(a) == multiset(b)
    ensures forall x :: x in a <==> x in b
  {
    PermutationFacts(a, b);
  }

  lemma {:induction false} RespreadPermutes(groups: seq<Group>, inner: Inner)
    requires NoEmptyRef(groups) && Permutes(inner)
    ensures AllRefs(Respread(groups, inner)) == AllRefs(groups) && NoEmptyRef(Respread(groups, inner))
  {
    var spread := Respread(groups, inner);
    forall i | 0 <= i < |groups| ensures multiset(spread[i].refs) == multiset(groups[i].refs) && "" !in spread[i].refs {
      assert groups[i] in groups;
      SameElements(spread[i].refs, groups[i].refs);
    }
    SameRefs(groups, spread);
  }

  lemma {:induction false} FirstIsInside(refs: seq<string>, key: Key, k: string)
    requires k in KeysSeen(refs, key)
    ensures FirstWithKey(refs, key, k) < |refs|
    decreases |refs|
  {
    KeysSeenIff(refs, key);
    var i :| 0 <= i < |refs| && key(refs[i]) == Some(k);
    if i > 0 {
      KeysSeenIff(refs[1..], key);
      assert key(refs[1..][i - 1]) == Some(k);
      FirstIsInside(refs[1..], key, k);
    }
  }

  lemma {:induction false} FirstSeenFirst(refs: seq<string>, key: Key, i: nat, j: nat)
    requires i < j < |KeysSeen(refs, key)|
    ensures FirstWithKey(refs, key, KeysSeen(refs, key)[i]) < FirstWithKey(refs, key, KeysSeen(refs, key)[j])
    decreases |refs|
  {
    var init, last := refs[..|refs| - 1], refs[|refs| - 1];
    SplitLast(refs);
    KeysSeenSnoc(init, last, key);
    KeysSeenIff(init, key);
    var keys := KeysSeen(init, key);
    assert keys[i] in keys;
    FirstWithKeySnoc(init, last, key, keys[i]);
    FirstIsInside(init, key, keys[i]);
    if j < |keys| {
      assert keys[j] in keys;
      FirstSeenFirst(init, key, i, j);
      FirstWithKeySnoc(init, last, key, keys[j]);
    } else {
      FirstWithKeySnoc(init, last, key, key(last).value);
    }
  }

  /** The groups take turns in the order of their best-ranked refs, the unscoped ones last: sorting changes nothing. */
  lemma {:induction false} GroupsTakeTurnsByRank(refs: seq<string>, key: Key, inner: Inner)
    requires |refs| <= MAX_SAFE_INTEGER
    ensures var groups := Respread(Groups(refs, key), inner) + Unscoped(refs, key, inner);
            Interleave(groups) == RefsAt(groups, Taken(groups))
  {
    var keys := KeysSeen(refs, key);
    var groups := Respread(Groups(refs, key), inner) + Unscoped(refs, key, inner);
    forall i, j | 0 <= i < j < |groups| ensures !GroupBefore(groups[j], groups[i]) {
      assert keys[i] in keys;
      FirstIsInside(refs, key, keys[i]);
      if j < |keys| {
        FirstSeenFirst(refs, key, i, j);
      }
    }
    SortKeepsSorted(groups, GroupBefore);
  }

  // ----- the three levels -----

  function SpreadEvidence(refs: seq<string>, roles: Option<map<string, string>>): seq<string> {
    match roles
    case None => refs
    case Some(m) => SpreadBy(refs, Scoped(m), OrEmpty(m), rs => rs)
  }

  function SpreadLanguage(refs: seq<string>, languages: map<string, string>, roles: Option<map<string, string>>)
    : seq<string>
  {
    SpreadBy(refs, Scoped(languages), Scoped(languages), rs => SpreadEvidence(rs, roles))
  }

  function SpreadContext(refs: seq<string>, packages: Key, languages: map<string, string>,
                         roles: Option<map<string, string>>): seq<string>
  {
    SpreadBy(refs, packages, packages, rs => SpreadLanguage(rs, languages, roles))
  }

  /** The three-level spread is a permutation of every list of non-empty refs. */
  lemma {:induction false} SpreadPermutes(refs: seq<string>, packages: Key, languages: map<string, string>,
                                          roles: Option<map<string, string>>)
    requires "" !in refs
    ensures multiset(SpreadContext(refs, packages, languages, roles)) == multiset(refs)
  {
    var evidence: Inner := rs => SpreadEvidence(rs, roles);
    forall rs | "" !in rs ensures multiset(evidence(rs)) == multiset(rs) {
      if roles.Some? {
        SpreadByPermutes(rs, Scoped(roles.value), OrEmpty(roles.value), rs => rs);
      }
    }
    var language: Inner := rs => SpreadLanguage(rs, languages, roles);
    forall rs | "" !in rs ensures multiset(language(rs)) == multiset(rs) {
      SpreadByPermutes(rs, Scoped(languages), Scoped(languages), evidence);
    }
    SpreadByPermutes(refs, packages, packages, language);
  }

  // ----- the methods -----

  /** The distinct keys present, as the source's sets count them. */
  method CountKinds(refs: seq<string>, kinds: Key) returns (n: nat)
    ensures n == |KeysSeen(refs, kinds)|
  {
    var seen: set<string> := {};
    for i := 0 to |refs|
      invariant seen == set k | k in KeysSeen(refs[..i], kinds)
    {
      KeysSeenSnoc(refs[..i], refs[i], kinds);
      assert refs[..i + 1] == refs[..i] + [refs[i]];
      if kinds(refs[i]).Some? {
        seen := seen + {kinds(refs[i]).value};
      }
    }
    assert refs[..|refs|] == refs;
    KeysSeenIff(refs, kinds);
    DistinctCardinality(KeysSeen(refs, kinds));
    return |seen|;
  }

  method SpreadRankedEvidenceRoleRefs(refs: seq<string>, roles: Option<map<string, string>>) returns (r: seq<string>)
    ensures r == SpreadEvidence(refs, roles)
  {
    if |refs| <= 1 || roles.None? {
      return refs;
    }
    var kinds := CountKinds(refs, Scoped(roles.value));
    if kinds < 2 {
      return refs;
    }
    var groups, unscoped := GroupRanked(refs, OrEmpty(roles.value));
    FilterContains(refs, ref => OrEmpty(roles.value)(ref) == None);
    EmptyIff(unscoped);
    assert Respread(groups, rs => rs) + Unscoped(refs, OrEmpty(roles.value), rs => rs) == groups;
    r := SpreadRankedGroups(groups);
  }

  method SpreadRankedLanguageRefs(refs: seq<string>, languages: map<string, string>, roles: Option<map<string, string>>)
    returns (r: seq<string>)
    ensures r == SpreadLanguage(refs, languages, roles)
  {
    hide Groups, KeysSeen, WithKey, Interleave, SpreadEvidence;
    if |refs| <= 1 {
      return refs;
    }
    ghost var inner: Inner := rs => SpreadEvidence(rs, roles);
    var kinds := CountKinds(refs, Scoped(languages));
    if kinds < 2 {
      r := SpreadRankedEvidenceRoleRefs(refs, roles);
      return;
    }
    var groups, unscoped := GroupRanked(refs, Scoped(languages));
    var spreadGroups: seq<Group> := [];
    for i := 0 to |groups|
      invariant spreadGroups == Respread(groups[..i], inner)
    {
      var spread := SpreadRankedEvidenceRoleRefs(groups[i].refs, roles);
      spreadGroups := spreadGroups + [groups[i].(refs := spread)];
    }
    assert groups[..|groups|] == groups;
    if unscoped != [] {
      var spread := SpreadRankedEvidenceRoleRefs(unscoped, roles);
      spreadGroups := spreadGroups + [Group("", MAX_SAFE_INTEGER, spread)];
    }
    assert spreadGroups == Respread(groups, inner) + Unscoped(refs, Scoped(languages), inner);
    r := SpreadRankedGroups(spreadGroups);
  }

  method SpreadRankedContextRefs(refs: seq<string>, packages: Key, languages: map<string, string>,
                                 roles: Option<map<string, string>>) returns (r: seq<string>)
    ensures r == SpreadContext(refs, packages, languages, roles)
  {
    hide Groups, KeysSeen, WithKey, Interleave, SpreadLanguage;
    if |refs| <= 1 {
      return refs;
    }
    ghost var inner: Inner := rs => SpreadLanguage(rs, languages, roles);
    var kinds := CountKinds(refs, packages);
    if kinds < 2 {
      r := SpreadRankedLanguageRefs(refs, languages, roles);
      return;
    }
    var groups, unscoped := GroupRanked(refs, packages);
    var spreadGroups: seq<Group> := [];
    for i := 0 to |groups|
      invariant spreadGroups == Respread(groups[..i], inner)
    {
      var spread := SpreadRankedLanguageRefs(groups[i].refs, languages, roles);
      spreadGroups := spreadGroups + [groups[i].(refs := spread)];
    }
    assert groups[..|groups|] == groups;
    if unscoped != [] {
      var spread := SpreadRankedLanguageRefs(unscoped, languages, roles);
      spreadGroups := spreadGroups + [Group("", MAX_SAFE_INTEGER, spread)];
    }
    assert spreadGroups == Respread(groups, inner) + Unscoped(refs, packages, inner);
    r := SpreadRankedGroups(spreadGroups);
  }
}
