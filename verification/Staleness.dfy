/** Which previously sent items may still be trusted for a new artifact. */
module Staleness {
  import opened Common
  import opened LedgerTypes

  type DependencyLister = string -> seq<DependencyRow>
  type DependencyCache = map<string, map<string, DependencyRow>>

  function LocalDependencyId(artifactId: string, dependencyId: string): string {
    var prefix := artifactId + ":";
    if prefix <= dependencyId then dependencyId[|prefix|..] else dependencyId
  }

  function StoredDependencyId(artifactId: string, localId: string): string {
    artifactId + ":" + localId
  }

  /** Stripping the artifact prefix undoes adding it, whatever colons the two ids contain. */
  lemma {:induction false} LocalIdRoundTrip(artifactId: string, localId: string)
    ensures LocalDependencyId(artifactId, StoredDependencyId(artifactId, localId)) == localId
  {
    assert StoredDependencyId(artifactId, localId)[|artifactId + ":"|..] == localId;
  }

  predicate SameStringSet(left: seq<string>, right: seq<string>) {
    |left| == |right| && forall x :: x in left ==> x in right
  }

  /** For a duplicate-free left list the length-and-membership test means: same set, no repeats on the right. */
  lemma {:induction false} SameStringSetDecidesEquality(left: seq<string>, right: seq<string>)
    requires Distinct(left)
    ensures SameStringSet(left, right) <==> (set x | x in left) == (set x | x in right) && Distinct(right)
  {
    DistinctCardinality(left);
    DistinctCardinality(right);
    var l, r := set x | x in left, set x | x in right;
    if SameStringSet(left, right) {
      assert l <= r && |l| == |left| == |right| >= |r|;
      SubsetOfSameSize(l, r);
    } else if l == r && Distinct(right) {
      assert |left| == |right|;
      forall x | x in left ensures x in right {
        assert x in l;
      }
    }
  }

  /** A repeated left element hides a missing right one. */
  lemma {:induction false} RepeatedLeftDefeatsSameStringSet()
    ensures var left, right := ["a", "a"], ["a", "b"];
            SameStringSet(left, right) && (set x | x in left) != (set x | x in right)
  {
    var left, right := ["a", "a"], ["a", "b"];
    var l, r := set x | x in left, set x | x in right;
    forall x | x in left ensures x in right {
      assert x == right[0];
    }
    assert "b" in r by { assert right[1] in right; }
    assert "b" !in l by { assert "a"[0] != "b"[0]; }
  }

  function LongestText(texts: seq<string>): (n: nat)
    ensures forall t :: t in texts ==> |t| <= n
  {
    if texts == [] then 0 else
    SplitLast(texts);
    Max(LongestText(texts[..|texts| - 1]), |texts[|texts| - 1]|)
  }

  /** The test decides set equality against every right list exactly when the left list has no repeats. */
  lemma {:induction false} SameStringSetDecidesIff(left: seq<string>)
    ensures Distinct(left) <==>
            forall right :: SameStringSet(left, right) ==> (set x | x in left) == (set x | x in right)
  {
    if Distinct(left) {
      forall right | SameStringSet(left, right) ensures (set x | x in left) == (set x | x in right) {
        SameStringSetDecidesEquality(left, right);
      }
    } else {
      var i, j :| 0 <= i < j < |left| && left[i] == left[j];
      var novel := seq(LongestText(left) + 1, k => 'a');
      var right := left[j := novel];
      assert novel !in left;
      forall x | x in left ensures x in right {
        var k :| 0 <= k < |left| && left[k] == x;
        assert right[if k == j then i else k] == x;
      }
      assert right[j] == novel;
      var l, r := set x | x in left, set x | x in right;
      assert novel in r && novel !in l;
      assert SameStringSet(left, right) && l != r;
    }
  }

  function DependencyIndex(rows: seq<DependencyRow>, artifactId: string): map<string, DependencyRow> {
    Index(rows, (row: DependencyRow) => LocalDependencyId(artifactId, row.dependencyId))
  }

  /** One cited ref looks up to the same hash in the stored dependencies and in the current ones. */
  predicate RefUnchanged(ref: string, prior: map<string, DependencyRow>, current: map<string, Dependency>) {
    ref in prior && ref in current && prior[ref].hash == current[ref].hash
  }

  /** The staleness rule with no cache: every lookup reads the stored rows again. */
  predicate IsStale(item: SentRow, packItems: seq<PackRow>, artifact: Artifact, list: DependencyLister) {
    if item.branch != artifact.branch || item.commit != artifact.commit then true
    else if item.manifestHash == artifact.manifestHash then false
    else
      var sections := Index(artifact.sections, SectionId);
      var packs := Index(packItems, PackRowId);
      if item.sectionId !in sections || item.sentItemId !in packs then true
      else
        var priorRefs := packs[item.sentItemId].inputRefs;
        !SameStringSet(priorRefs, sections[item.sectionId].dependencyRefs) ||
        exists ref :: ref in priorRefs &&
          !RefUnchanged(ref, DependencyIndex(list(item.artifactId), item.artifactId),
            Index(artifact.dependencies, DependencyId))
  }

  ghost predicate CacheSound(cache: DependencyCache, list: DependencyLister) {
    forall a :: a in cache ==> cache[a] == DependencyIndex(list(a), a)
  }

  method DependenciesForArtifact(artifactId: string, cache: DependencyCache, list: DependencyLister)
    returns (mapped: map<string, DependencyRow>, newCache: DependencyCache)
    requires CacheSound(cache, list)
    ensures mapped == DependencyIndex(list(artifactId), artifactId)
    ensures CacheSound(newCache, list)
  {
    if artifactId in cache {
      return cache[artifactId], cache;
    }
    mapped := map[];
    var rows := list(artifactId);
    for i := 0 to |rows|
      invariant mapped == DependencyIndex(rows[..i], artifactId)
    {
      IndexSnoc(rows[..i], rows[i], (row: DependencyRow) => LocalDependencyId(artifactId, row.dependencyId));
      assert rows[..i + 1] == rows[..i] + [rows[i]];
      mapped := mapped[LocalDependencyId(artifactId, rows[i].dependencyId) := rows[i]];
    }
    assert rows[..|rows|] == rows;
    newCache := cache[artifactId := mapped];
  }

  method IsPriorItemStale(
    item: SentRow, packItems: seq<PackRow>, packs: map<string, PackRow>, sections: map<string, Section>,
    dependencies: map<string, Dependency>, artifact: Artifact, cache: DependencyCache, list: DependencyLister)
    returns (stale: bool, newCache: DependencyCache)
    requires packs == Index(packItems, PackRowId)
    requires sections == Index(artifact.sections, SectionId)
    requires dependencies == Index(artifact.dependencies, DependencyId)
    requires CacheSound(cache, list)
    ensures stale == IsStale(item, packItems, artifact, list)
    ensures CacheSound(newCache, list)
  {
    hide SameStringSet, RefUnchanged, DependencyIndex, CacheSound, Index;
    newCache := cache;
    if item.branch != artifact.branch || item.commit != artifact.commit {
      return true, newCache;
    }
    if item.manifestHash == artifact.manifestHash {
      return false, newCache;
    }
    if item.sectionId !in sections || item.sentItemId !in packs {
      return true, newCache;
    }
    var priorRefs := packs[item.sentItemId].inputRefs;
    if !SameStringSet(priorRefs, sections[item.sectionId].dependencyRefs) {
      return true, newCache;
    }
    var prior: map<string, DependencyRow>;
    prior, newCache := DependenciesForArtifact(item.artifactId, cache, list);
    for i := 0 to |priorRefs|
      invariant forall k :: 0 <= k < i ==> RefUnchanged(priorRefs[k], prior, dependencies)
    {
      if !RefUnchanged(priorRefs[i], prior, dependencies) {
        assert priorRefs[i] in priorRefs;
        return true, newCache;
      }
    }
    return false, newCache;
  }

  function CurrentItems(
    items: seq<SentRow>, packItems: seq<PackRow>, artifact: Artifact, list: DependencyLister,
    forceStale: bool): seq<SentRow>
  {
    Filter(items, r => !forceStale && !IsStale(r, packItems, artifact, list))
  }

  function StaleItems(
    items: seq<SentRow>, packItems: seq<PackRow>, artifact: Artifact, list: DependencyLister,
    forceStale: bool): seq<SentRow>
  {
    Filter(items, r => forceStale || IsStale(r, packItems, artifact, list))
  }

  /** The memoised partition is the plain filter: in order, losing and repeating nothing. */
  method PartitionPriorContextByStaleness(
    activePriorItems: seq<SentRow>, packItems: seq<PackRow>, artifact: Artifact, list: DependencyLister,
    forceStale: bool)
    returns (current: seq<SentRow>, stale: seq<SentRow>)
    ensures current == CurrentItems(activePriorItems, packItems, artifact, list, forceStale)
    ensures stale == StaleItems(activePriorItems, packItems, artifact, list, forceStale)
  {
    if forceStale {
      FilterAll(activePriorItems, packItems, artifact, list);
      return [], activePriorItems;
    }
    current, stale := [], [];
    var packs := Index(packItems, PackRowId);
    var sections := Index(artifact.sections, SectionId);
    var dependencies := Index(artifact.dependencies, DependencyId);
    var cache: DependencyCache := map[];
    for i := 0 to |activePriorItems|
      invariant CacheSound(cache, list)
      invariant current == CurrentItems(activePriorItems[..i], packItems, artifact, list, false)
      invariant stale == StaleItems(activePriorItems[..i], packItems, artifact, list, false)
    {
      assert activePriorItems[..i + 1][..i] == activePriorItems[..i];
      var itemIsStale: bool;
      itemIsStale, cache := IsPriorItemStale(
        activePriorItems[i], packItems, packs, sections, dependencies, artifact, cache, list);
      if itemIsStale {
        stale := stale + [activePriorItems[i]];
      } else {
        current := current + [activePriorItems[i]];
      }
    }
    assert activePriorItems[..|activePriorItems|] == activePriorItems;
  }

  lemma {:induction false} FilterAll(
    items: seq<SentRow>, packItems: seq<PackRow>, artifact: Artifact, list: DependencyLister)
    ensures CurrentItems(items, packItems, artifact, list, true) == []
    ensures StaleItems(items, packItems, artifact, list, true) == items
    decreases |items|
  {
    if items != [] {
      FilterAll(items[..|items| - 1], packItems, artifact, list);
      assert items == items[..|items| - 1] + [items[|items| - 1]];
    }
  }

  /** Every prior item lands on exactly one side, as many times as it was listed. */
  lemma {:induction false} PartitionLosesNothing(
    items: seq<SentRow>, packItems: seq<PackRow>, artifact: Artifact, list: DependencyLister, forceStale: bool)
    ensures multiset(CurrentItems(items, packItems, artifact, list, forceStale)) +
            multiset(StaleItems(items, packItems, artifact, list, forceStale)) == multiset(items)
    decreases |items|
  {
    if items != [] {
      PartitionLosesNothing(items[..|items| - 1], packItems, artifact, list, forceStale);
      assert items == items[..|items| - 1] + [items[|items| - 1]];
    }
  }
}
