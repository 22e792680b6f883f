/** Which claims are blocked by the edges between them, and which edges are past their resolution. */
module ClaimEdges {
  import opened Common
  import opened Ordering
  import opened ScopeComparison

  datatype Claim = Claim(claimId: string, subject: string, claimType: string, scope: ScopeRecord)

  /** Edge metadata as recorded; a missing record is a legacy edge. */
  datatype Authority = Authority(createdBy: Option<string>)

  datatype Edge = Edge(
    sourceClaimId: string, targetClaimId: string, edgeType: string, authority: Option<Authority>, createdAt: string)

  function IdOf(c: Claim): string { c.claimId }

  // ----- authority -----

  datatype Summary = Summary(createdBy: string, recorded: bool)

  function AuthoritySummary(edge: Edge): Summary {
    match edge.authority
    case None => Summary("legacy", false)
    case Some(Authority(None)) => Summary("legacy", false)
    case Some(Authority(Some(name))) => Summary(name, true)
  }

  predicate BlockingAuthority(name: string) {
    name in {"user_confirmation", "test_verification", "grape_observed", "trusted_import"}
  }

  predicate CanBlock(edge: Edge) {
    var authority := AuthoritySummary(edge);
    if edge.edgeType == "contradicts" || edge.edgeType == "violates" then
      BlockingAuthority(authority.createdBy) || authority.createdBy == "legacy" || !authority.recorded
    else
      edge.edgeType == "supersedes" && BlockingAuthority(authority.createdBy)
  }

  predicate IsResolution(edge: Edge) {
    edge.edgeType == "coexists_with" || edge.edgeType == "variant_of"
  }

  predicate CanResolve(edge: Edge) {
    if IsResolution(edge) then AuthoritySummary(edge).createdBy == "user_confirmation" else
    edge.edgeType == "supersedes" && CanBlock(edge)
  }

  // ----- pairs -----

  /** The two ids, sorted and joined by NUL. */
  function PairKey(a: string, b: string): string {
    if StringLess(b, a) then b + ['\0'] + a else a + ['\0'] + b
  }

  function EdgeKey(edge: Edge): string {
    PairKey(edge.sourceClaimId, edge.targetClaimId)
  }

  predicate SamePair(a: Edge, b: Edge) {
    || (a.sourceClaimId == b.sourceClaimId && a.targetClaimId == b.targetClaimId)
    || (a.sourceClaimId == b.targetClaimId && a.targetClaimId == b.sourceClaimId)
  }

  predicate NulFree(edge: Edge) {
    '\0' !in edge.sourceClaimId && '\0' !in edge.targetClaimId
  }

  lemma {:induction false} SplitAtNul(a: string, b: string, c: string, d: string)
    requires '\0' !in a && '\0' !in c && a + ['\0'] + b == c + ['\0'] + d
    ensures a == c && b == d
  {
    ConcatAssociative(a, ['\0'], b);
    ConcatAssociative(c, ['\0'], d);
    Border(a, ['\0'] + b, c, ['\0'] + d, x => x != '\0');
    assert b == (['\0'] + b)[1..] && d == (['\0'] + d)[1..];
  }

  /** Without NUL in the ids, the key is the unordered pair. */
  lemma {:induction false} KeyIsThePairIff(a: Edge, b: Edge)
    requires NulFree(a) && NulFree(b)
    ensures EdgeKey(a) == EdgeKey(b) <==> SamePair(a, b)
  {
    KeyIgnoresDirection(a.sourceClaimId, a.targetClaimId);
    if EdgeKey(a) == EdgeKey(b) {
      var p, q := Lower(a), Higher(a);
      var r, s := Lower(b), Higher(b);
      SplitAtNul(p, q, r, s);
    }
  }

  function Lower(e: Edge): string {
    if StringLess(e.targetClaimId, e.sourceClaimId) then e.targetClaimId else e.sourceClaimId
  }

  function Higher(e: Edge): string {
    if StringLess(e.targetClaimId, e.sourceClaimId) then e.sourceClaimId else e.targetClaimId
  }

  lemma {:induction false} KeyIgnoresDirection(a: string, b: string)
    ensures PairKey(a, b) == PairKey(b, a)
  {
    StringLessTotal(a, b);
  }

  /** With NUL in an id, edges between different claims can share a key. */
  lemma {:induction false} NulMergesPairs(a: Edge, b: Edge)
    requires a.sourceClaimId == "a" && a.targetClaimId == "b\0c"
    requires b.sourceClaimId == "a\0b" && b.targetClaimId == "c"
    ensures EdgeKey(a) == EdgeKey(b) && !SamePair(a, b)
  {
    assert a.sourceClaimId + ['\0'] + a.targetClaimId == b.sourceClaimId + ['\0'] + b.targetClaimId;
  }

  // ----- what blocks, declaratively -----

  /** A strictly later, user-confirmed resolution between the same two claims. */
  predicate Resolves(r: Edge, edge: Edge) {
    IsResolution(r) && EdgeKey(r) == EdgeKey(edge) && StringLess(edge.createdAt, r.createdAt) && CanResolve(r)
  }

  predicate Resolved(edge: Edge, edges: seq<Edge>) {
    exists r :: r in edges && Resolves(r, edge)
  }

  predicate MayConflict(claims: map<string, Claim>, edge: Edge) {
    edge.sourceClaimId in claims && edge.targetClaimId in claims ==>
      ScopesOverlap(claims[edge.sourceClaimId].scope, claims[edge.targetClaimId].scope).status != Disjoint
  }

  predicate CanSupersede(source: Claim, target: Claim) {
    && source.claimType == target.claimType && source.subject == target.subject
    && ScopesCompatible(source.scope, target.scope).status == Overlap
  }

  predicate Supersedes(claims: map<string, Claim>, edge: Edge) {
    && edge.sourceClaimId in claims && edge.targetClaimId in claims
    && CanSupersede(claims[edge.sourceClaimId], claims[edge.targetClaimId])
  }

  /** What an unresolved edge blocks. */
  function BlockedBy(claims: map<string, Claim>, edge: Edge): set<string> {
    if !CanBlock(edge) then {}
    else if edge.edgeType == "contradicts" then
      if MayConflict(claims, edge) then {edge.sourceClaimId, edge.targetClaimId} else {}
    else if edge.edgeType == "violates" then
      if MayConflict(claims, edge) then {edge.sourceClaimId} else {}
    else if edge.edgeType == "supersedes" && Supersedes(claims, edge) then {edge.targetClaimId}
    else {}
  }

  predicate BlocksClaim(claims: map<string, Claim>, edges: seq<Edge>, edge: Edge, id: string) {
    !Resolved(edge, edges) && id in BlockedBy(claims, edge)
  }

  ghost predicate IsBlocked(claims: map<string, Claim>, edges: seq<Edge>, id: string) {
    exists e :: e in edges && BlocksClaim(claims, edges, e, id)
  }

  function Blocked(claims: map<string, Claim>, edges: seq<Edge>): set<string> {
    set e, id | e in edges && id in BlockedBy(claims, e) && BlocksClaim(claims, edges, e, id) :: id
  }

  predicate Ignored(claims: map<string, Claim>, edges: seq<Edge>, edge: Edge) {
    edge.edgeType == "supersedes" && !Resolved(edge, edges) && !(CanBlock(edge) && Supersedes(claims, edge))
  }

  lemma {:induction false} BlockedIff(claims: map<string, Claim>, edges: seq<Edge>, id: string)
    ensures id in Blocked(claims, edges) <==> IsBlocked(claims, edges, id)
  {
  }

  // ----- the loops -----

  method HasLaterResolution(edge: Edge, edges: seq<Edge>) returns (resolved: bool)
    ensures resolved <==> Resolved(edge, edges)
  {
    resolved := false;
    for i := 0 to |edges|
      invariant resolved <==> exists k :: 0 <= k < i && Resolves(edges[k], edge)
    {
      var candidate := edges[i];
      if !IsResolution(candidate) || EdgeKey(candidate) != EdgeKey(edge) ||
        !StringLess(edge.createdAt, candidate.createdAt) {
        continue;
      }
      if CanResolve(candidate) {
        resolved := true;
      }
    }
  }

  method ClaimIdsBlockedByActiveClaimEdges(claims: seq<Claim>, edges: seq<Edge>)
    returns (blocked: set<string>, ignoredEdges: seq<Edge>)
    ensures blocked == Blocked(Index(claims, IdOf), edges)
    ensures ignoredEdges == Filter(edges, e => Ignored(Index(claims, IdOf), edges, e))
  {
    hide EdgeKey, Resolved, MayConflict, Supersedes, Index, CanBlock;
    var claimsById := Index(claims, IdOf);
    ghost var isIgnored := e => Ignored(claimsById, edges, e);
    blocked, ignoredEdges := {}, [];
    for i := 0 to |edges|
      invariant forall id :: id in blocked <==> exists k :: 0 <= k < i && BlocksClaim(claimsById, edges, edges[k], id)
      invariant ignoredEdges == Filter(edges[..i], isIgnored)
    {
      var edge := edges[i];
      assert edges[..i + 1] == edges[..i] + [edge];
      FilterSnoc(edges[..i], edge, isIgnored);
      var later := HasLaterResolution(edge, edges);
      if edge.edgeType == "contradicts" && !later {
        if CanBlock(edge) && MayConflict(claimsById, edge) {
          blocked := blocked + {edge.sourceClaimId, edge.targetClaimId};
        }
        continue;
      }
      if edge.edgeType == "violates" && !later {
        if CanBlock(edge) && MayConflict(claimsById, edge) {
          blocked := blocked + {edge.sourceClaimId};
        }
        continue;
      }
      if edge.edgeType != "supersedes" || later {
        continue;
      }
      if CanBlock(edge) && Supersedes(claimsById, edge) {
        blocked := blocked + {edge.targetClaimId};
      } else {
        ignoredEdges := ignoredEdges + [edge];
      }
    }
    assert edges[..|edges|] == edges;
    forall id ensures id in blocked <==> id in Blocked(claimsById, edges) {
      BlockedIff(claimsById, edges, id);
    }
  }

  // ----- what the policy promises -----

  /** The blocked set does not depend on the order in which the edges are listed, nor on repeats. */
  lemma {:induction false} OrderDoesNotMatter(claims: map<string, Claim>, a: seq<Edge>, b: seq<Edge>)
    requires forall e :: e in a <==> e in b
    ensures Blocked(claims, a) == Blocked(claims, b)
  {
    hide BlockedBy;
    forall e ensures Resolved(e, a) == Resolved(e, b) {
    }
    forall id ensures id in Blocked(claims, a) <==> id in Blocked(claims, b) {
      BlockedIff(claims, a, id);
      BlockedIff(claims, b, id);
    }
  }

  /** A resolving edge blocks nothing itself; any other edge resolves nothing. */
  lemma {:induction false} ResolutionsBlockNothing(claims: map<string, Claim>, r: Edge)
    requires IsResolution(r)
    ensures BlockedBy(claims, r) == {}
  {
  }

  /** One more edge that is no resolution adds exactly what it blocks. */
  lemma {:induction false} AddingAnEdge(claims: map<string, Claim>, edges: seq<Edge>, edge: Edge)
    requires !IsResolution(edge)
    ensures Blocked(claims, edges + [edge]) ==
            Blocked(claims, edges) + if Resolved(edge, edges) then {} else BlockedBy(claims, edge)
  {
    hide BlockedBy;
    var more := edges + [edge];
    forall e ensures Resolved(e, more) == Resolved(e, edges) {
      if r :| r in edges && Resolves(r, e) {
        assert r in more;
      }
    }
    forall id ensures id in Blocked(claims, more) <==>
                      id in Blocked(claims, edges) || (!Resolved(edge, edges) && id in BlockedBy(claims, edge))
    {
      BlockedIff(claims, more, id);
      BlockedIff(claims, edges, id);
      if e :| e in edges && BlocksClaim(claims, edges, e, id) {
        assert e in more && BlocksClaim(claims, more, e, id);
      }
      if !Resolved(edge, edges) && id in BlockedBy(claims, edge) {
        assert edge in more && BlocksClaim(claims, more, edge, id);
      }
    }
  }

  /** `r` is a user's word on its pair, later than everything said about that pair so far. */
  predicate NewestResolution(r: Edge, edges: seq<Edge>) {
    && IsResolution(r) && CanResolve(r)
    && forall e :: e in edges && SamePair(e, r) ==> StringLess(e.createdAt, r.createdAt)
  }

  ghost predicate AllNulFree(edges: seq<Edge>) {
    forall e :: e in edges ==> NulFree(e)
  }

  function WithoutPair(edges: seq<Edge>, r: Edge): seq<Edge> {
    Filter(edges, e => !SamePair(e, r))
  }

  /** The newest user-confirmed resolution of a pair has exactly the effect of deleting the pair's edges. */
  lemma {:induction false} ResolvingIsDeleting(claims: map<string, Claim>, edges: seq<Edge>, r: Edge)
    requires AllNulFree(edges) && NulFree(r) && NewestResolution(r, edges)
    ensures Blocked(claims, edges + [r]) == Blocked(claims, WithoutPair(edges, r))
  {
    hide BlockedBy, EdgeKey, CanResolve;
    var more, fewer := edges + [r], WithoutPair(edges, r);
    FilterContains(edges, e => !SamePair(e, r));
    forall id ensures id in Blocked(claims, more) <==> id in Blocked(claims, fewer) {
      BlockedIff(claims, more, id);
      BlockedIff(claims, fewer, id);
      if e :| e in more && BlocksClaim(claims, more, e, id) {
        ResolutionsBlockNothing(claims, r);
        if SamePair(e, r) {
          NewestResolves(edges, r, e);
        }
        OtherPairsUnaffected(edges, r, e);
        assert e in fewer && BlocksClaim(claims, fewer, e, id);
      }
      if e :| e in fewer && BlocksClaim(claims, fewer, e, id) {
        OtherPairsUnaffected(edges, r, e);
        assert e in more && BlocksClaim(claims, more, e, id);
      }
    }
  }

  lemma {:induction false} NewestResolves(edges: seq<Edge>, r: Edge, e: Edge)
    requires NewestResolution(r, edges) && e in edges && SamePair(e, r) && NulFree(e) && NulFree(r)
    ensures Resolved(e, edges + [r])
  {
    KeyIsThePairIff(r, e);
    assert r in edges + [r] && Resolves(r, e);
  }

  lemma {:induction false} ResolvedStays(edges: seq<Edge>, r: Edge, e: Edge)
    requires Resolved(e, edges)
    ensures Resolved(e, edges + [r])
  {
    hide Resolves;
    var s :| s in edges && Resolves(s, e);
    assert s in edges + [r];
  }

  lemma {:induction false} OtherPairsUnaffected(edges: seq<Edge>, r: Edge, e: Edge)
    requires AllNulFree(edges) && NulFree(r) && NulFree(e) && !SamePair(e, r)
    ensures Resolved(e, edges + [r]) <==> Resolved(e, WithoutPair(edges, r))
  {
    hide EdgeKey, CanResolve;
    FilterContains(edges, x => !SamePair(x, r));
    KeyIsThePairIff(r, e);
    if s :| s in edges + [r] && Resolves(s, e) {
      KeyIsThePairIff(s, e);
      assert s in edges && s in WithoutPair(edges, r);
    }
    if s :| s in WithoutPair(edges, r) && Resolves(s, e) {
      assert s in edges + [r];
    }
  }

  /** A user-confirmed resolution, old or new, never blocks anything more. */
  lemma {:induction false} ResolvingOnlyUnblocks(claims: map<string, Claim>, edges: seq<Edge>, r: Edge)
    requires IsResolution(r)
    ensures Blocked(claims, edges + [r]) <= Blocked(claims, edges)
  {
    hide BlockedBy;
    var more := edges + [r];
    forall id | id in Blocked(claims, more) ensures id in Blocked(claims, edges) {
      BlockedIff(claims, more, id);
      BlockedIff(claims, edges, id);
      var e :| e in more && BlocksClaim(claims, more, e, id);
      ResolutionsBlockNothing(claims, r);
      assert e in edges;
      if Resolved(e, edges) {
        ResolvedStays(edges, r, e);
      }
      assert BlocksClaim(claims, edges, e, id);
    }
  }

  /** Edges whose meaning has no direction. */
  predicate Undirected(edge: Edge) {
    edge.edgeType == "contradicts" || IsResolution(edge)
  }

  function Reverse(edge: Edge): Edge {
    edge.(sourceClaimId := edge.targetClaimId, targetClaimId := edge.sourceClaimId)
  }

  predicate SameUpToDirection(a: Edge, b: Edge) {
    b == a || (Undirected(a) && b == Reverse(a))
  }

  lemma {:induction false} ReversedBlocksTheSame(claims: map<string, Claim>, a: Edge, b: Edge)
    requires SameUpToDirection(a, b)
    ensures BlockedBy(claims, a) == BlockedBy(claims, b) && EdgeKey(a) == EdgeKey(b)
    ensures forall r :: Resolves(r, a) == Resolves(r, b)
    ensures forall e :: Resolves(a, e) == Resolves(b, e)
  {
    KeyIgnoresDirection(a.sourceClaimId, a.targetClaimId);
    hide ScopesOverlap, ScopesCompatible;
    if a.sourceClaimId in claims && a.targetClaimId in claims {
      ComparisonIsSymmetric(claims[a.sourceClaimId].scope, claims[a.targetClaimId].scope);
    }
  }

  lemma {:induction false} DirectionKeepsResolution(claims: map<string, Claim>, a: seq<Edge>, b: seq<Edge>, i: nat)
    requires |a| == |b| && forall k :: 0 <= k < |a| ==> SameUpToDirection(a[k], b[k])
    requires i < |a| && Resolved(b[i], b)
    ensures Resolved(a[i], a)
  {
    hide BlockedBy, Resolves, SameUpToDirection;
    var r :| r in b && Resolves(r, b[i]);
    var j :| 0 <= j < |b| && b[j] == r;
    ReversedBlocksTheSame(claims, a[i], b[i]);
    ReversedBlocksTheSame(claims, a[j], b[j]);
    assert a[j] in a && Resolves(a[j], a[i]);
  }

  lemma {:induction false} DirectionKeepsBlocks(claims: map<string, Claim>, a: seq<Edge>, b: seq<Edge>, id: string)
    requires |a| == |b| && forall i :: 0 <= i < |a| ==> SameUpToDirection(a[i], b[i])
    requires id in Blocked(claims, a)
    ensures id in Blocked(claims, b)
  {
    hide BlockedBy, Resolves, SameUpToDirection;
    BlockedIff(claims, a, id);
    BlockedIff(claims, b, id);
    var e :| e in a && BlocksClaim(claims, a, e, id);
    var i :| 0 <= i < |a| && a[i] == e;
    ReversedBlocksTheSame(claims, a[i], b[i]);
    if Resolved(b[i], b) {
      DirectionKeepsResolution(claims, a, b, i);
    }
    assert b[i] in b && BlocksClaim(claims, b, b[i], id);
  }

  /** Turning any of the undirected edges around leaves the blocked set as it is. */
  lemma {:induction false} DirectionDoesNotMatter(claims: map<string, Claim>, a: seq<Edge>, b: seq<Edge>)
    requires |a| == |b| && forall i :: 0 <= i < |a| ==> SameUpToDirection(a[i], b[i])
    ensures Blocked(claims, a) == Blocked(claims, b)
  {
    forall id ensures id in Blocked(claims, a) <==> id in Blocked(claims, b) {
      forall i | 0 <= i < |a| ensures SameUpToDirection(b[i], a[i]) {
      }
      if id in Blocked(claims, a) {
        DirectionKeepsBlocks(claims, a, b, id);
      }
      if id in Blocked(claims, b) {
        DirectionKeepsBlocks(claims, b, a, id);
      }
    }
  }
}
