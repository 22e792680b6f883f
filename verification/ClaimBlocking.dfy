/** Who is blocked, said of the fields of the edges and the values of the scopes. */
module ClaimBlocking {
  import opened Common
  import opened Ordering
  import opened ScopeComparison
  import opened ScopeValues
  import opened ClaimEdges

  predicate Trusted(name: string) {
    name == "user_confirmation" || name == "test_verification" || name == "grape_observed" || name == "trusted_import"
  }

  /** Nobody is recorded as the author, or the author is recorded as a legacy one. */
  predicate Legacy(edge: Edge) {
    edge.authority in {None, Some(Authority(None)), Some(Authority(Some("legacy")))}
  }

  predicate TrustedAuthor(edge: Edge) {
    edge.authority.Some? && edge.authority.value.createdBy.Some? && Trusted(edge.authority.value.createdBy.value)
  }

  /** A user said, later and of the same two claims, that they go together. */
  predicate ClosedBy(r: Edge, edge: Edge) {
    && (r.edgeType == "coexists_with" || r.edgeType == "variant_of") && SamePair(r, edge)
    && r.authority == Some(Authority(Some("user_confirmation"))) && StringLess(edge.createdAt, r.createdAt)
  }

  predicate Open(edge: Edge, edges: seq<Edge>) {
    forall r :: r in edges ==> !ClosedBy(r, edge)
  }

  /** Both claims are known, and some dimension of their scopes clashes. */
  ghost predicate Apart(claims: map<string, Claim>, edge: Edge) {
    && edge.sourceClaimId in claims && edge.targetClaimId in claims
    && exists d :: Clashes(claims[edge.sourceClaimId].scope, claims[edge.targetClaimId].scope, d)
  }

  /** Both claims are known, of one type and subject, from one source and with scopes that agree. */
  ghost predicate Replaces(claims: map<string, Claim>, edge: Edge) {
    && edge.sourceClaimId in claims && edge.targetClaimId in claims
    && var source, target := claims[edge.sourceClaimId], claims[edge.targetClaimId];
       && source.claimType == target.claimType && source.subject == target.subject
       && AllSettled(source.scope, target.scope) && OneValue(source.scope, target.scope, "sourceRef")
  }

  /** The end, or ends, an open edge blocks. */
  ghost predicate Hits(claims: map<string, Claim>, edge: Edge, id: string) {
    || (edge.edgeType == "contradicts" && (id == edge.sourceClaimId || id == edge.targetClaimId) &&
        (TrustedAuthor(edge) || Legacy(edge)) && !Apart(claims, edge))
    || (edge.edgeType == "violates" && id == edge.sourceClaimId && (TrustedAuthor(edge) || Legacy(edge)) &&
        !Apart(claims, edge))
    || (edge.edgeType == "supersedes" && id == edge.targetClaimId && TrustedAuthor(edge) && Replaces(claims, edge))
  }

  lemma {:induction false} OpenIff(edge: Edge, edges: seq<Edge>)
    requires AllNulFree(edges) && NulFree(edge)
    ensures Open(edge, edges) <==> !Resolved(edge, edges)
  {
    hide EdgeKey, SamePair, NulFree;
    forall r | r in edges ensures ClosedBy(r, edge) <==> Resolves(r, edge) {
      KeyIsThePairIff(r, edge);
      assert IsResolution(r) ==> (CanResolve(r) <==> r.authority == Some(Authority(Some("user_confirmation"))));
    }
  }

  lemma {:induction false} MayConflictIff(claims: map<string, Claim>, edge: Edge)
    ensures MayConflict(claims, edge) <==> !Apart(claims, edge)
  {
    hide ScopesOverlap, Clashes;
    if edge.sourceClaimId in claims && edge.targetClaimId in claims {
      DisjointByValues(claims[edge.sourceClaimId].scope, claims[edge.targetClaimId].scope);
    }
  }

  lemma {:induction false} SupersedesIff(claims: map<string, Claim>, edge: Edge)
    ensures Supersedes(claims, edge) <==> Replaces(claims, edge)
  {
    hide ScopesCompatible, AllSettled, OneValue;
    if edge.sourceClaimId in claims && edge.targetClaimId in claims {
      CompatibleByValues(claims[edge.sourceClaimId].scope, claims[edge.targetClaimId].scope);
    }
  }

  lemma {:induction false} AuthorityIff(edge: Edge)
    ensures edge.edgeType == "contradicts" || edge.edgeType == "violates" ==>
              (CanBlock(edge) <==> TrustedAuthor(edge) || Legacy(edge))
    ensures edge.edgeType == "supersedes" ==> (CanBlock(edge) <==> TrustedAuthor(edge))
  {
    assert "legacy"[0] != "user_confirmation"[0] && "legacy"[0] != "test_verification"[0];
    assert "legacy"[0] != "grape_observed"[0] && "legacy"[0] != "trusted_import"[0];
  }

  lemma {:induction false} HitsIff(claims: map<string, Claim>, edge: Edge, id: string)
    ensures id in BlockedBy(claims, edge) <==> Hits(claims, edge, id)
  {
    MayConflictIff(claims, edge);
    SupersedesIff(claims, edge);
    AuthorityIff(edge);
    hide CanBlock, TrustedAuthor, Legacy, MayConflict, Supersedes, Apart, Replaces;
    TypesDiffer();
  }

  lemma {:induction false} TypesDiffer()
    ensures "contradicts" != "violates" && "contradicts" != "supersedes" && "violates" != "supersedes"
  {
    assert "contradicts"[0] != "violates"[0] && "contradicts"[0] != "supersedes"[0];
    assert "violates"[0] != "supersedes"[0];
  }

  /**
    A claim is blocked iff some open edge hits it: either end of a contradiction and the source of a violation, unless
    both claims are known and their scopes clash, and the target of a supersession by a claim that may replace it.
  */
  lemma {:induction false} BlockedByFields(claims: map<string, Claim>, edges: seq<Edge>, id: string)
    requires AllNulFree(edges)
    ensures id in Blocked(claims, edges) <==>
            exists e :: e in edges && Open(e, edges) && Hits(claims, e, id)
  {
    hide BlockedBy, Resolved, Open, Hits, NulFree;
    BlockedIff(claims, edges, id);
    forall e | e in edges ensures BlocksClaim(claims, edges, e, id) <==> Open(e, edges) && Hits(claims, e, id) {
      OpenIff(e, edges);
      HitsIff(claims, e, id);
    }
  }

  /** A supersession is reported as ignored iff it is open and its author or its claims do not let it replace. */
  lemma {:induction false} IgnoredByFields(claims: map<string, Claim>, edges: seq<Edge>, edge: Edge)
    requires AllNulFree(edges) && NulFree(edge)
    ensures Ignored(claims, edges, edge) <==>
            edge.edgeType == "supersedes" && Open(edge, edges) && !(TrustedAuthor(edge) && Replaces(claims, edge))
  {
    hide CanBlock, TrustedAuthor, Supersedes, Replaces, Resolved, Open, NulFree;
    OpenIff(edge, edges);
    SupersedesIff(claims, edge);
    AuthorityIff(edge);
  }

  /** One open edge by a user: a contradiction takes both claims, a violation only the one that violates. */
  lemma {:induction false} OneEdgeBlocks(claims: map<string, Claim>, edge: Edge)
    requires edge.authority == Some(Authority(Some("user_confirmation"))) && !Apart(claims, edge)
    ensures edge.edgeType == "contradicts" ==>
              Blocked(claims, [edge]) == {edge.sourceClaimId, edge.targetClaimId}
    ensures edge.edgeType == "violates" ==> Blocked(claims, [edge]) == {edge.sourceClaimId}
  {
    TypesDiffer();
    forall id ensures id in Blocked(claims, [edge]) <==> BlocksClaim(claims, [edge], edge, id) {
      BlockedIff(claims, [edge], id);
      assert edge in [edge];
    }
    hide MayConflict, Apart, Blocked, EdgeKey;
    MayConflictIff(claims, edge);
    AuthorityIff(edge);
    assert edge.edgeType in {"contradicts", "violates"} ==> !Resolved(edge, [edge]);
  }
}
