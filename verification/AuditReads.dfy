/** Listing the audit chain of a store that is in use: the pages of one caller read at
    successive points of a run of the store's mutations
    (server/control-plane/compliance/mem.go). */
module AuditReads {
  import opened Bytes
  import opened AuditChain
  import opened AuditListing
  import opened AuditStore
  import opened Paging

  /** The tenant's chain after the first `n` mutations. */
  ghost function ChainAfter(h: Digest, ops: seq<Op>, tenant: Str, n: nat): seq<AuditEvent>
    requires |ops| + 1 < TWO_63 && n <= |ops|
  {
    Chain(Run(h, ops[..n]), tenant)
  }

  /** Page `i` was read after the first `at[i]` mutations. */
  ghost predicate ReadDuring(h: Digest, ops: seq<Op>, tenant: Str, at: seq<nat>, visits: seq<AuditRead>)
    requires |ops| + 1 < TWO_63
  {
    && |at| == |visits|
    && (forall i :: 0 <= i < |at| ==> at[i] <= |ops| && visits[i].chain == ChainAfter(h, ops, tenant, at[i]))
    && (forall i, j :: 0 <= i < j < |at| ==> at[i] <= at[j])
  }

  /** Each page is what the store answers for the token of the page before, up to the last. */
  ghost predicate FollowsTokens(f: AuditFilter, pageSize: int, visits: seq<AuditRead>) {
    && |visits| > 0
    && (forall i :: 0 <= i < |visits| ==>
          IsAuditPage(visits[i].chain, f, pageSize, TokenBefore(visits, i), visits[i].page))
    && (forall i :: 0 <= i < |visits| ==> (visits[i].page.next == [] <==> i == |visits| - 1))
  }

  lemma {:induction false} ChainAfterGrows(h: Digest, ops: seq<Op>, tenant: Str, m: nat, n: nat)
    requires |ops| + 1 < TWO_63 && m <= n <= |ops|
    ensures ChainAfter(h, ops, tenant, m) <= ChainAfter(h, ops, tenant, n) && Numbered(ChainAfter(h, ops, tenant, n))
  {
    hide Run, Numbered, ChainIntact;
    ChainsGrow(h, ops[..n], m, tenant);
    assert ops[..n][..m] == ops[..m];
    RunsVerify(h, ops[..n], tenant);
    IntactIsNumbered(h, tenant, ChainAfter(h, ops, tenant, n));
  }

  /** On every run of the store, a caller that follows the tokens to the end while other
      mutations go on is shown exactly the matching events the tenant's chain held at the
      first page, once each and newest first. */
  lemma {:induction false} ReachableListing(
    h: Digest, ops: seq<Op>, tenant: Str, f: AuditFilter, pageSize: int, at: seq<nat>, visits: seq<AuditRead>)
    requires |ops| + 1 < TWO_63 && ReadDuring(h, ops, tenant, at, visits) && FollowsTokens(f, pageSize, visits)
    ensures Descending(SeqOf, Later, Shown(visits))
    ensures multiset(Shown(visits)) == multiset(Selected(f, ChainAfter(h, ops, tenant, at[0])))
  {
    hide Numbered, ChainAfter, IsAuditPage, Selected, Descending, Shown;
    forall i | 0 <= i < |visits| ensures Numbered(visits[i].chain) && visits[0].chain <= visits[i].chain {
      ChainAfterGrows(h, ops, tenant, at[0], at[i]);
    }
    assert FollowsGrowing(f, pageSize, visits);
    GrowingListing(f, pageSize, visits);
  }
}
