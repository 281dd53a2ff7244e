/** Paging through a tenant's audit chain, newest first, while it grows (ListAudit in
    server/control-plane/compliance/mem.go). */
module AuditListing {
  import opened Bytes
  import opened AuditChain
  import opened Paging

  datatype AuditFilter = AuditFilter(action: Str, resourceType: Str, fromMillis: int, toMillis: int)

  predicate Selects(f: AuditFilter, ev: AuditEvent) {
    && (f.action == [] || ev.entry.action == f.action)
    && (f.resourceType == [] || ev.entry.resourceType == f.resourceType)
    && (f.fromMillis <= 0 || f.fromMillis <= ev.createdAt)
    && (f.toMillis <= 0 || ev.createdAt <= f.toMillis)
  }

  function Selected(f: AuditFilter, chain: seq<AuditEvent>): seq<AuditEvent> {
    Filter(ev => Selects(f, ev), chain)
  }

  function SeqOf(ev: AuditEvent): int {
    ev.seq_
  }

  predicate Later(a: int, b: int) {
    a > b
  }

  /** Events carry their position, from one. */
  predicate Numbered(chain: seq<AuditEvent>) {
    forall i :: 0 <= i < |chain| ==> chain[i].seq_ == i + 1
  }

  lemma {:induction false} IntactIsNumbered(h: Digest, tenant: Str, chain: seq<AuditEvent>)
    requires ChainIntact(h, tenant, chain)
    ensures Numbered(chain)
  {
    hide HashAuditEvent;
    forall i | 0 <= i < |chain| ensures chain[i].seq_ == i + 1 {
      assert EventIntact(h, tenant, chain, i);
    }
  }

  datatype Token = Start | Below(seq_: int) | BadToken

  /** A token is the sequence number to read strictly below; a negative one reads from
      the start. */
  function ReadToken(token: Str): Token {
    if token == [] then Start
    else
      match ParseInt(token)
      case None => BadToken
      case Some(v) => if v >= 0 then Below(v) else Start
  }

  function Bound(t: Token): Option<int> {
    if t.Below? then Some(t.seq_) else None
  }

  /** The chosen events of a chain, newest first. */
  function Newest(p: AuditEvent -> bool, chain: seq<AuditEvent>): seq<AuditEvent> {
    if chain == [] then []
    else
      var last := |chain| - 1;
      (if p(chain[last]) then [chain[last]] else []) + Newest(p, chain[..last])
  }

  lemma {:induction false} NewestCounts(p: AuditEvent -> bool, chain: seq<AuditEvent>)
    ensures multiset(Newest(p, chain)) == multiset(Filter(p, chain))
    decreases |chain|
  {
    if chain == [] {
    } else {
      NewestCounts(p, chain[..|chain| - 1]);
    }
  }

  lemma {:induction false} NewestFrom(p: AuditEvent -> bool, chain: seq<AuditEvent>, ev: AuditEvent)
    requires ev in Newest(p, chain)
    ensures ev in chain && p(ev)
  {
    NewestCounts(p, chain);
    assert ev in multiset(Filter(p, chain));
    FilterIn(p, chain, ev);
  }

  lemma {:induction false} NewestOrdered(p: AuditEvent -> bool, chain: seq<AuditEvent>)
    requires Numbered(chain)
    ensures Ordered(SeqOf, Later, Newest(p, chain))
    decreases |chain|
  {
    if chain == [] {
    } else {
      var last := |chain| - 1;
      NewestOrdered(p, chain[..last]);
      var rest := Newest(p, chain[..last]);
      forall i | 0 <= i < |rest| ensures rest[i].seq_ <= last {
        NewestFrom(p, chain[..last], rest[i]);
      }
    }
  }

  lemma {:induction false} NumberedUnique(f: AuditFilter, chain: seq<AuditEvent>)
    requires Numbered(chain)
    ensures UniqueKeys(SeqOf, Selected(f, chain))
  {
    FilterUnique(SeqOf, ev => Selects(f, ev), chain);
  }

  lemma {:induction false} LaterIsKeyOrder()
    ensures KeyOrder(Later)
  {
  }

  /** Filtering by a stronger condition keeps the count of what meets it. */
  lemma {:induction false} FilterCount(
    p: AuditEvent -> bool, r: AuditEvent -> bool, chain: seq<AuditEvent>, ev: AuditEvent)
    requires p(ev) == r(ev)
    ensures multiset(Filter(p, chain))[ev] == multiset(Filter(r, chain))[ev]
    decreases |chain|
  {
    if chain == [] {
    } else {
      FilterCount(p, r, chain[..|chain| - 1], ev);
    }
  }

  predicate Chosen(f: AuditFilter, bound: Option<int>, ev: AuditEvent) {
    Past(Later, bound, ev.seq_) && Selects(f, ev)
  }

  /** Cutting the chosen events, newest first, at the page size makes a page of the
      selected ones. */
  lemma {:induction false} NewestIsPage(f: AuditFilter, chain: seq<AuditEvent>, bound: Option<int>, size: nat)
    requires Numbered(chain) && size > 0
    ensures var all := Newest(ev => Chosen(f, bound, ev), chain);
      if |all| > size
      then IsPage(SeqOf, Later, Selected(f, chain), bound, size, all[..size], Some(all[size - 1].seq_))
      else IsPage(SeqOf, Later, Selected(f, chain), bound, size, all, None)
  {
    hide IsPage, Selects, KeyOrder;
    var p := ev => Chosen(f, bound, ev);
    var all := Newest(p, chain);
    NewestOrdered(p, chain);
    LaterIsKeyOrder();
    if all != [] {
      NewestFrom(p, chain, all[0]);
    }
    CutIsPage(SeqOf, Later, all, all, bound, size, 0);
    forall ev | Past(Later, bound, SeqOf(ev)) ensures multiset(all)[ev] == multiset(Selected(f, chain))[ev] {
      NewestCounts(p, chain);
      FilterCount(p, e => Selects(f, e), chain, ev);
    }
    if |all| > size {
      assert all[0..0 + size] == all[..size];
      PageLocal(SeqOf, Later, all, Selected(f, chain), bound, size, all[..size], Some(all[size - 1].seq_));
    } else {
      assert all[0..] == all;
      PageLocal(SeqOf, Later, all, Selected(f, chain), bound, size, all, None);
    }
  }

  // ---- Pages while the chain grows ----

  datatype AuditPage = AuditPage(events: seq<AuditEvent>, next: Str)

  ghost predicate IsAuditPage(chain: seq<AuditEvent>, f: AuditFilter, pageSize: int, token: Str, page: AuditPage) {
    && !ReadToken(token).BadToken? && (page.next == [] || ReadToken(page.next).Below?)
    && IsPage(SeqOf, Later, Selected(f, chain), Bound(ReadToken(token)), ClampPageSize(pageSize), page.events,
         Bound(ReadToken(page.next)))
  }

  /** One page and the chain as it was then. */
  datatype AuditRead = AuditRead(chain: seq<AuditEvent>, page: AuditPage)

  function TokenBefore(visits: seq<AuditRead>, i: nat): Str
    requires i <= |visits|
  {
    if i == 0 then [] else visits[i - 1].page.next
  }

  /** A caller that follows the tokens to the last page while events are appended. */
  ghost predicate FollowsGrowing(f: AuditFilter, pageSize: int, visits: seq<AuditRead>) {
    && |visits| > 0
    && (forall i :: 0 <= i < |visits| ==> Numbered(visits[i].chain) && visits[0].chain <= visits[i].chain)
    && (forall i :: 0 <= i < |visits| ==>
           IsAuditPage(visits[i].chain, f, pageSize, TokenBefore(visits, i), visits[i].page))
    && (forall i :: 0 <= i < |visits| ==> (visits[i].page.next == [] <==> i == |visits| - 1))
  }

  function Shown(visits: seq<AuditRead>): seq<AuditEvent> {
    if visits == [] then [] else Shown(visits[..|visits| - 1]) + visits[|visits| - 1].page.events
  }

  /** The visit as if the chain had not grown since the first page. */
  function VisitOf(f: AuditFilter, first: seq<AuditEvent>, r: AuditRead): Visit<AuditEvent, int> {
    Visit(Selected(f, first), r.page.events, Bound(ReadToken(r.page.next)))
  }

  function Visits(f: AuditFilter, first: seq<AuditEvent>, visits: seq<AuditRead>): seq<Visit<AuditEvent, int>> {
    seq(|visits|, i requires 0 <= i < |visits| => VisitOf(f, first, visits[i]))
  }

  lemma {:induction false} SelectedPrefix(
    f: AuditFilter, first: seq<AuditEvent>, chain: seq<AuditEvent>, ev: AuditEvent)
    requires Numbered(chain) && first <= chain && ev.seq_ <= |first|
    ensures multiset(Selected(f, first))[ev] == multiset(Selected(f, chain))[ev]
    decreases |chain|
  {
    if |first| < |chain| {
      var last := |chain| - 1;
      SelectedPrefix(f, first, chain[..last], ev);
      assert chain[last].seq_ == |chain|;
    } else {
      assert first == chain;
    }
  }

  /** Below a bound inside the first chain, the grown chain has the same pages. */
  lemma {:induction false} PageOfFirst(
    f: AuditFilter, first: seq<AuditEvent>, chain: seq<AuditEvent>, bound: int, size: nat, page: seq<AuditEvent>,
    next: Option<int>)
    requires Numbered(chain) && first <= chain && bound <= |first| + 1
    requires IsPage(SeqOf, Later, Selected(f, chain), Some(bound), size, page, next)
    ensures IsPage(SeqOf, Later, Selected(f, first), Some(bound), size, page, next)
  {
    hide IsPage, Selected, Numbered;
    forall ev | Past(Later, Some(bound), SeqOf(ev))
      ensures multiset(Selected(f, chain))[ev] == multiset(Selected(f, first))[ev]
    {
      SelectedPrefix(f, first, chain, ev);
    }
    PageLocal(SeqOf, Later, Selected(f, chain), Selected(f, first), Some(bound), size, page, next);
  }

  /** A page of the first chain ends inside it. */
  lemma {:induction false} NextInside(
    f: AuditFilter, first: seq<AuditEvent>, cursor: Option<int>, size: nat, page: seq<AuditEvent>, next: Option<int>)
    requires Numbered(first) && IsPage(SeqOf, Later, Selected(f, first), cursor, size, page, next) && next.Some?
    ensures next.value <= |first|
  {
    hide Selects;
    CutPage(SeqOf, Later, Selected(f, first), cursor, size, page, next);
    var ev := page[size - 1];
    FilterIn(e => Selects(f, e), first, ev);
  }

  lemma {:induction false} VisitIsPage(f: AuditFilter, pageSize: int, visits: seq<AuditRead>, i: nat)
    requires FollowsGrowing(f, pageSize, visits) && i < |visits|
    ensures var v := VisitOf(f, visits[0].chain, visits[i]);
      IsPage(SeqOf, Later, v.all, Bound(ReadToken(TokenBefore(visits, i))), ClampPageSize(pageSize), v.page, v.next)
    decreases i
  {
    hide IsPage, Selected, ReadToken, Numbered, ClampPageSize;
    var first := visits[0].chain;
    assert IsAuditPage(visits[i].chain, f, pageSize, TokenBefore(visits, i), visits[i].page);
    if i == 0 {
    } else {
      VisitIsPage(f, pageSize, visits, i - 1);
      assert IsAuditPage(visits[i - 1].chain, f, pageSize, TokenBefore(visits, i - 1), visits[i - 1].page);
      var t := ReadToken(visits[i - 1].page.next);
      assert t.Below?;
      NextInside(f, first, Bound(ReadToken(TokenBefore(visits, i - 1))), ClampPageSize(pageSize),
        visits[i - 1].page.events, Bound(t));
      PageOfFirst(f, first, visits[i].chain, t.seq_, ClampPageSize(pageSize), visits[i].page.events,
        Bound(ReadToken(visits[i].page.next)));
    }
  }

  lemma {:induction false} GrowingIsWalk(f: AuditFilter, pageSize: int, visits: seq<AuditRead>)
    requires FollowsGrowing(f, pageSize, visits)
    ensures IsWalk(SeqOf, Later, ClampPageSize(pageSize), Visits(f, visits[0].chain, visits))
    ensures Visits(f, visits[0].chain, visits)[|visits| - 1].next.None?
  {
    hide IsPage, Selected, ReadToken, ClampPageSize, IsAuditPage, Numbered;
    var walk := Visits(f, visits[0].chain, visits);
    forall i | 0 <= i < |visits|
      ensures IsPage(SeqOf, Later, walk[i].all, CursorAt(walk, i), ClampPageSize(pageSize), walk[i].page, walk[i].next)
      ensures walk[i].next.Some? <==> i < |visits| - 1
    {
      VisitIsPage(f, pageSize, visits, i);
      TokensAgree(f, visits[0].chain, visits, i);
      TokenUnlessLast(f, pageSize, visits, i);
    }
  }

  lemma {:induction false} TokensAgree(f: AuditFilter, first: seq<AuditEvent>, visits: seq<AuditRead>, i: nat)
    requires i < |visits|
    ensures Bound(ReadToken(TokenBefore(visits, i))) == CursorAt(Visits(f, first, visits), i)
    ensures Visits(f, first, visits)[i] == VisitOf(f, first, visits[i])
  {
    hide Selected, ReadToken;
    EmptyToken();
  }

  lemma {:induction false} TokenUnlessLast(f: AuditFilter, pageSize: int, visits: seq<AuditRead>, i: nat)
    requires FollowsGrowing(f, pageSize, visits) && i < |visits|
    ensures Bound(ReadToken(visits[i].page.next)).Some? <==> i < |visits| - 1
  {
    hide IsPage, Selected, Numbered, ReadToken;
    EmptyToken();
    assert IsAuditPage(visits[i].chain, f, pageSize, TokenBefore(visits, i), visits[i].page);
  }

  lemma {:induction false} EmptyToken()
    ensures ReadToken([]) == Start
  {
  }

  lemma {:induction false} ShownIsSeen(f: AuditFilter, first: seq<AuditEvent>, visits: seq<AuditRead>)
    ensures Shown(visits) == Seen(Visits(f, first, visits))
    decreases |visits|
  {
    hide Selected, ReadToken;
    if visits == [] {
    } else {
      var last := |visits| - 1;
      ShownIsSeen(f, first, visits[..last]);
      assert Visits(f, first, visits)[..last] == Visits(f, first, visits[..last]);
    }
  }

  /** Whatever is appended meanwhile, a caller that follows the tokens to the end is
      shown exactly the matching events that were in the chain at the first page, once
      each and newest first. */
  lemma {:induction false} GrowingListing(f: AuditFilter, pageSize: int, visits: seq<AuditRead>)
    requires FollowsGrowing(f, pageSize, visits)
    ensures Descending(SeqOf, Later, Shown(visits))
    ensures multiset(Shown(visits)) == multiset(Selected(f, visits[0].chain))
  {
    hide IsWalk, Selected, ClampPageSize, Descending, UniqueKeys, KeyOrder, Shown, Seen, IsAuditPage, ReadToken;
    var first := visits[0].chain;
    var walk := Visits(f, first, visits);
    GrowingIsWalk(f, pageSize, visits);
    ShownIsSeen(f, first, visits);
    LaterIsKeyOrder();
    NumberedUnique(f, first);
    QuietWalk(SeqOf, Later, ClampPageSize(pageSize), walk, Selected(f, first));
  }
}
