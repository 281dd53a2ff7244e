/** The in-memory analytics store (server/data-plane/ingest/writer.go): filtering,
    newest-first keyset pages with an opaque cursor, and the retention purge. */
module EventStore {
  import opened Bytes
  import opened EventCodec
  import opened Paging
  import opened Sorting

  datatype Query = Query(
    tenantId: Str, appId: Str, eventTypes: seq<int>, riskLevels: seq<int>, policyHash: Str, from: int, to: int)

  /** An empty or zero field of a query selects everything. */
  predicate Matches(q: Query, e: StoredEvent) {
    && (q.tenantId == [] || e.tenantId == q.tenantId)
    && (q.appId == [] || e.appId == q.appId)
    && (q.policyHash == [] || e.policyHash == q.policyHash)
    && (q.from == 0 || q.from <= e.timeBucket) && (q.to == 0 || e.timeBucket <= q.to)
    && (q.eventTypes == [] || e.eventType as int in q.eventTypes)
    && (q.riskLevels == [] || e.riskLevel as int in q.riskLevels)
  }

  function Matching(q: Query, s: seq<StoredEvent>): seq<StoredEvent> {
    Filter(e => Matches(q, e), s)
  }

  // ---- Keys and cursors ----

  datatype Key = Key(bucket: int, id: Str)

  function KeyOf(e: StoredEvent): Key {
    Key(e.timeBucket, e.id)
  }

  /** The key order of a page: later bucket first, then greater id. */
  predicate Newer(a: Key, b: Key) {
    if a.bucket != b.bucket then b.bucket < a.bucket else LexLess(b.id, a.id)
  }

  lemma {:induction false} NewerIsKeyOrder()
    ensures KeyOrder(Newer)
  {
    forall a: Key ensures !Newer(a, a) {
      LexIrreflexive(a.id);
    }
    forall a, b, c | Newer(a, b) && Newer(b, c) ensures Newer(a, c) {
      if a.bucket == b.bucket == c.bucket {
        LexTransitive(c.id, b.id, a.id);
      }
    }
    forall a: Key, b: Key ensures a == b || Newer(a, b) || Newer(b, a) {
      LexTotal(a.id, b.id);
    }
  }

  const COLON: Byte := 58

  /** A cursor, before base64: the bucket in decimal, a colon, and the id. */
  function EncodeCursor(k: Key): Str {
    FormatInt(k.bucket) + [COLON] + k.id
  }

  datatype Cursor = NoCursor | At(key: Key) | BadCursor

  /** strings.SplitN(raw, ":", 2) at the first colon. */
  function IndexColon(s: Str): (i: nat)
    ensures i <= |s| && (i < |s| ==> s[i] == COLON) && forall j :: 0 <= j < i ==> s[j] != COLON
  {
    if s == [] || s[0] == COLON then 0 else 1 + IndexColon(s[1..])
  }

  function DecodeCursor(raw: Str): Cursor {
    if raw == [] then NoCursor
    else
      var i := IndexColon(raw);
      if i == |raw| then BadCursor
      else
        match ParseInt(raw[..i])
        case None => BadCursor
        case Some(bucket) => At(Key(bucket, raw[i + 1..]))
  }

  /** Every key a page can end with comes back from its cursor, whatever bytes (colons
      included) the id is made of. */
  lemma {:induction false} CursorRoundTrip(k: Key)
    requires -TWO_63 <= k.bucket < TWO_63
    ensures DecodeCursor(EncodeCursor(k)) == At(k)
  {
    ParseFormat(k.bucket);
    var f, raw := FormatInt(k.bucket), EncodeCursor(k);
    assert raw[|f|] == COLON;
    var i := IndexColon(raw);
    assert forall j :: 0 <= j < |f| ==> raw[j] == f[j];
    assert i == |f|;
    assert raw[..i] == f && raw[i + 1..] == k.id;
  }

  function Position(c: Cursor): Option<Key> {
    if c.At? then Some(c.key) else None
  }

  datatype Page = Page(events: seq<StoredEvent>, nextCursor: Str)
  datatype PageResult = Listed(page: Page) | InvalidCursor

  /** What a listing promises: a bad cursor is refused, and otherwise the page is the
      newest matching events past the cursor, with a cursor that decodes to the last
      one exactly when matching events remain. */
  ghost predicate IsListing(events: seq<StoredEvent>, q: Query, limit: int, cursor: Str, r: PageResult) {
    var c := DecodeCursor(cursor);
    if c.BadCursor? then r == InvalidCursor
    else
      && r.Listed? && (r.page.nextCursor == [] || DecodeCursor(r.page.nextCursor).At?)
      && IsPage(KeyOf, Newer, Matching(q, events), Position(c), ClampPageSize(limit), r.page.events,
           Position(DecodeCursor(r.page.nextCursor)))
  }

  predicate NewerEvent(x: StoredEvent, y: StoredEvent) {
    Newer(KeyOf(x), KeyOf(y))
  }

  lemma {:induction false} NewerEventStrict()
    ensures StrictOrder(NewerEvent)
  {
    NewerIsKeyOrder();
    assert KeyOrder(Newer);
  }

  class InMemoryAnalyticsStore {
    var events: seq<StoredEvent>

    constructor ()
      ensures events == []
    {
      events := [];
    }

    method Write(batch: seq<StoredEvent>)
      modifies this
      ensures events == old(events) + batch
    {
      events := events + batch;
    }

    method Select(q: Query) returns (out: seq<StoredEvent>)
      ensures out == Matching(q, events)
    {
      out := [];
      var i := 0;
      var p := e => Matches(q, e);
      while i < |events|
        invariant 0 <= i <= |events| && out == Filter(p, events[..i])
      {
        FilterStep(p, events, i);
        if Matches(q, events[i]) {
          out := out + [events[i]];
        }
        i := i + 1;
      }
      assert events[..|events|] == events;
    }

    method ListEvents(q: Query, limit: int, cursor: Str) returns (r: PageResult)
      ensures IsListing(events, q, limit, cursor, r)
    {
      var n := ClampPageSize(limit);
      var c := DecodeCursor(cursor);
      if c.BadCursor? {
        return InvalidCursor;
      }
      var all := Select(q);
      var out := SortNewestFirst(all);
      var start := 0;
      if c.At? {
        while start < |out| && !Newer(c.key, KeyOf(out[start]))
          invariant 0 <= start <= |out|
          invariant forall i :: 0 <= i < start ==> !Newer(c.key, KeyOf(out[i]))
        {
          start := start + 1;
        }
      }
      NewerIsKeyOrder();
      CutIsPage(KeyOf, Newer, all, out, Position(c), n, start);
      if |out| - start > n {
        var last := out[start + n - 1];
        CursorRoundTrip(KeyOf(last));
        r := Listed(Page(out[start..start + n], EncodeCursor(KeyOf(last))));
      } else {
        r := Listed(Page(out[start..], []));
      }
    }

    /** Removes one tenant's events older than the cutoff; when the context is found
        done at one of its checks (every 1024 events) the store is left as it was. */
    method PurgeOlderThan(tenant: Str, cutoff: int, doneAt: nat -> bool) returns (purged: nat, cancelled: bool)
      modifies this
      ensures cancelled <==> exists i :: 0 <= i < |old(events)| && i % 1024 == 0 && doneAt(i)
      ensures cancelled ==> events == old(events)
      ensures cancelled ==> exists i ::
        && 0 <= i < |old(events)| && FirstDone(doneAt, i)
        && purged == i - |Filter(e => !Stale(tenant, cutoff, e), old(events)[..i])|
      ensures !cancelled ==>
        events == Filter(e => !Stale(tenant, cutoff, e), old(events)) && purged == |old(events)| - |events|
    {
      var kept := [];
      purged := 0;
      var keep := e => !Stale(tenant, cutoff, e);
      var i := 0;
      while i < |events|
        invariant 0 <= i <= |events| && events == old(events)
        invariant kept == Filter(keep, events[..i]) && purged == i - |kept|
        invariant forall j :: 0 <= j < i && j % 1024 == 0 ==> !doneAt(j)
      {
        if i % 1024 == 0 && doneAt(i) {
          assert FirstDone(doneAt, i);
          return purged, true;
        }
        FilterStep(keep, events, i);
        if events[i].tenantId == tenant && events[i].timeBucket < cutoff {
          purged := purged + 1;
        } else {
          kept := kept + [events[i]];
        }
        i := i + 1;
      }
      assert events[..|events|] == events;
      events := kept;
      cancelled := false;
    }
  }

  /** The first check, every 1024 events, that finds the context done. */
  ghost predicate FirstDone(doneAt: nat -> bool, i: nat) {
    i % 1024 == 0 && doneAt(i) && forall j :: 0 <= j < i && j % 1024 == 0 ==> !doneAt(j)
  }

  predicate Stale(tenant: Str, cutoff: int, e: StoredEvent) {
    e.tenantId == tenant && e.timeBucket < cutoff
  }

  method SortNewestFirst(all: seq<StoredEvent>) returns (out: seq<StoredEvent>)
    ensures multiset(out) == multiset(all) && Ordered(KeyOf, Newer, out)
  {
    out := Sort(NewerEvent, all);
    NewerEventStrict();
    SortSorts(NewerEvent, all);
  }

  // ---- Listing page by page while the store changes ----

  /** One page of a listing: the store as it was then, and what came back. */
  datatype Read = Read(events: seq<StoredEvent>, page: Page)

  function CursorBefore(visits: seq<Read>, i: nat): Str
    requires i <= |visits|
  {
    if i == 0 then [] else visits[i - 1].page.nextCursor
  }

  /** A caller that follows the cursor from the first page. The store may hold anything
      at each page: writes and purges in between are unrestricted. */
  ghost predicate Follows(q: Query, limit: int, visits: seq<Read>) {
    && (forall i :: 0 <= i < |visits| ==>
           IsListing(visits[i].events, q, limit, CursorBefore(visits, i), Listed(visits[i].page)))
    && (forall i :: 0 <= i < |visits| - 1 ==> visits[i].page.nextCursor != [])
  }

  function VisitOf(q: Query, r: Read): Visit<StoredEvent, Key> {
    Visit(Matching(q, r.events), r.page.events, Position(DecodeCursor(r.page.nextCursor)))
  }

  function Visits(q: Query, visits: seq<Read>): seq<Visit<StoredEvent, Key>> {
    seq(|visits|, i requires 0 <= i < |visits| => VisitOf(q, visits[i]))
  }

  /** Everything shown, page after page. */
  function Shown(visits: seq<Read>): seq<StoredEvent> {
    if visits == [] then [] else Shown(visits[..|visits| - 1]) + visits[|visits| - 1].page.events
  }

  lemma {:induction false} ListingIsVisit(q: Query, limit: int, visits: seq<Read>, i: nat)
    requires Follows(q, limit, visits) && i < |visits|
    ensures var v := VisitOf(q, visits[i]);
      && IsPage(KeyOf, Newer, v.all, Position(DecodeCursor(CursorBefore(visits, i))), ClampPageSize(limit), v.page,
           v.next)
      && (v.next.Some? <==> visits[i].page.nextCursor != [])
  {
    hide IsPage, DecodeCursor, Matching;
    NoCursorAtStart();
    assert IsListing(visits[i].events, q, limit, CursorBefore(visits, i), Listed(visits[i].page));
  }

  lemma {:induction false} CursorsAgree(q: Query, visits: seq<Read>, i: nat)
    requires i < |visits|
    ensures Position(DecodeCursor(CursorBefore(visits, i))) == CursorAt(Visits(q, visits), i)
  {
    hide DecodeCursor, Matching;
    NoCursorAtStart();
  }

  lemma {:induction false} FollowsIsWalk(q: Query, limit: int, visits: seq<Read>)
    requires Follows(q, limit, visits)
    ensures IsWalk(KeyOf, Newer, ClampPageSize(limit), Visits(q, visits))
    ensures forall i :: 0 <= i < |visits| ==> (Visits(q, visits)[i].next.Some? <==> visits[i].page.nextCursor != [])
  {
    hide IsPage, IsListing, DecodeCursor, Matching, ClampPageSize, CursorBefore;
    var walk := Visits(q, visits);
    assert |walk| == |visits|;
    forall i | 0 <= i < |visits|
      ensures IsPage(KeyOf, Newer, walk[i].all, CursorAt(walk, i), ClampPageSize(limit), walk[i].page, walk[i].next)
      ensures walk[i].next.Some? <==> visits[i].page.nextCursor != []
    {
      ListingIsVisit(q, limit, visits, i);
      CursorsAgree(q, visits, i);
      assert walk[i] == VisitOf(q, visits[i]);
    }
    forall i | 0 <= i < |walk| - 1 ensures walk[i].next.Some? {
      assert visits[i].page.nextCursor != [];
    }
  }

  lemma {:induction false} AllButLastCut(q: Query, limit: int, visits: seq<Read>)
    requires Follows(q, limit, visits)
    ensures forall i :: 0 <= i < |visits| - 1 ==> visits[i].page.nextCursor != []
  {
    hide IsListing;
  }

  lemma {:induction false} NoCursorAtStart()
    ensures DecodeCursor([]) == NoCursor
  {
  }

  lemma {:induction false} ShownIsSeen(q: Query, visits: seq<Read>)
    ensures Shown(visits) == Seen(Visits(q, visits))
    decreases |visits|
  {
    hide Matching, DecodeCursor;
    if visits == [] {
    } else {
      var last := |visits| - 1;
      ShownIsSeen(q, visits[..last]);
      assert Visits(q, visits)[..last] == Visits(q, visits[..last]);
    }
  }

  lemma {:induction false} MatchingUnique(q: Query, s: seq<StoredEvent>)
    requires UniqueKeys(KeyOf, s)
    ensures UniqueKeys(KeyOf, Matching(q, s))
  {
    FilterUnique(KeyOf, e => Matches(q, e), s);
  }

  /** Whatever is written or purged between pages, the listing never shows a key twice
      and never goes back to a newer one. */
  lemma {:induction false} ListingDescends(q: Query, limit: int, visits: seq<Read>)
    requires Follows(q, limit, visits) && forall i :: 0 <= i < |visits| ==> UniqueKeys(KeyOf, visits[i].events)
    ensures Descending(KeyOf, Newer, Shown(visits))
  {
    hide Follows, UniqueKeys, IsWalk, KeyOrder, Descending;
    FollowsIsWalk(q, limit, visits);
    ShownIsSeen(q, visits);
    NewerIsKeyOrder();
    var walk := Visits(q, visits);
    forall i | 0 <= i < |walk| ensures UniqueKeys(KeyOf, walk[i].all) {
      MatchingUnique(q, visits[i].events);
    }
    WalkDescends(KeyOf, Newer, ClampPageSize(limit), walk);
  }

  /** A matching event that was in the store at every page of a finished listing was
      shown, as long as equal keys mean equal events: the same event may be stored any
      number of times, as redelivery does. */
  lemma {:induction false} ListingComplete(q: Query, limit: int, visits: seq<Read>, e: StoredEvent)
    requires Follows(q, limit, visits) && |visits| > 0 && visits[|visits| - 1].page.nextCursor == [] && Matches(q, e)
    requires forall i :: 0 <= i < |visits| ==>
      KeysIdentify(KeyOf, Matching(q, visits[i].events)) && e in visits[i].events
    ensures e in Shown(visits)
  {
    hide Follows, KeysIdentify, IsWalk, KeyOrder, Matches;
    FollowsIsWalk(q, limit, visits);
    ShownIsSeen(q, visits);
    NewerIsKeyOrder();
    NoCursorAtStart();
    var walk := Visits(q, visits);
    forall i | 0 <= i < |walk| ensures KeysIdentify(KeyOf, walk[i].all) && e in walk[i].all {
      assert walk[i].all == Matching(q, visits[i].events);
      FilterIn(x => Matches(q, x), visits[i].events, e);
    }
    FinishedWalkShowsAll(KeyOf, Newer, ClampPageSize(limit), walk, e);
  }

  /** Some page was cut at the event's key before the event was shown. */
  ghost predicate TiedOut(visits: seq<Read>, e: StoredEvent, i: nat) {
    i < |visits| && DecodeCursor(visits[i].page.nextCursor) == At(KeyOf(e)) && e !in Shown(visits[..i + 1])
  }

  /** Without unique keys, a finished listing misses a matching event that was in the
      store at every page if and only if a page was cut at the event's own key before
      the event was shown. */
  lemma {:induction false} ListingMissesOnlyTies(q: Query, limit: int, visits: seq<Read>, e: StoredEvent)
    requires Follows(q, limit, visits) && |visits| > 0 && visits[|visits| - 1].page.nextCursor == [] && Matches(q, e)
    requires forall i :: 0 <= i < |visits| ==> e in visits[i].events
    ensures e !in Shown(visits) <==> exists i :: TiedOut(visits, e, i)
  {
    hide Follows, UniqueKeys, IsWalk, KeyOrder, Matches, DecodeCursor, Shown, Seen;
    FollowsIsWalk(q, limit, visits);
    ShownIsSeen(q, visits);
    NewerIsKeyOrder();
    var walk := Visits(q, visits);
    forall i | 0 <= i < |walk| ensures e in walk[i].all {
      FilterIn(x => Matches(q, x), visits[i].events, e);
    }
    MissedExactly(KeyOf, Newer, ClampPageSize(limit), walk, e);
    if exists i :: CutOff(KeyOf, walk, e, i) {
      var i :| CutOff(KeyOf, walk, e, i);
      CutOffIsTiedOut(q, visits, e, i);
      assert TiedOut(visits, e, i);
    }
    if exists i :: TiedOut(visits, e, i) {
      var i :| TiedOut(visits, e, i);
      CutOffIsTiedOut(q, visits, e, i);
      assert CutOff(KeyOf, walk, e, i);
    }
  }

  lemma {:induction false} CutOffIsTiedOut(q: Query, visits: seq<Read>, e: StoredEvent, i: nat)
    ensures CutOff(KeyOf, Visits(q, visits), e, i) <==> TiedOut(visits, e, i)
  {
    hide DecodeCursor, Shown, Seen, Matching;
    if i < |visits| {
      ShownIsSeen(q, visits[..i + 1]);
      assert Visits(q, visits)[..i + 1] == Visits(q, visits[..i + 1]);
    }
  }

  // ---- Listing a store that does not change ----

  /** The caller followed the cursors over one and the same store. */
  ghost predicate FollowsOver(q: Query, limit: int, visits: seq<Read>, events: seq<StoredEvent>) {
    Follows(q, limit, visits) && |visits| > 0 && forall i :: 0 <= i < |visits| ==> visits[i].events == events
  }

  predicate Finished(visits: seq<Read>) {
    |visits| > 0 && visits[|visits| - 1].page.nextCursor == []
  }

  lemma {:induction false} OverIsWalk(q: Query, limit: int, visits: seq<Read>, events: seq<StoredEvent>)
    requires FollowsOver(q, limit, visits, events)
    ensures var walk := Visits(q, visits);
      && IsWalk(KeyOf, Newer, ClampPageSize(limit), walk) && Over(walk, Matching(q, events)) && |walk| > 0
      && (walk[|walk| - 1].next.None? <==> Finished(visits))
      && (!Finished(visits) ==> forall i :: 0 <= i < |walk| ==> walk[i].next.Some?)
  {
    hide Follows, IsWalk, Matching, IsListing, DecodeCursor, ClampPageSize;
    FollowsIsWalk(q, limit, visits);
    AllButLastCut(q, limit, visits);
    var walk := Visits(q, visits);
    forall i | 0 <= i < |walk| ensures walk[i].all == Matching(q, events) {
      assert walk[i] == VisitOf(q, visits[i]);
    }
  }

  /** Over a store that does not change the listing ends, after at most one page per
      matching event. Where equal keys mean equal matching events it has then shown every
      one of them, none more often than it is stored, newest first; with unique keys,
      exactly the matching events. */
  lemma {:induction false} QuietListing(q: Query, limit: int, visits: seq<Read>, events: seq<StoredEvent>)
    requires FollowsOver(q, limit, visits, events)
    ensures !Finished(visits) ==> |visits| <= |Matching(q, events)|
    ensures Finished(visits) && KeysIdentify(KeyOf, Matching(q, events)) ==>
      && Ordered(KeyOf, Newer, Shown(visits)) && multiset(Shown(visits)) <= multiset(Matching(q, events))
      && forall e :: e in Shown(visits) <==> e in Matching(q, events)
    ensures Finished(visits) && UniqueKeys(KeyOf, Matching(q, events)) ==>
      Descending(KeyOf, Newer, Shown(visits)) && multiset(Shown(visits)) == multiset(Matching(q, events))
  {
    hide Follows, IsWalk, KeyOrder, Matching, Descending, Ordered, Shown, Seen, ClampPageSize, KeysIdentify, Over;
    OverIsWalk(q, limit, visits, events);
    ShownIsSeen(q, visits);
    NewerIsKeyOrder();
    var walk, all := Visits(q, visits), Matching(q, events);
    if UniqueKeys(KeyOf, all) {
      UniqueIdentify(KeyOf, all);
    }
    hide UniqueKeys;
    if !Finished(visits) {
      WalkLength(KeyOf, Newer, ClampPageSize(limit), walk, all);
    } else if KeysIdentify(KeyOf, all) {
      QuietWalk(KeyOf, Newer, ClampPageSize(limit), walk, all);
    }
  }

  // ---- A listing to the end exists ----

  function CursorOf(next: Option<Key>): Str {
    match next
    case None => []
    case Some(k) => EncodeCursor(k)
  }

  function ReadOf(events: seq<StoredEvent>, v: Visit<StoredEvent, Key>): Read {
    Read(events, Page(v.page, CursorOf(v.next)))
  }

  function ReadsOf(events: seq<StoredEvent>, walk: seq<Visit<StoredEvent, Key>>): (visits: seq<Read>)
    ensures |visits| == |walk| && forall i :: 0 <= i < |walk| ==> visits[i] == ReadOf(events, walk[i])
  {
    seq(|walk|, i requires 0 <= i < |walk| => ReadOf(events, walk[i]))
  }

  lemma {:induction false} NextComesBack(
    all: seq<StoredEvent>, cursor: Option<Key>, limit: nat, page: seq<StoredEvent>, next: Option<Key>)
    requires IsPage(KeyOf, Newer, all, cursor, limit, page, next)
    ensures Position(DecodeCursor(CursorOf(next))) == next && !DecodeCursor(CursorOf(next)).BadCursor?
    ensures CursorOf(next) == [] <==> next.None?
  {
    hide DecodeCursor;
    if next.Some? {
      CutPage(KeyOf, Newer, all, cursor, limit, page, next);
      CursorRoundTrip(KeyOf(page[limit - 1]));
    } else {
      NoCursorAtStart();
    }
  }

  lemma {:induction false} WalkIsListing(
    q: Query, limit: int, events: seq<StoredEvent>, walk: seq<Visit<StoredEvent, Key>>, i: nat)
    requires IsWalk(KeyOf, Newer, ClampPageSize(limit), walk) && Over(walk, Matching(q, events)) && i < |walk|
    ensures var visits := ReadsOf(events, walk);
      && IsListing(events, q, limit, CursorBefore(visits, i), Listed(visits[i].page))
      && (visits[i].page.nextCursor == [] <==> walk[i].next.None?)
  {
    hide IsPage, DecodeCursor, Matching, IsWalk;
    var n := ClampPageSize(limit);
    WalkAt(KeyOf, Newer, n, walk, i);
    NextComesBack(walk[i].all, CursorAt(walk, i), n, walk[i].page, walk[i].next);
    if i == 0 {
      NoCursorAtStart();
    } else {
      WalkAt(KeyOf, Newer, n, walk, i - 1);
      NextComesBack(walk[i - 1].all, CursorAt(walk, i - 1), n, walk[i - 1].page, walk[i - 1].next);
    }
  }

  lemma {:induction false} WalkIsFollowed(
    q: Query, limit: int, events: seq<StoredEvent>, walk: seq<Visit<StoredEvent, Key>>)
    requires IsWalk(KeyOf, Newer, ClampPageSize(limit), walk) && Over(walk, Matching(q, events))
    ensures Follows(q, limit, ReadsOf(events, walk))
  {
    hide Matching, IsWalk, IsListing, CursorBefore, ReadOf;
    var visits := ReadsOf(events, walk);
    forall i | 0 <= i < |visits|
      ensures IsListing(visits[i].events, q, limit, CursorBefore(visits, i), Listed(visits[i].page))
      ensures i < |visits| - 1 ==> visits[i].page.nextCursor != []
    {
      WalkIsListing(q, limit, events, walk, i);
      NotLastCut(walk, q, limit, i);
      ReadOfStore(events, walk[i]);
    }
  }

  lemma {:induction false} ReadOfStore(events: seq<StoredEvent>, v: Visit<StoredEvent, Key>)
    ensures ReadOf(events, v).events == events
  {
  }

  lemma {:induction false} SortedMatches(all: seq<StoredEvent>) returns (out: seq<StoredEvent>)
    ensures multiset(out) == multiset(all) && Ordered(KeyOf, Newer, out)
  {
    out := Sort(NewerEvent, all);
    NewerEventStrict();
    SortSorts(NewerEvent, all);
  }

  lemma {:induction false} ListingExists(q: Query, limit: int, events: seq<StoredEvent>) returns (visits: seq<Read>)
    ensures FollowsOver(q, limit, visits, events) && Finished(visits)
  {
    hide Matching, IsWalk, IsListing, KeyOrder, Ordered, Over, Follows, ReadOf;
    var all := Matching(q, events);
    var out := SortedMatches(all);
    NewerIsKeyOrder();
    var walk := WalkExists(KeyOf, Newer, all, out, ClampPageSize(limit));
    visits := ReadsOf(events, walk);
    WalkIsFollowed(q, limit, events, walk);
    WalkIsListing(q, limit, events, walk, |walk| - 1);
    forall i | 0 <= i < |visits| ensures visits[i].events == events {
      ReadOfStore(events, walk[i]);
    }
  }

  lemma {:induction false} NotLastCut(walk: seq<Visit<StoredEvent, Key>>, q: Query, limit: int, i: nat)
    requires IsWalk(KeyOf, Newer, ClampPageSize(limit), walk) && i < |walk|
    ensures i < |walk| - 1 ==> walk[i].next.Some?
  {
    hide IsPage;
  }

  /** Every matching event of the store is shown, at every page size, to every caller
      that follows the cursors to the end. */
  ghost predicate AlwaysComplete(q: Query, events: seq<StoredEvent>) {
    forall limit: int, visits: seq<Read> :: FollowsOver(q, limit, visits, events) && Finished(visits) ==>
      forall e :: e in Matching(q, events) ==> e in Shown(visits)
  }

  /** Over an unchanged store listings are complete, whatever the page size, if and only
      if equal keys mean equal matching events; one event per page is enough to tell. */
  lemma {:induction false} ListingExact(q: Query, events: seq<StoredEvent>)
    ensures AlwaysComplete(q, events) <==> KeysIdentify(KeyOf, Matching(q, events))
  {
    hide FollowsOver, Matching, Shown, KeysIdentify, Finished;
    if KeysIdentify(KeyOf, Matching(q, events)) {
      forall limit: int, visits: seq<Read> | FollowsOver(q, limit, visits, events) && Finished(visits)
        ensures forall e :: e in Matching(q, events) ==> e in Shown(visits)
      {
        QuietListing(q, limit, visits, events);
      }
    } else {
      var visits := ListingExists(q, 1, events);
      OnePerPage(q, visits, events);
      assert FollowsOver(q, 1, visits, events) && Finished(visits);
    }
  }

  /** A finished listing of one event per page shows every matching event if and only if
      equal keys mean equal matching events. */
  lemma {:induction false} OnePerPage(q: Query, visits: seq<Read>, events: seq<StoredEvent>)
    requires FollowsOver(q, 1, visits, events) && Finished(visits)
    ensures (forall e :: e in Matching(q, events) ==> e in Shown(visits)) <==> KeysIdentify(KeyOf, Matching(q, events))
  {
    hide Matching, Shown, KeysIdentify, IsWalk, KeyOrder, FollowsOver, Over;
    OverIsWalk(q, 1, visits, events);
    ShownIsSeen(q, visits);
    NewerIsKeyOrder();
    OnePerPageExact(KeyOf, Newer, Visits(q, visits), Matching(q, events));
  }

  // ---- Two events with one key ----

  /** Two tenants' events of one bucket that were given the same id. */
  const FIRST: StoredEvent :=
    StoredEvent(Ascii("e1"), Ascii("acme"), Ascii("app"), 1, 1, 0, 1, 1, [], [], [], 7, Ascii("DE"), 1, 100)
  const SECOND: StoredEvent := FIRST.(tenantId := Ascii("zenith"))
  const EVERYTHING: Query := Query([], [], [], [], [], 0, 0)

  /** Listed one per page, the store of these two shows one of them and never the other. */
  lemma {:induction false} TieLosesAnEvent(visits: seq<Read>)
    requires FollowsOver(EVERYTHING, 1, visits, [FIRST, SECOND]) && Finished(visits)
    ensures !(FIRST in Shown(visits) && SECOND in Shown(visits))
  {
    var all := [FIRST, SECOND];
    BothMatch();
    OnePerPage(EVERYTHING, visits, all);
    assert |FIRST.tenantId| != |SECOND.tenantId|;
    assert FIRST in all && SECOND in all && KeyOf(FIRST) == KeyOf(SECOND) && FIRST != SECOND;
  }

  lemma {:induction false} BothMatch()
    ensures Matching(EVERYTHING, [FIRST, SECOND]) == [FIRST, SECOND]
  {
    FilterAll((e: StoredEvent) => Matches(EVERYTHING, e), [FIRST, SECOND]);
  }
}
