/** Keyset pagination, newest first, over a collection that may change between pages.
    A page is cut from the matching items past the cursor; the next cursor is the key
    of the page's last item, present exactly when items were cut off. */
module Paging {
  import opened Bytes

  ghost predicate KeyOrder<K(!new)>(newer: (K, K) -> bool) {
    && (forall a :: !newer(a, a))
    && (forall a, b, c :: newer(a, b) && newer(b, c) ==> newer(a, c))
    && (forall a, b :: a == b || newer(a, b) || newer(b, a))
  }

  predicate Past<K>(newer: (K, K) -> bool, cursor: Option<K>, k: K) {
    cursor.None? || newer(cursor.value, k)
  }

  ghost predicate UniqueKeys<T, K>(key: T -> K, s: seq<T>) {
    forall i, j :: 0 <= i < j < |s| ==> key(s[i]) != key(s[j])
  }

  ghost predicate Ordered<T, K>(key: T -> K, newer: (K, K) -> bool, s: seq<T>) {
    forall i, j :: 0 <= i < j < |s| ==> !newer(key(s[j]), key(s[i]))
  }

  ghost predicate Descending<T, K>(key: T -> K, newer: (K, K) -> bool, s: seq<T>) {
    forall i, j :: 0 <= i < j < |s| ==> newer(key(s[i]), key(s[j]))
  }

  /** Some matching item past the cursor did not make it onto the page. */
  ghost predicate MoreRemains<T(!new), K>(
    key: T -> K, newer: (K, K) -> bool, all: seq<T>, cursor: Option<K>, page: seq<T>)
  {
    exists x :: x in all && Past(newer, cursor, key(x)) && multiset(page)[x] < multiset(all)[x]
  }

  /** What one page promises about the matching items `all`. */
  ghost predicate IsPage<T(!new), K>(key: T -> K, newer: (K, K) -> bool, all: seq<T>, cursor: Option<K>, limit: nat,
                                     page: seq<T>, next: Option<K>) {
    && Ordered(key, newer, page)
    && multiset(page) <= multiset(all)
    && (forall x :: x in page ==> Past(newer, cursor, key(x)))
    && (forall x :: x in all && Past(newer, cursor, key(x)) && (next.None? || newer(key(x), next.value)) ==>
          multiset(page)[x] == multiset(all)[x])
    && |page| <= limit
    && (next.Some? ==>
          |page| == limit > 0 && key(page[limit - 1]) == next.value && MoreRemains(key, newer, all, cursor, page))
  }

  /** The page size a request gets: 50 unless it asks for one, and at most 500. */
  function ClampPageSize(n: int): (r: nat)
    ensures 1 <= r <= 500 && (n <= 0 ==> r == 50) && (1 <= n <= 500 ==> r == n) && (n > 500 ==> r == 500)
  {
    if n <= 0 then 50 else if n > 500 then 500 else n
  }

  // ---- Filtering ----

  function Filter<T>(p: T -> bool, s: seq<T>): seq<T> {
    if s == [] then []
    else Filter(p, s[..|s| - 1]) + if p(s[|s| - 1]) then [s[|s| - 1]] else []
  }

  lemma {:induction false} FilterStep<T>(p: T -> bool, s: seq<T>, i: nat)
    requires i < |s|
    ensures Filter(p, s[..i + 1]) == Filter(p, s[..i]) + if p(s[i]) then [s[i]] else []
  {
    assert s[..i + 1][..i] == s[..i];
  }

  lemma {:induction false} FilterIn<T>(p: T -> bool, s: seq<T>, x: T)
    ensures x in Filter(p, s) <==> x in s && p(x)
    decreases |s|
  {
    if s == [] {
    } else {
      FilterIn(p, s[..|s| - 1], x);
      assert s == s[..|s| - 1] + [s[|s| - 1]];
    }
  }

  lemma {:induction false} FilterConcat<T>(p: T -> bool, a: seq<T>, b: seq<T>)
    ensures Filter(p, a + b) == Filter(p, a) + Filter(p, b)
    decreases |b|
  {
    if b == [] {
      assert a + b == a;
    } else {
      var last := |b| - 1;
      FilterConcat(p, a, b[..last]);
      assert (a + b)[..|a| + last] == a + b[..last];
    }
  }

  lemma {:induction false} FilterAll<T>(p: T -> bool, s: seq<T>)
    requires forall i :: 0 <= i < |s| ==> p(s[i])
    ensures Filter(p, s) == s
    decreases |s|
  {
    if s == [] {
    } else {
      FilterAll(p, s[..|s| - 1]);
    }
  }

  lemma {:induction false} FilterNone<T>(p: T -> bool, s: seq<T>)
    requires forall i :: 0 <= i < |s| ==> !p(s[i])
    ensures Filter(p, s) == []
    decreases |s|
  {
    if s == [] {
    } else {
      FilterNone(p, s[..|s| - 1]);
    }
  }

  lemma {:induction false} FilterUnique<T, K>(key: T -> K, p: T -> bool, s: seq<T>)
    requires UniqueKeys(key, s)
    ensures UniqueKeys(key, Filter(p, s))
    decreases |s|
  {
    if s == [] {
    } else {
      var last := |s| - 1;
      FilterUnique(key, p, s[..last]);
      var f := Filter(p, s[..last]);
      forall i | 0 <= i < |f| ensures key(f[i]) != key(s[last]) {
        FilterIn(p, s[..last], f[i]);
        assert f[i] in f;
        var j :| 0 <= j < last && s[..last][j] == f[i];
        assert s[j] == f[i];
      }
    }
  }

  // ---- One page ----

  /** Everything from `start` on is past the cursor, and nothing before it is. */
  ghost predicate StartsAt<T, K>(key: T -> K, newer: (K, K) -> bool, out: seq<T>, cursor: Option<K>, start: nat) {
    && start <= |out|
    && (forall i :: 0 <= i < start ==> !Past(newer, cursor, key(out[i])))
    && (start < |out| ==> Past(newer, cursor, key(out[start])))
  }

  lemma {:induction false} AllPast<T, K(!new)>(
    key: T -> K, newer: (K, K) -> bool, out: seq<T>, cursor: Option<K>, start: nat, i: nat)
    requires KeyOrder(newer) && StartsAt(key, newer, out, cursor, start) && start <= i < |out|
    requires Ordered(key, newer, out)
    ensures Past(newer, cursor, key(out[i]))
  {
    if start < i {
      assert !newer(key(out[i]), key(out[start]));
    }
  }

  lemma {:induction false} CountIn<T>(out: seq<T>, a: nat, b: nat, x: T)
    requires a <= b <= |out| && x !in out[..a] && x !in out[b..]
    ensures multiset(out[a..b])[x] == multiset(out)[x]
  {
    assert out == out[..a] + out[a..b] + out[b..];
    assert x !in multiset(out[..a]) && x !in multiset(out[b..]);
  }

  lemma {:induction false} SliceWithin<T>(out: seq<T>, a: nat, b: nat)
    requires a <= b <= |out|
    ensures multiset(out[a..b]) <= multiset(out)
    ensures b < |out| ==> multiset(out[a..b])[out[b]] < multiset(out)[out[b]]
  {
    assert out == out[..a] + out[a..b] + out[b..];
    if b < |out| {
      assert out[b..] == [out[b]] + out[b + 1..];
    }
  }

  /** Cutting the sorted items past the cursor at the limit makes a page. */
  lemma {:induction false} CutIsPage<T(!new), K(!new)>(
    key: T -> K, newer: (K, K) -> bool, all: seq<T>, out: seq<T>, cursor: Option<K>, limit: nat, start: nat)
    requires KeyOrder(newer) && limit > 0 && multiset(out) == multiset(all) && StartsAt(key, newer, out, cursor, start)
    requires Ordered(key, newer, out)
    ensures |out| - start > limit ==>
      IsPage(key, newer, all, cursor, limit, out[start..start + limit], Some(key(out[start + limit - 1])))
    ensures |out| - start <= limit ==> IsPage(key, newer, all, cursor, limit, out[start..], None)
  {
    hide KeyOrder, Ordered, IsPage;
    if |out| - start > limit {
      SliceIsPage(key, newer, all, out, cursor, limit, start, start + limit);
    } else {
      SliceIsPage(key, newer, all, out, cursor, limit, start, |out|);
      assert out[start..] == out[start..|out|];
    }
  }

  lemma {:induction false} SliceIsPage<T(!new), K(!new)>(
    key: T -> K, newer: (K, K) -> bool, all: seq<T>, out: seq<T>, cursor: Option<K>, limit: nat, start: nat, end: nat)
    requires KeyOrder(newer) && limit > 0 && multiset(out) == multiset(all) && StartsAt(key, newer, out, cursor, start)
    requires Ordered(key, newer, out)
    requires start <= end <= |out| && end - start <= limit && (end < |out| ==> end == start + limit)
    ensures IsPage(key, newer, all, cursor, limit, out[start..end],
      if end < |out| then Some(key(out[end - 1])) else None)
  {
    hide KeyOrder, Ordered, StartsAt;
    var page, next := out[start..end], if end < |out| then Some(key(out[end - 1])) else None;
    SliceWithin(out, start, end);
    forall x | x in page ensures Past(newer, cursor, key(x)) {
      var i :| 0 <= i < |page| && page[i] == x;
      AllPast(key, newer, out, cursor, start, start + i);
    }
    forall x | x in all && Past(newer, cursor, key(x)) && (next.None? || newer(key(x), next.value))
      ensures multiset(page)[x] == multiset(all)[x]
    {
      NotCut(key, newer, out, start, end, x, cursor);
      CountIn(out, start, end, x);
    }
    if end < |out| {
      AllPast(key, newer, out, cursor, start, end);
      assert out[end] in multiset(all);
      assert MoreRemains(key, newer, all, cursor, page);
    }
    OrderedSlice(key, newer, out, start, end);
  }

  lemma {:induction false} OrderedSlice<T, K>(key: T -> K, newer: (K, K) -> bool, out: seq<T>, start: nat, end: nat)
    requires Ordered(key, newer, out) && start <= end <= |out|
    ensures Ordered(key, newer, out[start..end])
  {
  }

  lemma {:induction false} NotCut<T, K(!new)>(
    key: T -> K, newer: (K, K) -> bool, out: seq<T>, start: nat, end: nat, x: T, cursor: Option<K>)
    requires start <= end <= |out| && StartsAt(key, newer, out, cursor, start) && Past(newer, cursor, key(x))
    requires Ordered(key, newer, out)
    requires end < |out| ==> start < end && newer(key(x), key(out[end - 1]))
    ensures x !in out[..start] && x !in out[end..]
  {
    forall i | end <= i < |out| ensures out[i] != x {
      assert !newer(key(out[i]), key(out[end - 1]));
    }
  }

  /** A page depends only on the items past its cursor. */
  lemma {:induction false} PageLocal<T(!new), K>(
    key: T -> K, newer: (K, K) -> bool, all: seq<T>, other: seq<T>, cursor: Option<K>, limit: nat, page: seq<T>,
    next: Option<K>)
    requires IsPage(key, newer, all, cursor, limit, page, next)
    requires forall x :: Past(newer, cursor, key(x)) ==> multiset(all)[x] == multiset(other)[x]
    ensures IsPage(key, newer, other, cursor, limit, page, next)
  {
    hide Ordered;
    forall x | x in multiset(page) ensures multiset(page)[x] <= multiset(other)[x] {
      assert x in page;
    }
    forall x | x in other && Past(newer, cursor, key(x)) ensures x in all {
      assert x in multiset(other);
      assert x in multiset(all);
    }
    if next.Some? {
      var x :| x in all && Past(newer, cursor, key(x)) && multiset(page)[x] < multiset(all)[x];
      assert x in multiset(all);
      assert x in multiset(other);
      assert x in other;
      assert MoreRemains(key, newer, other, cursor, page);
    }
  }

  // ---- Walks ----

  /** The pages of one walk, each read from the collection as it was at that moment. */
  datatype Visit<T, K> = Visit(all: seq<T>, page: seq<T>, next: Option<K>)

  function CursorAt<T, K>(walk: seq<Visit<T, K>>, i: nat): Option<K>
    requires i <= |walk|
  {
    if i == 0 then None else walk[i - 1].next
  }

  ghost predicate IsWalk<T(!new), K>(key: T -> K, newer: (K, K) -> bool, limit: nat, walk: seq<Visit<T, K>>) {
    && (forall i :: 0 <= i < |walk| ==>
           IsPage(key, newer, walk[i].all, CursorAt(walk, i), limit, walk[i].page, walk[i].next))
    && (forall i :: 0 <= i < |walk| - 1 ==> walk[i].next.Some?)
  }

  function Seen<T, K>(walk: seq<Visit<T, K>>): seq<T> {
    if walk == [] then [] else Seen(walk[..|walk| - 1]) + walk[|walk| - 1].page
  }

  lemma {:induction false} WalkPrefix<T(!new), K>(
    key: T -> K, newer: (K, K) -> bool, limit: nat, walk: seq<Visit<T, K>>)
    requires IsWalk(key, newer, limit, walk) && |walk| > 0
    ensures IsWalk(key, newer, limit, walk[..|walk| - 1])
    ensures IsPage(key, newer, walk[|walk| - 1].all, CursorAt(walk, |walk| - 1), limit, walk[|walk| - 1].page,
      walk[|walk| - 1].next)
    ensures |walk| > 1 ==> CursorAt(walk, |walk| - 1).Some?
  {
    hide IsPage;
    var front := walk[..|walk| - 1];
    forall i | 0 <= i < |front|
      ensures IsPage(key, newer, front[i].all, CursorAt(front, i), limit, front[i].page, front[i].next)
    {
      assert front[i] == walk[i] && CursorAt(front, i) == CursorAt(walk, i);
    }
  }

  lemma {:induction false} PageDescends<T(!new), K(!new)>(
    key: T -> K, newer: (K, K) -> bool, all: seq<T>, cursor: Option<K>, limit: nat, page: seq<T>, next: Option<K>)
    requires KeyOrder(newer) && IsPage(key, newer, all, cursor, limit, page, next) && UniqueKeys(key, all)
    ensures Descending(key, newer, page)
  {
    forall i, j | 0 <= i < j < |page| ensures newer(key(page[i]), key(page[j])) {
      if key(page[i]) == key(page[j]) {
        TwiceInPage(key, all, page, i, j);
      }
    }
  }

  lemma {:induction false} TwiceInPage<T, K>(key: T -> K, all: seq<T>, page: seq<T>, i: nat, j: nat)
    requires UniqueKeys(key, all) && multiset(page) <= multiset(all) && i < j < |page|
    ensures key(page[i]) != key(page[j])
  {
    var x, y := page[i], page[j];
    assert x in multiset(page) && y in multiset(page);
    if key(x) == key(y) {
      SameKeySame(key, all, x, y);
      TwoAt(page, i, j);
      OnceEach(key, all, x);
    }
  }

  lemma {:induction false} SameKeySame<T, K>(key: T -> K, all: seq<T>, x: T, y: T)
    requires UniqueKeys(key, all) && x in multiset(all) && y in multiset(all) && key(x) == key(y)
    ensures x == y
  {
    var i :| 0 <= i < |all| && all[i] == x;
    var j :| 0 <= j < |all| && all[j] == y;
  }

  lemma {:induction false} TwoAt<T>(s: seq<T>, i: nat, j: nat)
    requires i < j < |s| && s[i] == s[j]
    ensures multiset(s)[s[i]] >= 2
  {
    assert s == s[..j] + [s[j]] + s[j + 1..];
    assert s[i] == s[..j][i];
    assert s[i] in multiset(s[..j]);
  }

  lemma {:induction false} OnceEach<T, K>(key: T -> K, all: seq<T>, x: T)
    requires UniqueKeys(key, all)
    ensures multiset(all)[x] <= 1
  {
    if all == [] {
    } else {
      var last := |all| - 1;
      assert all == all[..last] + [all[last]];
      OnceEach(key, all[..last], x);
      assert all[last] !in all[..last];
    }
  }

  /** A page that was cut lies before everything past its next cursor, and its next
      cursor lies past its own. */
  lemma {:induction false} PageBefore<T(!new), K(!new)>(
    key: T -> K, newer: (K, K) -> bool, all: seq<T>, cursor: Option<K>, limit: nat, page: seq<T>, next: Option<K>, k: K)
    requires KeyOrder(newer) && IsPage(key, newer, all, cursor, limit, page, next) && next.Some? && newer(next.value, k)
    ensures forall x :: x in page ==> newer(key(x), k)
    ensures |page| == limit > 0 && Past(newer, cursor, next.value) && Past(newer, cursor, k)
  {
    forall x | x in page ensures newer(key(x), k) {
      var i :| 0 <= i < |page| && page[i] == x;
      assert !newer(next.value, key(x));
    }
    assert page[limit - 1] in page;
  }

  /** Everything seen lies at or before the cursor the walk ended with. */
  lemma {:induction false} SeenBefore<T(!new), K(!new)>(
    key: T -> K, newer: (K, K) -> bool, limit: nat, walk: seq<Visit<T, K>>, k: K)
    requires KeyOrder(newer) && IsWalk(key, newer, limit, walk) && |walk| > 0
    requires walk[|walk| - 1].next.Some? && newer(walk[|walk| - 1].next.value, k)
    ensures forall x :: x in Seen(walk) ==> newer(key(x), k)
    decreases |walk|
  {
    hide IsPage, KeyOrder, IsWalk;
    var last := |walk| - 1;
    WalkPrefix(key, newer, limit, walk);
    PageBefore(key, newer, walk[last].all, CursorAt(walk, last), limit, walk[last].page, walk[last].next, k);
    if last == 0 {
    } else {
      SeenBefore(key, newer, limit, walk[..last], k);
    }
  }

  /** No key is shown twice, and keys only descend, whatever happened between pages. */
  lemma {:induction false} WalkDescends<T(!new), K(!new)>(
    key: T -> K, newer: (K, K) -> bool, limit: nat, walk: seq<Visit<T, K>>)
    requires KeyOrder(newer) && IsWalk(key, newer, limit, walk)
    requires forall i :: 0 <= i < |walk| ==> UniqueKeys(key, walk[i].all)
    ensures Descending(key, newer, Seen(walk))
    decreases |walk|
  {
    hide IsPage, KeyOrder, IsWalk, UniqueKeys, Descending;
    if walk == [] {
      NothingDescends(key, newer);
    } else {
      var last := |walk| - 1;
      var front, v := walk[..last], walk[last];
      WalkPrefix(key, newer, limit, walk);
      WalkDescends(key, newer, limit, front);
      PageDescends(key, newer, v.all, CursorAt(walk, last), limit, v.page, v.next);
      forall x, j | x in Seen(front) && 0 <= j < |v.page| ensures newer(key(x), key(v.page[j])) {
        PageIsPast(key, newer, v.all, CursorAt(walk, last), limit, v.page, v.next, j);
        SeenBefore(key, newer, limit, front, key(v.page[j]));
      }
      DescendingJoin(key, newer, Seen(front), v.page);
    }
  }

  lemma {:induction false} NothingDescends<T, K>(key: T -> K, newer: (K, K) -> bool)
    ensures Descending(key, newer, [])
  {
  }

  lemma {:induction false} DescendingJoin<T, K>(key: T -> K, newer: (K, K) -> bool, s: seq<T>, t: seq<T>)
    requires Descending(key, newer, s) && Descending(key, newer, t)
    requires forall x, j :: x in s && 0 <= j < |t| ==> newer(key(x), key(t[j]))
    ensures Descending(key, newer, s + t)
  {
    forall i, j | 0 <= i < j < |s + t| ensures newer(key((s + t)[i]), key((s + t)[j])) {
      if i < |s| <= j {
        assert s[i] in s;
      }
    }
  }

  lemma {:induction false} PageIsPast<T(!new), K>(
    key: T -> K, newer: (K, K) -> bool, all: seq<T>, cursor: Option<K>, limit: nat, page: seq<T>, next: Option<K>,
    i: nat)
    requires IsPage(key, newer, all, cursor, limit, page, next) && i < |page|
    ensures Past(newer, cursor, key(page[i]))
  {
    assert page[i] in page;
  }

  /** Some page was cut at this very key. */
  ghost predicate CutAt<T, K>(walk: seq<Visit<T, K>>, k: K) {
    exists i :: 0 <= i < |walk| && walk[i].next == Some(k)
  }

  /** The key lies past the cursor the walk has reached. */
  ghost predicate ToCome<T, K>(newer: (K, K) -> bool, walk: seq<Visit<T, K>>, k: K) {
    walk == [] || (walk[|walk| - 1].next.Some? && newer(walk[|walk| - 1].next.value, k))
  }

  lemma {:induction false} CutStays<T, K>(walk: seq<Visit<T, K>>, n: nat, k: K)
    requires n <= |walk| && CutAt(walk[..n], k)
    ensures CutAt(walk, k)
  {
    var i :| 0 <= i < n && walk[..n][i].next == Some(k);
    assert walk[i].next == Some(k);
  }

  lemma {:induction false} CutHere<T, K>(walk: seq<Visit<T, K>>, n: nat, k: K)
    requires n < |walk| && walk[n].next == Some(k)
    ensures CutAt(walk, k)
  {
  }

  /** An item that was there for every page has been shown, is still to come, or has
      the very key at which some page was cut. */
  lemma {:induction false} NothingSkipped<T(!new), K(!new)>(
    key: T -> K, newer: (K, K) -> bool, limit: nat, walk: seq<Visit<T, K>>, x: T)
    requires KeyOrder(newer) && IsWalk(key, newer, limit, walk)
    requires forall i :: 0 <= i < |walk| ==> x in walk[i].all
    ensures x in Seen(walk) || ToCome(newer, walk, key(x)) || CutAt(walk, key(x))
    decreases |walk|
  {
    hide IsPage, KeyOrder, IsWalk, CutAt;
    if walk == [] {
    } else {
      var last := |walk| - 1;
      var v := walk[last];
      WalkPrefix(key, newer, limit, walk);
      NothingSkipped(key, newer, limit, walk[..last], x);
      if CutAt(walk[..last], key(x)) {
        CutStays(walk, last, key(x));
      } else if x !in Seen(walk[..last]) {
        assert Past(newer, CursorAt(walk, last), key(x));
        PageTakes(key, newer, v.all, CursorAt(walk, last), limit, v.page, v.next, x);
        if v.next == Some(key(x)) {
          CutHere(walk, last, key(x));
        }
      }
    }
  }

  lemma {:induction false} PageTakes<T(!new), K(!new)>(
    key: T -> K, newer: (K, K) -> bool, all: seq<T>, cursor: Option<K>, limit: nat, page: seq<T>, next: Option<K>, x: T)
    requires KeyOrder(newer) && IsPage(key, newer, all, cursor, limit, page, next) && x in all
    requires Past(newer, cursor, key(x))
    ensures x in page || (next.Some? && (newer(next.value, key(x)) || next.value == key(x)))
  {
    if next.None? || newer(key(x), next.value) {
      assert x in multiset(all);
      assert x in multiset(page);
    }
  }

  /** Everything on a page after a cut lies past the cut. */
  lemma {:induction false} LaterPages<T(!new), K(!new)>(
    key: T -> K, newer: (K, K) -> bool, limit: nat, walk: seq<Visit<T, K>>, i: nat, j: nat, k: nat)
    requires KeyOrder(newer) && IsWalk(key, newer, limit, walk) && i < j < |walk| && k < |walk[j].page|
    ensures walk[i].next.Some? && newer(walk[i].next.value, key(walk[j].page[k]))
    decreases j
  {
    hide KeyOrder, IsPage;
    var v := walk[j];
    PageIsPast(key, newer, v.all, CursorAt(walk, j), limit, v.page, v.next, k);
    if i < j - 1 {
      var u := walk[j - 1];
      CutPage(key, newer, u.all, CursorAt(walk, j - 1), limit, u.page, u.next);
      LaterPages(key, newer, limit, walk, i, j - 1, limit - 1);
      NewerTrans(newer, walk[i].next.value, u.next.value, key(v.page[k]));
    }
  }

  lemma {:induction false} NewerTrans<K(!new)>(newer: (K, K) -> bool, a: K, b: K, c: K)
    requires KeyOrder(newer) && newer(a, b) && newer(b, c)
    ensures newer(a, c)
  {
  }

  lemma {:induction false} SeenAt<T, K>(walk: seq<Visit<T, K>>, n: nat, x: T) returns (j: nat, k: nat)
    requires n <= |walk| && x in Seen(walk[..n])
    ensures j < n && k < |walk[j].page| && walk[j].page[k] == x
    decreases n
  {
    var last := n - 1;
    assert walk[..n][..last] == walk[..last];
    if x in walk[last].page {
      j := last;
      k :| 0 <= k < |walk[last].page| && walk[last].page[k] == x;
    } else {
      j, k := SeenAt(walk, last, x);
    }
  }

  /** The page cut at the item's key came before it was shown. */
  ghost predicate CutOff<T, K>(key: T -> K, walk: seq<Visit<T, K>>, x: T, i: nat) {
    i < |walk| && walk[i].next == Some(key(x)) && x !in Seen(walk[..i + 1])
  }

  /** An item cut off at its own key is never shown. */
  lemma {:induction false} CutOffIsSkipped<T(!new), K(!new)>(
    key: T -> K, newer: (K, K) -> bool, limit: nat, walk: seq<Visit<T, K>>, x: T, i: nat)
    requires KeyOrder(newer) && IsWalk(key, newer, limit, walk) && CutOff(key, walk, x, i)
    ensures x !in Seen(walk)
  {
    hide IsWalk, KeyOrder, Seen;
    if x in Seen(walk) {
      assert walk[..|walk|] == walk;
      var j, k := SeenAt(walk, |walk|, x);
      if j <= i {
        SeenHas(walk[..i + 1], j, x);
      } else {
        LaterPages(key, newer, limit, walk, i, j, k);
        Irreflexive(newer, key(x));
      }
    }
  }

  lemma {:induction false} Irreflexive<K(!new)>(newer: (K, K) -> bool, a: K)
    requires KeyOrder(newer)
    ensures !newer(a, a)
  {
  }

  /** Exactly what a finished walk misses of the items present at every page: those cut
      off at their own key. */
  lemma {:induction false} MissedExactly<T(!new), K(!new)>(
    key: T -> K, newer: (K, K) -> bool, limit: nat, walk: seq<Visit<T, K>>, x: T)
    requires KeyOrder(newer) && IsWalk(key, newer, limit, walk) && |walk| > 0 && walk[|walk| - 1].next.None?
    requires forall i :: 0 <= i < |walk| ==> x in walk[i].all
    ensures x !in Seen(walk) <==> exists i :: CutOff(key, walk, x, i)
  {
    hide IsWalk, KeyOrder, Seen, IsPage;
    if exists i :: CutOff(key, walk, x, i) {
      var i :| CutOff(key, walk, x, i);
      CutOffIsSkipped(key, newer, limit, walk, x, i);
    }
    if x !in Seen(walk) {
      NothingSkipped(key, newer, limit, walk, x);
      var i :| 0 <= i < |walk| && walk[i].next == Some(key(x));
      if x in Seen(walk[..i + 1]) {
        var j, k := SeenAt(walk, i + 1, x);
        SeenHas(walk, j, x);
      }
      assert CutOff(key, walk, x, i);
    }
  }

  /** Two items with one key, read one per page: the second is never shown. */
  lemma {:induction false} TieExample<T(!new), K(!new)>(key: T -> K, newer: (K, K) -> bool, x: T, y: T)
    requires KeyOrder(newer) && x != y && key(x) == key(y)
    ensures var walk := [Visit([x, y], [x], Some(key(x))), Visit([x, y], [], None)];
      IsWalk(key, newer, 1, walk) && y in walk[0].all && y in walk[1].all && y !in Seen(walk)
  {
    var v, w := Visit([x, y], [x], Some(key(x))), Visit([x, y], [], None);
    var walk := [v, w];
    Irreflexive(newer, key(x));
    hide KeyOrder;
    TiePages(key, newer, x, y);
    TieSeen(v, w);
    hide IsPage, Seen;
    assert CursorAt(walk, 0) == None && CursorAt(walk, 1) == Some(key(x));
  }

  lemma {:induction false} TiePages<T(!new), K(!new)>(key: T -> K, newer: (K, K) -> bool, x: T, y: T)
    requires !newer(key(x), key(x)) && x != y && key(x) == key(y)
    ensures IsPage(key, newer, [x, y], None, 1, [x], Some(key(x)))
    ensures IsPage(key, newer, [x, y], Some(key(x)), 1, [], None)
  {
    assert multiset([x, y]) == multiset([x]) + multiset{y};
    assert y in [x, y] && multiset([x])[y] < multiset([x, y])[y];
    assert MoreRemains(key, newer, [x, y], None, [x]);
  }

  lemma {:induction false} TieSeen<T, K>(v: Visit<T, K>, w: Visit<T, K>)
    requires w.page == []
    ensures Seen([v, w]) == v.page
  {
    assert [v, w][..1] == [v] && [v][..0] == [];
    assert Seen([v]) == [] + v.page == v.page;
    assert Seen([v, w]) == Seen([v]) + [];
  }

  /** Equal keys mean equal items. An item may still be there several times. */
  ghost predicate KeysIdentify<T, K>(key: T -> K, s: seq<T>) {
    forall x, y :: x in s && y in s && key(x) == key(y) ==> x == y
  }

  lemma {:induction false} UniqueIdentify<T, K>(key: T -> K, s: seq<T>)
    requires UniqueKeys(key, s)
    ensures KeysIdentify(key, s)
  {
    forall x, y | x in s && y in s && key(x) == key(y) ensures x == y {
      SameKeySame(key, s, x, y);
    }
  }

  /** Where equal keys mean equal items nothing is skipped: an item present at every page
      of a finished walk was shown. */
  lemma {:induction false} FinishedWalkShowsAll<T(!new), K(!new)>(
    key: T -> K, newer: (K, K) -> bool, limit: nat, walk: seq<Visit<T, K>>, x: T)
    requires KeyOrder(newer) && IsWalk(key, newer, limit, walk) && |walk| > 0 && walk[|walk| - 1].next.None?
    requires forall i :: 0 <= i < |walk| ==> KeysIdentify(key, walk[i].all) && x in walk[i].all
    ensures x in Seen(walk)
  {
    hide IsPage, KeyOrder;
    NothingSkipped(key, newer, limit, walk, x);
    if CutAt(walk, key(x)) {
      var i :| 0 <= i < |walk| && walk[i].next == Some(key(x));
      var v := walk[i];
      CutPage(key, newer, v.all, CursorAt(walk, i), limit, v.page, v.next);
      var y := v.page[limit - 1];
      assert x in v.all && y in v.all;
      SeenHas(walk, i, y);
    }
  }

  lemma {:induction false} SeenHas<T, K>(walk: seq<Visit<T, K>>, i: nat, x: T)
    requires i < |walk| && x in walk[i].page
    ensures x in Seen(walk)
    decreases |walk|
  {
    if i < |walk| - 1 {
      SeenHas(walk[..|walk| - 1], i, x);
    }
  }

  lemma {:induction false} PageFrom<T(!new), K>(
    key: T -> K, newer: (K, K) -> bool, all: seq<T>, cursor: Option<K>, limit: nat, page: seq<T>, next: Option<K>, x: T)
    requires IsPage(key, newer, all, cursor, limit, page, next) && x in page
    ensures x in all
  {
    assert x in multiset(page);
    assert x in multiset(all);
  }

  lemma {:induction false} SeenFrom<T(!new), K>(
    key: T -> K, newer: (K, K) -> bool, limit: nat, walk: seq<Visit<T, K>>, all: seq<T>, x: T)
    requires IsWalk(key, newer, limit, walk) && x in Seen(walk) && forall i :: 0 <= i < |walk| ==> walk[i].all == all
    ensures x in all
    decreases |walk|
  {
    hide IsPage, IsWalk;
    var last := |walk| - 1;
    WalkPrefix(key, newer, limit, walk);
    if x in walk[last].page {
      PageFrom(key, newer, all, CursorAt(walk, last), limit, walk[last].page, walk[last].next, x);
    } else {
      SeenFrom(key, newer, limit, walk[..last], all, x);
    }
  }

  // ---- Unchanged collections ----

  ghost predicate Over<T, K>(walk: seq<Visit<T, K>>, all: seq<T>) {
    forall i :: 0 <= i < |walk| ==> walk[i].all == all
  }

  /** An item on a page was on no page before it. */
  lemma {:induction false} OnOnePage<T(!new), K(!new)>(
    key: T -> K, newer: (K, K) -> bool, limit: nat, walk: seq<Visit<T, K>>, x: T)
    requires KeyOrder(newer) && IsWalk(key, newer, limit, walk) && |walk| > 0 && x in walk[|walk| - 1].page
    ensures x !in Seen(walk[..|walk| - 1])
  {
    hide IsPage, KeyOrder, IsWalk, Seen;
    var last := |walk| - 1;
    if x in Seen(walk[..last]) {
      var k :| 0 <= k < |walk[last].page| && walk[last].page[k] == x;
      var j, i := SeenAt(walk, last, x);
      LaterPages(key, newer, limit, walk, j, last, k);
      WalkAt(key, newer, limit, walk, j);
      PageEndsAtCut(key, newer, walk[j].all, CursorAt(walk, j), limit, walk[j].page, walk[j].next, i);
    }
  }

  lemma {:induction false} WalkAt<T(!new), K>(
    key: T -> K, newer: (K, K) -> bool, limit: nat, walk: seq<Visit<T, K>>, i: nat)
    requires IsWalk(key, newer, limit, walk) && i < |walk|
    ensures IsPage(key, newer, walk[i].all, CursorAt(walk, i), limit, walk[i].page, walk[i].next)
  {
    hide IsPage;
  }

  lemma {:induction false} PageEndsAtCut<T(!new), K(!new)>(
    key: T -> K, newer: (K, K) -> bool, all: seq<T>, cursor: Option<K>, limit: nat, page: seq<T>, next: Option<K>,
    i: nat)
    requires KeyOrder(newer) && IsPage(key, newer, all, cursor, limit, page, next) && next.Some? && i < |page|
    ensures !newer(next.value, key(page[i]))
  {
    if i == limit - 1 {
      Irreflexive(newer, next.value);
    }
  }

  lemma {:induction false} OverPrefix<T, K>(walk: seq<Visit<T, K>>, all: seq<T>)
    requires Over(walk, all) && walk != []
    ensures Over(walk[..|walk| - 1], all) && walk[|walk| - 1].all == all
  {
  }

  lemma {:induction false} NotInCount<T>(s: seq<T>, x: T)
    ensures x !in s <==> multiset(s)[x] == 0
  {
    assert x in s <==> x in multiset(s);
  }

  /** A walk over an unchanged collection shows nothing more often than it is there. */
  lemma {:induction false} SeenWithin<T(!new), K(!new)>(
    key: T -> K, newer: (K, K) -> bool, limit: nat, walk: seq<Visit<T, K>>, all: seq<T>, x: T)
    requires KeyOrder(newer) && IsWalk(key, newer, limit, walk) && Over(walk, all)
    ensures multiset(Seen(walk))[x] <= multiset(all)[x]
    decreases |walk|
  {
    if walk == [] {
      assert Seen(walk) == [];
    } else {
      hide IsPage, KeyOrder, IsWalk, Seen, Over;
      var last := |walk| - 1;
      var front, v := walk[..last], walk[last];
      OverPrefix(walk, all);
      WalkPrefix(key, newer, limit, walk);
      PageWithin(key, newer, v.all, CursorAt(walk, last), limit, v.page, v.next, x);
      SeenCount(walk, x);
      NotInCount(v.page, x);
      if x in v.page {
        OnOnePage(key, newer, limit, walk, x);
        NotInCount(Seen(front), x);
      } else {
        SeenWithin(key, newer, limit, front, all, x);
      }
    }
  }

  lemma {:induction false} SeenCount<T, K>(walk: seq<Visit<T, K>>, x: T)
    requires walk != []
    ensures multiset(Seen(walk))[x] == multiset(Seen(walk[..|walk| - 1]))[x] + multiset(walk[|walk| - 1].page)[x]
  {
  }

  lemma {:induction false} PageWithin<T(!new), K>(
    key: T -> K, newer: (K, K) -> bool, all: seq<T>, cursor: Option<K>, limit: nat, page: seq<T>, next: Option<K>, x: T)
    requires IsPage(key, newer, all, cursor, limit, page, next)
    ensures multiset(page)[x] <= multiset(all)[x]
  {
  }

  /** Keys never get newer along a walk. */
  lemma {:induction false} WalkOrdered<T(!new), K(!new)>(
    key: T -> K, newer: (K, K) -> bool, limit: nat, walk: seq<Visit<T, K>>)
    requires KeyOrder(newer) && IsWalk(key, newer, limit, walk)
    ensures Ordered(key, newer, Seen(walk))
    decreases |walk|
  {
    if walk == [] {
    } else {
      hide IsPage, KeyOrder, IsWalk;
      var last := |walk| - 1;
      var front, v := walk[..last], walk[last];
      WalkPrefix(key, newer, limit, walk);
      WalkOrdered(key, newer, limit, front);
      PageOrdered(key, newer, v.all, CursorAt(walk, last), limit, v.page, v.next);
      forall x, j | x in Seen(front) && 0 <= j < |v.page| ensures !newer(key(v.page[j]), key(x)) {
        PageIsPast(key, newer, v.all, CursorAt(walk, last), limit, v.page, v.next, j);
        SeenBefore(key, newer, limit, front, key(v.page[j]));
        Asymmetric(newer, key(x), key(v.page[j]));
      }
      OrderedJoin(key, newer, Seen(front), v.page);
    }
  }

  lemma {:induction false} Asymmetric<K(!new)>(newer: (K, K) -> bool, a: K, b: K)
    requires KeyOrder(newer) && newer(a, b)
    ensures !newer(b, a)
  {
  }

  lemma {:induction false} PageOrdered<T(!new), K>(
    key: T -> K, newer: (K, K) -> bool, all: seq<T>, cursor: Option<K>, limit: nat, page: seq<T>, next: Option<K>)
    requires IsPage(key, newer, all, cursor, limit, page, next)
    ensures Ordered(key, newer, page)
  {
  }

  lemma {:induction false} OrderedJoin<T, K>(key: T -> K, newer: (K, K) -> bool, s: seq<T>, t: seq<T>)
    requires Ordered(key, newer, s) && Ordered(key, newer, t)
    requires forall x, j :: x in s && 0 <= j < |t| ==> !newer(key(t[j]), key(x))
    ensures Ordered(key, newer, s + t)
  {
    forall i, j | 0 <= i < j < |s + t| ensures !newer(key((s + t)[j]), key((s + t)[i])) {
      if i < |s| <= j {
        assert s[i] in s;
      }
    }
  }

  /** Over an unchanged collection where equal keys mean equal items, a finished walk
      shows every item, no item more often than it is there, newest first; with unique
      keys it shows exactly the collection. */
  lemma {:induction false} QuietWalk<T(!new), K(!new)>(
    key: T -> K, newer: (K, K) -> bool, limit: nat, walk: seq<Visit<T, K>>, all: seq<T>)
    requires KeyOrder(newer) && IsWalk(key, newer, limit, walk) && |walk| > 0 && walk[|walk| - 1].next.None?
    requires KeysIdentify(key, all) && Over(walk, all)
    ensures Ordered(key, newer, Seen(walk)) && multiset(Seen(walk)) <= multiset(all)
    ensures forall x :: x in Seen(walk) <==> x in all
    ensures UniqueKeys(key, all) ==> Descending(key, newer, Seen(walk)) && multiset(Seen(walk)) == multiset(all)
  {
    hide IsPage, KeyOrder, IsWalk, Seen, Ordered, Descending;
    WalkOrdered(key, newer, limit, walk);
    var s := Seen(walk);
    forall x ensures multiset(s)[x] <= multiset(all)[x] {
      SeenWithin(key, newer, limit, walk, all, x);
    }
    forall x ensures x in s <==> x in all {
      if x in all {
        FinishedWalkShowsAll(key, newer, limit, walk, x);
      } else if x in s {
        SeenFrom(key, newer, limit, walk, all, x);
      }
    }
    if UniqueKeys(key, all) {
      WalkDescends(key, newer, limit, walk);
      hide UniqueKeys;
      forall x ensures multiset(s)[x] == multiset(all)[x] {
        OnceEach(key, all, x);
        assert x in s <==> x in multiset(s);
        assert x in all <==> x in multiset(all);
      }
    }
  }

  /** Such a walk does finish: every page but the last shows `limit` items. */
  lemma {:induction false} WalkLength<T(!new), K(!new)>(
    key: T -> K, newer: (K, K) -> bool, limit: nat, walk: seq<Visit<T, K>>, all: seq<T>)
    requires KeyOrder(newer) && IsWalk(key, newer, limit, walk) && Over(walk, all)
    requires forall i :: 0 <= i < |walk| ==> walk[i].next.Some?
    ensures |walk| <= |Seen(walk)| == |walk| * limit <= |all|
  {
    hide IsPage, KeyOrder, IsWalk, Seen;
    SeenLength(key, newer, limit, walk);
    var s := Seen(walk);
    forall x ensures multiset(s)[x] <= multiset(all)[x] {
      SeenWithin(key, newer, limit, walk, all, x);
    }
    assert multiset(s) <= multiset(all);
    assert |multiset(s)| + |multiset(all) - multiset(s)| == |multiset(all)|;
  }

  /** One item per page tells apart exactly what the keys tell apart: such a finished
      walk shows everything if and only if equal keys mean equal items. */
  lemma {:induction false} OnePerPageExact<T(!new), K(!new)>(
    key: T -> K, newer: (K, K) -> bool, walk: seq<Visit<T, K>>, all: seq<T>)
    requires KeyOrder(newer) && IsWalk(key, newer, 1, walk) && |walk| > 0 && walk[|walk| - 1].next.None?
    requires Over(walk, all)
    ensures (forall x :: x in all ==> x in Seen(walk)) <==> KeysIdentify(key, all)
  {
    hide IsPage, KeyOrder, IsWalk, Seen;
    if KeysIdentify(key, all) {
      forall x | x in all ensures x in Seen(walk) {
        FinishedWalkShowsAll(key, newer, 1, walk, x);
      }
    } else {
      var x, y :| x in all && y in all && key(x) == key(y) && x != y;
      if x in Seen(walk) && y in Seen(walk) {
        OnePerPageSplits(key, newer, walk, x, y);
      }
    }
  }

  lemma {:induction false} OnePerPageSplits<T(!new), K(!new)>(
    key: T -> K, newer: (K, K) -> bool, walk: seq<Visit<T, K>>, x: T, y: T)
    requires KeyOrder(newer) && IsWalk(key, newer, 1, walk) && x in Seen(walk) && y in Seen(walk) && key(x) == key(y)
    ensures x == y
  {
    hide IsPage, KeyOrder, IsWalk, Seen;
    assert walk[..|walk|] == walk;
    var i, a := SeenAt(walk, |walk|, x);
    var j, b := SeenAt(walk, |walk|, y);
    OneOnPage(key, newer, walk, i);
    OneOnPage(key, newer, walk, j);
    if i < j {
      LaterPages(key, newer, 1, walk, i, j, b);
      Irreflexive(newer, key(x));
    } else if j < i {
      LaterPages(key, newer, 1, walk, j, i, a);
      Irreflexive(newer, key(x));
    }
  }

  lemma {:induction false} OneOnPage<T(!new), K(!new)>(
    key: T -> K, newer: (K, K) -> bool, walk: seq<Visit<T, K>>, i: nat)
    requires IsWalk(key, newer, 1, walk) && i < |walk|
    ensures |walk[i].page| <= 1
    ensures (walk[i].next.Some? ==> |walk[i].page| == 1 && walk[i].next.value == key(walk[i].page[0]))
  {
    WalkAt(key, newer, 1, walk, i);
  }

  // ---- A finished walk exists ----

  lemma {:induction false} StartExists<T, K>(key: T -> K, newer: (K, K) -> bool, out: seq<T>, cursor: Option<K>, n: nat)
    returns (start: nat)
    requires n <= |out| && forall i :: 0 <= i < n ==> !Past(newer, cursor, key(out[i]))
    ensures StartsAt(key, newer, out, cursor, start)
    decreases |out| - n
  {
    if n < |out| && !Past(newer, cursor, key(out[n])) {
      start := StartExists(key, newer, out, cursor, n + 1);
    } else {
      start := n;
    }
  }

  lemma {:induction false} PageExists<T(!new), K(!new)>(
    key: T -> K, newer: (K, K) -> bool, all: seq<T>, out: seq<T>, cursor: Option<K>, limit: nat)
    returns (page: seq<T>, next: Option<K>)
    requires KeyOrder(newer) && limit > 0 && multiset(out) == multiset(all) && Ordered(key, newer, out)
    ensures IsPage(key, newer, all, cursor, limit, page, next)
  {
    var start := StartExists(key, newer, out, cursor, 0);
    CutIsPage(key, newer, all, out, cursor, limit, start);
    hide IsPage;
    if |out| - start > limit {
      page, next := out[start..start + limit], Some(key(out[start + limit - 1]));
    } else {
      page, next := out[start..], None;
    }
  }

  lemma {:induction false} WalkOneMore<T(!new), K(!new)>(
    key: T -> K, newer: (K, K) -> bool, limit: nat, walk: seq<Visit<T, K>>, v: Visit<T, K>)
    requires IsWalk(key, newer, limit, walk) && (|walk| > 0 ==> walk[|walk| - 1].next.Some?)
    requires IsPage(key, newer, v.all, CursorAt(walk, |walk|), limit, v.page, v.next)
    ensures IsWalk(key, newer, limit, walk + [v])
  {
    hide IsPage;
    var more := walk + [v];
    forall i | 0 <= i < |more|
      ensures IsPage(key, newer, more[i].all, CursorAt(more, i), limit, more[i].page, more[i].next)
    {
      assert CursorAt(more, i) == CursorAt(walk, i);
    }
  }

  /** From every collection there is a walk to the end, at every limit. */
  lemma {:induction false} WalkExists<T(!new), K(!new)>(
    key: T -> K, newer: (K, K) -> bool, all: seq<T>, out: seq<T>, limit: nat) returns (walk: seq<Visit<T, K>>)
    requires KeyOrder(newer) && limit > 0 && multiset(out) == multiset(all) && Ordered(key, newer, out)
    ensures IsWalk(key, newer, limit, walk) && |walk| > 0 && walk[|walk| - 1].next.None? && Over(walk, all)
  {
    walk := [];
    assert IsWalk(key, newer, limit, walk);
    hide IsPage, KeyOrder, IsWalk, Ordered;
    walk := WalkFrom(key, newer, all, out, limit, walk);
  }

  lemma {:induction false} WalkFrom<T(!new), K(!new)>(
    key: T -> K, newer: (K, K) -> bool, all: seq<T>, out: seq<T>, limit: nat, before: seq<Visit<T, K>>)
    returns (walk: seq<Visit<T, K>>)
    requires KeyOrder(newer) && limit > 0 && multiset(out) == multiset(all) && Ordered(key, newer, out)
    requires IsWalk(key, newer, limit, before) && Over(before, all) && |before| <= |all| &&
      forall i :: 0 <= i < |before| ==> before[i].next.Some?
    ensures IsWalk(key, newer, limit, walk) && |walk| > 0 && walk[|walk| - 1].next.None? && Over(walk, all)
    decreases |all| - |before|
  {
    hide IsPage, KeyOrder, IsWalk, Ordered;
    var page, next := PageExists(key, newer, all, out, CursorAt(before, |before|), limit);
    var v := Visit(all, page, next);
    WalkOneMore(key, newer, limit, before, v);
    walk := before + [v];
    if next.Some? {
      WalkLength(key, newer, limit, walk, all);
      walk := WalkFrom(key, newer, all, out, limit, walk);
    }
  }

  lemma {:induction false} CutPage<T(!new), K(!new)>(
    key: T -> K, newer: (K, K) -> bool, all: seq<T>, cursor: Option<K>, limit: nat, page: seq<T>, next: Option<K>)
    requires IsPage(key, newer, all, cursor, limit, page, next) && next.Some?
    ensures |page| == limit > 0 && page[limit - 1] in multiset(page) && page[limit - 1] in multiset(all)
    ensures key(page[limit - 1]) == next.value
  {
    assert page[limit - 1] in multiset(page);
  }

  lemma {:induction false} SeenLength<T(!new), K(!new)>(
    key: T -> K, newer: (K, K) -> bool, limit: nat, walk: seq<Visit<T, K>>)
    requires IsWalk(key, newer, limit, walk) && forall i :: 0 <= i < |walk| ==> walk[i].next.Some?
    ensures |Seen(walk)| == Times(|walk|, limit) >= |walk|
    decreases |walk|
  {
    if walk == [] {
    } else {
      hide IsPage, IsWalk;
      var last := |walk| - 1;
      WalkPrefix(key, newer, limit, walk);
      SeenLength(key, newer, limit, walk[..last]);
      CutPage(key, newer, walk[last].all, CursorAt(walk, last), limit, walk[last].page, walk[last].next);
    }
  }

  function Times(n: nat, m: nat): (r: nat)
    ensures r == n * m
  {
    if n == 0 then 0 else Times(n - 1, m) + m
  }
}
