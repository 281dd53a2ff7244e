/** The bounded recency lists that hold the cohorts (getOrCreateLocked and Assess in
    server/data-plane/fleet/engine.go): a list with the most recently touched cohort at
    its front, cut to a fixed capacity. */
module FleetLru {
  import opened Bytes

  /** A cohort. */
  datatype Key = Key(tenant: Str, app: Str, build: Str, region: Str)

  function Remove(s: seq<Key>, k: Key): (r: seq<Key>)
    ensures |r| <= |s|
    ensures forall x :: x in r <==> x in s && x != k
  {
    if s == [] then []
    else if s[0] == k then Remove(s[1..], k)
    else [s[0]] + Remove(s[1..], k)
  }

  function Take(s: seq<Key>, n: nat): seq<Key> {
    if |s| <= n then s else s[..n]
  }

  /** Moves `k` to the front, or adds it there and drops what no longer fits. */
  function Touch(lru: seq<Key>, k: Key, cap: nat): seq<Key> {
    Take([k] + Remove(lru, k), cap)
  }

  ghost predicate NoDuplicates(s: seq<Key>) {
    forall i, j :: 0 <= i < j < |s| ==> s[i] != s[j]
  }

  lemma {:induction false} RemoveAbsent(s: seq<Key>, k: Key)
    requires k !in s
    ensures Remove(s, k) == s
  {
    if s == [] {
    } else {
      RemoveAbsent(s[1..], k);
      assert s == [s[0]] + s[1..];
    }
  }

  lemma {:induction false} RemoveConcat(a: seq<Key>, b: seq<Key>, k: Key)
    ensures Remove(a + b, k) == Remove(a, k) + Remove(b, k)
  {
    if a == [] {
      assert a + b == b;
    } else {
      RemoveConcat(a[1..], b, k);
      assert (a + b)[1..] == a[1..] + b && (a + b)[0] == a[0];
      if a[0] != k {
        assert [a[0]] + (Remove(a[1..], k) + Remove(b, k)) == ([a[0]] + Remove(a[1..], k)) + Remove(b, k);
      }
    }
  }

  lemma {:induction false} RemovePresent(s: seq<Key>, k: Key, i: nat)
    requires NoDuplicates(s) && i < |s| && s[i] == k
    ensures Remove(s, k) == s[..i] + s[i + 1..]
  {
    assert s == s[..i] + ([k] + s[i + 1..]);
    RemoveConcat(s[..i], [k] + s[i + 1..], k);
    RemoveAbsent(s[..i], k);
    RemoveConcat([k], s[i + 1..], k);
    RemoveAbsent(s[i + 1..], k);
    assert Remove([k], k) == [] by {
      assert [k][1..] == [];
    }
  }

  lemma {:induction false} RemoveKeepsDistinct(s: seq<Key>, k: Key)
    requires NoDuplicates(s)
    ensures NoDuplicates(Remove(s, k))
  {
    if k in s {
      var i :| 0 <= i < |s| && s[i] == k;
      RemovePresent(s, k, i);
    } else {
      RemoveAbsent(s, k);
    }
  }

  // ---- The list is the recent part of the history ----

  /** The distinct keys of a history of touches, most recently touched first. */
  function Recent(h: seq<Key>): (r: seq<Key>)
    ensures forall k :: k in r <==> k in h
  {
    if h == [] then []
    else
      var last := h[|h| - 1];
      assert h == h[..|h| - 1] + [last];
      [last] + Remove(Recent(h[..|h| - 1]), last)
  }

  lemma {:induction false} RecentDistinct(h: seq<Key>)
    ensures NoDuplicates(Recent(h))
  {
    if h == [] {
    } else {
      RecentDistinct(h[..|h| - 1]);
      RemoveKeepsDistinct(Recent(h[..|h| - 1]), h[|h| - 1]);
      var t := Remove(Recent(h[..|h| - 1]), h[|h| - 1]);
      assert forall j :: 0 <= j < |t| ==> t[j] in t;
    }
  }

  lemma {:induction false} TouchTruncatedAt(s: seq<Key>, k: Key, cap: nat, i: nat)
    requires NoDuplicates(s) && 0 < cap < |s| && i < |s| && s[i] == k
    ensures Touch(s[..cap], k, cap) == Take([k] + Remove(s, k), cap)
  {
    var front := s[..cap];
    RemovePresent(s, k, i);
    if i < cap {
      RemovePresent(front, k, i);
      assert ([k] + (s[..i] + s[i + 1..]))[..cap] == [k] + (front[..i] + front[i + 1..]);
    } else {
      assert forall n :: 0 <= n < cap ==> front[n] == s[n];
      RemoveAbsent(front, k);
      assert ([k] + (s[..i] + s[i + 1..]))[..cap] == ([k] + front)[..cap];
    }
  }

  /** Cutting before or after a touch gives the same list: what was dropped earlier
      never mattered. */
  lemma {:induction false} TouchTruncated(s: seq<Key>, k: Key, cap: nat)
    requires NoDuplicates(s) && cap > 0
    ensures Touch(Take(s, cap), k, cap) == Take([k] + Remove(s, k), cap)
  {
    if |s| > cap {
      if k in s {
        var i :| 0 <= i < |s| && s[i] == k;
        TouchTruncatedAt(s, k, cap, i);
        RemovePresent(s, k, i);
      } else {
        RemoveAbsent(s, k);
        RemoveAbsent(s[..cap], k);
        assert ([k] + s)[..cap] == ([k] + s[..cap])[..cap];
      }
    }
  }

  datatype Op = Get(key: Key) | Peek(key: Key)

  /** One operation: Observe always touches its cohort; Assess only a resident one. */
  function Step(lru: seq<Key>, op: Op, cap: nat): seq<Key> {
    match op
    case Get(k) => Touch(lru, k, cap)
    case Peek(k) => if k in lru then Touch(lru, k, cap) else lru
  }

  lemma {:induction false} StepOk(lru: seq<Key>, op: Op, cap: nat)
    requires NoDuplicates(lru) && |lru| <= cap
    ensures NoDuplicates(Step(lru, op, cap)) && |Step(lru, op, cap)| <= cap
    ensures forall k :: k in Step(lru, op, cap) ==> k in lru || (op.Get? && k == op.key)
    ensures cap > 0 && op.Get? ==> op.key in Step(lru, op, cap)
  {
    var t := Remove(lru, op.key);
    RemoveKeepsDistinct(lru, op.key);
    assert forall j :: 0 <= j < |t| ==> t[j] in t;
    assert forall k :: k in [op.key] + t ==> k == op.key || k in t;
    assert cap > 0 ==> Touch(lru, op.key, cap)[0] == op.key;
  }

  function RunOps(ops: seq<Op>, cap: nat): seq<Key> {
    if ops == [] then [] else Step(RunOps(ops[..|ops| - 1], cap), ops[|ops| - 1], cap)
  }

  /** The touches that took effect along a run. */
  function Touches(ops: seq<Op>, cap: nat): seq<Key> {
    if ops == [] then []
    else
      var op := ops[|ops| - 1];
      Touches(ops[..|ops| - 1], cap)
        + (if op.Get? || op.key in RunOps(ops[..|ops| - 1], cap) then [op.key] else [])
  }

  /** The list is exactly the most recently touched cohorts, in order of their last
      touch, as many as fit. */
  lemma {:induction false} LruIsRecent(ops: seq<Op>, cap: nat)
    requires cap > 0
    ensures RunOps(ops, cap) == Take(Recent(Touches(ops, cap)), cap)
  {
    if ops == [] {
    } else {
      var front, op := ops[..|ops| - 1], ops[|ops| - 1];
      LruIsRecent(front, cap);
      var h := Touches(front, cap);
      if op.Get? || op.key in RunOps(front, cap) {
        assert Touches(ops, cap) == h + [op.key];
        assert (h + [op.key])[..|h|] == h;
        RecentDistinct(h);
        TouchTruncated(Recent(h), op.key, cap);
      } else {
        assert Touches(ops, cap) == h;
      }
    }
  }

  lemma {:induction false} LruBounded(ops: seq<Op>, cap: nat)
    requires cap > 0
    ensures |RunOps(ops, cap)| <= cap && NoDuplicates(RunOps(ops, cap))
  {
    LruIsRecent(ops, cap);
    RecentDistinct(Touches(ops, cap));
  }

  /** The position of the last touch of a key. */
  function LastTouch(h: seq<Key>, k: Key): (i: int)
    requires k in h
    ensures 0 <= i < |h| && h[i] == k && forall j :: i < j < |h| ==> h[j] != k
  {
    if h[|h| - 1] == k then |h| - 1
    else
      assert h == h[..|h| - 1] + [h[|h| - 1]];
      LastTouch(h[..|h| - 1], k)
  }

  lemma {:induction false} RecentStep(h: seq<Key>, i: nat)
    requires 0 < i < |Recent(h)|
    ensures var front, last := h[..|h| - 1], h[|h| - 1];
      var t := Remove(Recent(front), last);
      i - 1 < |t| && Recent(h)[i] == t[i - 1] && t[i - 1] != last
      && t[i - 1] in front && LastTouch(h, t[i - 1]) == LastTouch(front, t[i - 1])
  {
    var t := Remove(Recent(h[..|h| - 1]), h[|h| - 1]);
    assert t[i - 1] in t;
  }

  lemma {:induction false} RecentFirst(h: seq<Key>)
    requires Recent(h) != []
    ensures h != [] && Recent(h)[0] == h[|h| - 1] && LastTouch(h, h[|h| - 1]) == |h| - 1
  {
  }

  lemma {:induction false} RecentOrdered(h: seq<Key>, i: nat, j: nat)
    requires i < j < |Recent(h)|
    ensures LastTouch(h, Recent(h)[i]) > LastTouch(h, Recent(h)[j])
    decreases |h|
  {
    hide Recent, LastTouch, Remove;
    RecentFirst(h);
    RecentStep(h, j);
    if i == 0 {
    } else {
      RecentStep(h, i);
      var a, b := RemoveOrder(Recent(h[..|h| - 1]), h[|h| - 1], i - 1, j - 1);
      RecentOrdered(h[..|h| - 1], a, b);
    }
  }

  /** Removing keeps the order of what stays. */
  lemma {:induction false} RemoveOrder(s: seq<Key>, k: Key, i: nat, j: nat) returns (a: nat, b: nat)
    requires i < j < |Remove(s, k)|
    ensures a < b < |s| && s[a] == Remove(s, k)[i] && s[b] == Remove(s, k)[j]
  {
    if s[0] == k {
      a, b := RemoveOrder(s[1..], k, i, j);
      a, b := a + 1, b + 1;
    } else if i > 0 {
      a, b := RemoveOrder(s[1..], k, i - 1, j - 1);
      a, b := a + 1, b + 1;
    } else {
      assert Remove(s[1..], k)[j - 1] in s[1..];
      b :| 0 <= b < |s[1..]| && s[1..][b] == Remove(s[1..], k)[j - 1];
      a, b := 0, b + 1;
    }
  }

  /** When a touch evicts a cohort, it is not the one touched, and every cohort that
      stays was touched after it. */
  lemma {:induction false} EvictsLeastRecent(ops: seq<Op>, op: Op, cap: nat, gone: Key, stays: Key)
    requires cap > 0
    requires gone in RunOps(ops, cap) && gone !in Step(RunOps(ops, cap), op, cap)
    requires stays in RunOps(ops, cap) && stays in Step(RunOps(ops, cap), op, cap)
    ensures gone != op.key
    ensures gone in Touches(ops, cap) && stays in Touches(ops, cap)
    ensures LastTouch(Touches(ops, cap), gone) < LastTouch(Touches(ops, cap), stays)
  {
    var lru, h := RunOps(ops, cap), Touches(ops, cap);
    LruIsRecent(ops, cap);
    LruBounded(ops, cap);
    var i :| 0 <= i < |lru| && lru[i] == gone;
    var j :| 0 <= j < |lru| && lru[j] == stays;
    assert Recent(h)[i] == gone && Recent(h)[j] == stays;
    TouchEvictsLast(lru, op.key, cap, i);
    assert j != i;
    RecentOrdered(h, j, i);
  }

  lemma {:induction false} TouchKeeps(lru: seq<Key>, k: Key, cap: nat, i: nat)
    requires NoDuplicates(lru) && |lru| <= cap && i < |lru|
    requires k in lru || i + 1 < cap
    ensures lru[i] in Touch(lru, k, cap)
  {
    if k in lru {
      var n :| 0 <= n < |lru| && lru[n] == k;
      RemovePresent(lru, k, n);
      assert lru[i] in [k] + Remove(lru, k);
    } else {
      RemoveAbsent(lru, k);
      assert Touch(lru, k, cap)[i + 1] == lru[i];
    }
  }

  /** A touch drops an element only of a full list, only its last one, and only for a new key. */
  lemma {:induction false} TouchEvictsLast(lru: seq<Key>, k: Key, cap: nat, i: nat)
    requires cap > 0 && NoDuplicates(lru) && |lru| <= cap && i < |lru|
    requires lru[i] !in Touch(lru, k, cap)
    ensures k !in lru && i == |lru| - 1 == cap - 1
  {
    if k in lru || i + 1 < cap {
      TouchKeeps(lru, k, cap, i);
    }
  }
}
