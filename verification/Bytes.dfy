/** Go strings as byte sequences: their bytewise order and the base-10 integer
    forms used in page cursors and tokens. */
module Bytes {

  type Byte = b: int | 0 <= b < 256
  type Str = seq<Byte>

  const TWO_32: int := 0x1_0000_0000
  const TWO_63: int := 0x8000_0000_0000_0000
  const TWO_64: int := 0x1_0000_0000_0000_0000

  type Int64 = i: int | -TWO_63 <= i < TWO_63
  type UInt64 = u: int | 0 <= u < TWO_64

  datatype Option<+T> = None | Some(value: T)

  /** The bytes of an ASCII literal. */
  function Ascii(s: string): (r: Str)
    ensures |r| == |s|
  {
    seq(|s|, i requires 0 <= i < |s| => s[i] as int % 256)
  }

  /** Go's `<` on strings. */
  predicate LexLess(a: Str, b: Str) {
    if b == [] then false
    else if a == [] then true
    else if a[0] != b[0] then a[0] < b[0]
    else LexLess(a[1..], b[1..])
  }

  lemma {:induction false} LexIrreflexive(a: Str)
    ensures !LexLess(a, a)
  {
    if a == [] {
    } else {
      LexIrreflexive(a[1..]);
    }
  }

  lemma {:induction false} LexTotal(a: Str, b: Str)
    ensures LexLess(a, b) || a == b || LexLess(b, a)
  {
    if a != [] && b != [] && a[0] == b[0] {
      LexTotal(a[1..], b[1..]);
      assert a == [a[0]] + a[1..] && b == [b[0]] + b[1..];
    }
  }

  lemma {:induction false} LexTransitive(a: Str, b: Str, c: Str)
    requires LexLess(a, b) && LexLess(b, c)
    ensures LexLess(a, c)
  {
    if a != [] && a[0] == b[0] == c[0] {
      LexTransitive(a[1..], b[1..], c[1..]);
    }
  }

  // ---- strconv ----

  predicate IsDigit(b: Byte) { 48 <= b <= 57 }

  function Digits(n: nat): (r: Str)
    ensures r != [] && forall i :: 0 <= i < |r| ==> IsDigit(r[i])
  {
    if n < 10 then [48 + n] else Digits(n / 10) + [48 + n % 10]
  }

  function FormatInt(i: int): Str {
    if i < 0 then [45] + Digits(-i) else Digits(i)
  }

  function DigitsValue(s: Str): int {
    if s == [] then 0 else 10 * DigitsValue(s[..|s| - 1]) + (s[|s| - 1] as int - 48)
  }

  /** strconv.ParseInt(s, 10, 64): an optional sign, at least one digit, and a
      value that fits in 64 bits. */
  function ParseInt(s: Str): Option<int> {
    var negative := s != [] && s[0] == 45;
    var digits := if s != [] && (s[0] == 43 || s[0] == 45) then s[1..] else s;
    if digits == [] || exists i :: 0 <= i < |digits| && !IsDigit(digits[i]) then None
    else
      var v := if negative then -DigitsValue(digits) else DigitsValue(digits);
      if -TWO_63 <= v < TWO_63 then Some(v) else None
  }

  lemma {:induction false} DigitsValueOfDigits(n: nat)
    ensures DigitsValue(Digits(n)) == n
  {
    if n >= 10 {
      DigitsValueOfDigits(n / 10);
      var r := Digits(n);
      assert r[..|r| - 1] == Digits(n / 10);
    }
  }

  lemma {:induction false} ParseFormat(i: Int64)
    ensures ParseInt(FormatInt(i)) == Some(i)
    ensures FormatInt(i) != []
    ensures forall k :: 0 <= k < |FormatInt(i)| ==> FormatInt(i)[k] != 58
  {
    if i < 0 {
      DigitsValueOfDigits(0 - i as int);
      assert FormatInt(i)[1..] == Digits(0 - i as int);
    } else {
      DigitsValueOfDigits(i);
    }
  }
}
