/** Bytes, strings and little-endian integers: what every component of the format shares.

    A `std::string` is a sequence of bytes, compared as `std::string::compare` does:
    lexicographically, on unsigned bytes, a proper prefix first. */
module Bytes {

  type byte = x: int | 0 <= x < 256

  type Str = seq<byte>

  const TWO32: nat := 0x1_0000_0000
  const TWO64: nat := 0x1_0000_0000_0000_0000

  // ---------------------------------------------------------------- little-endian integers

  /** The number of values that fit in `w` bytes. */
  function Pow256(w: nat): (p: nat)
    ensures p >= 1
  {
    if w == 0 then 1 else 256 * Pow256(w - 1)
  }

  lemma Pow256Values()
    ensures Pow256(1) == 256 && Pow256(2) == 0x1_0000 && Pow256(4) == TWO32 && Pow256(8) == TWO64
  {
    assert Pow256(2) == 256 * Pow256(1);
    assert Pow256(3) == 256 * Pow256(2);
    assert Pow256(4) == 256 * Pow256(3);
    assert Pow256(5) == 256 * Pow256(4);
    assert Pow256(6) == 256 * Pow256(5);
    assert Pow256(7) == 256 * Pow256(6);
  }

  /** `toLittleEndian` for a `w`-byte type: the cast to that type drops the high bytes. */
  function ToLE(v: nat, w: nat): (r: Str)
    ensures |r| == w
    decreases w
  {
    if w == 0 then [] else [v % 256] + ToLE(v / 256, w - 1)
  }

  function FromLE(s: Str): nat {
    if s == [] then 0 else s[0] + 256 * FromLE(s[1..])
  }

  lemma {:induction false} FromLEBound(s: Str)
    ensures FromLE(s) < Pow256(|s|)
  {
    if s != [] { FromLEBound(s[1..]); }
  }

  lemma ModStep(v: nat, p: nat)
    requires p >= 1
    ensures v % (256 * p) == v % 256 + 256 * ((v / 256) % p)
  {
    var q, r := v / 256, v % 256;
    var a, b := q / p, q % p;
    assert v == 256 * q + r;
    assert q == p * a + b;
    var m := 256 * b + r;
    assert v == (256 * p) * a + m by {
      calc {
        256 * q + r;
        256 * (p * a + b) + r;
        256 * (p * a) + 256 * b + r;
        (256 * p) * a + 256 * b + r;
      }
    }
    assert 0 <= m < 256 * p;
    ModUnique(v, 256 * p, a, m);
  }

  lemma ModUnique(v: nat, d: nat, a: nat, m: nat)
    requires d >= 1 && v == d * a + m && m < d
    ensures v % d == m && v / d == a
  {
    var a', m' := v / d, v % d;
    assert v == d * a' + m';
    assert d * (a + 1) == d * a + d && d * (a' + 1) == d * a' + d;
    if a < a' {
      MulMono(d, a + 1, a');
    } else if a' < a {
      MulMono(d, a' + 1, a);
    }
  }

  lemma MulMono(d: nat, a: nat, b: nat)
    requires a <= b
    ensures d * a <= d * b
  {
  }

  /** Reading back a written integer gives it modulo the width that was written. */
  lemma {:induction false} FromToLE(v: nat, w: nat)
    ensures FromLE(ToLE(v, w)) == v % Pow256(w)
    decreases w
  {
    if w != 0 {
      FromToLE(v / 256, w - 1);
      assert ToLE(v, w)[1..] == ToLE(v / 256, w - 1);
      ModStep(v, Pow256(w - 1));
    }
  }

  /** Writing a read integer gives the same bytes. */
  lemma {:induction false} ToFromLE(s: Str)
    ensures ToLE(FromLE(s), |s|) == s
  {
    if s != [] {
      ToFromLE(s[1..]);
      assert s == [s[0]] + s[1..];
    }
  }

  /** An integer that fits its width survives the round trip. */
  lemma RoundTripLE(v: nat, w: nat)
    requires v < Pow256(w)
    ensures FromLE(ToLE(v, w)) == v
  {
    FromToLE(v, w);
    ModUnique(v, Pow256(w), 0, v);
  }

  lemma MulAssoc(a: nat, b: nat, c: nat)
    ensures a * (b * c) == (a * b) * c
  {
  }

  lemma {:induction false} FromLEAppend(s: Str, t: Str)
    ensures FromLE(s + t) == FromLE(s) + Pow256(|s|) * FromLE(t)
  {
    if s == [] {
      assert s + t == t;
    } else {
      FromLEAppend(s[1..], t);
      assert (s + t)[1..] == s[1..] + t;
      MulAssoc(256, Pow256(|s| - 1), FromLE(t));
    }
  }

  /** `fromLittleEndian`: byte i is shifted by 8 * i bits and or-ed in. The bits are disjoint, so
      the or is a sum. */
  method FromLittleEndian(ptr: Str) returns (ret: nat)
    ensures ret == FromLE(ptr)
  {
    ret := 0;
    var scale: nat := 1;
    for i := 0 to |ptr|
      invariant scale == Pow256(i)
      invariant ret == FromLE(ptr[..i])
    {
      assert ptr[..i + 1] == ptr[..i] + [ptr[i]];
      FromLEAppend(ptr[..i], [ptr[i]]);
      assert FromLE([ptr[i]]) == ptr[i];
      ret := ret + scale * ptr[i];
      scale := scale * 256;
    }
    assert ptr[..|ptr|] == ptr;
  }

  // ---------------------------------------------------------------- order on strings

  predicate Leq(a: Str, b: Str) {
    a == [] || (b != [] && (a[0] < b[0] || (a[0] == b[0] && Leq(a[1..], b[1..]))))
  }

  predicate Lt(a: Str, b: Str) {
    !Leq(b, a)
  }

  lemma {:induction false} LeqRefl(a: Str)
    ensures Leq(a, a)
  {
    if a != [] { LeqRefl(a[1..]); }
  }

  lemma {:induction false} LeqTotal(a: Str, b: Str)
    ensures Leq(a, b) || Leq(b, a)
  {
    if a != [] && b != [] { LeqTotal(a[1..], b[1..]); }
  }

  lemma {:induction false} LeqAntisym(a: Str, b: Str)
    requires Leq(a, b) && Leq(b, a)
    ensures a == b
  {
    if a != [] {
      LeqAntisym(a[1..], b[1..]);
      assert a == [a[0]] + a[1..] && b == [b[0]] + b[1..];
    }
  }

  lemma {:induction false} LeqTrans(a: Str, b: Str, c: Str)
    requires Leq(a, b) && Leq(b, c)
    ensures Leq(a, c)
  {
    if a != [] && b[0] == a[0] == c[0] { LeqTrans(a[1..], b[1..], c[1..]); }
  }

  lemma LtLeqTrans(a: Str, b: Str, c: Str)
    requires (Lt(a, b) && Leq(b, c)) || (Leq(a, b) && Lt(b, c))
    ensures Lt(a, c)
  {
    if Leq(c, a) {
      if Lt(a, b) && Leq(b, c) { LeqTrans(b, c, a); } else { LeqTrans(c, a, b); }
    }
  }

  lemma LtIrrefl(a: Str)
    ensures !Lt(a, a)
  {
    LeqRefl(a);
  }

  lemma LtIsLeq(a: Str, b: Str)
    ensures Lt(a, b) ==> Leq(a, b) && a != b
    ensures Leq(a, b) && a != b ==> Lt(a, b)
  {
    LeqTotal(a, b);
    LeqRefl(a);
    if Leq(a, b) && Leq(b, a) { LeqAntisym(a, b); }
  }

  /** A common prefix does not change an order. */
  lemma {:induction false} LeqCommonPrefix(p: Str, a: Str, b: Str)
    ensures Leq(p + a, p + b) == Leq(a, b)
  {
    if p == [] {
      assert p + a == a && p + b == b;
    } else {
      LeqCommonPrefix(p[1..], a, b);
      assert (p + a)[1..] == p[1..] + a && (p + b)[1..] == p[1..] + b;
    }
  }

  lemma PrefixLeq(p: Str, s: Str)
    ensures Leq(p, p + s)
  {
    LeqCommonPrefix(p, [], s);
    assert p + [] == p;
  }

  // ---------------------------------------------------------------- NUL-terminated strings

  predicate NoNul(s: Str) {
    forall i :: 0 <= i < |s| ==> s[i] != 0
  }

  /** `strnlen(s, |s|)`: the bytes before the first NUL, or all of them. */
  function StrLen(s: Str): (n: nat)
    ensures n <= |s| && NoNul(s[..n])
    ensures n < |s| ==> s[n] == 0
  {
    if s == [] || s[0] == 0 then 0 else
      var n := 1 + StrLen(s[1..]);
      assert forall i :: 1 <= i < n ==> s[i] == s[1..][..n - 1][i - 1];
      n
  }

  lemma NoNulPrefix(s: Str, n: nat)
    requires n <= |s| && NoNul(s[..n])
    ensures forall i :: 0 <= i < n ==> s[i] != 0
  {
    forall i | 0 <= i < n ensures s[i] != 0 { assert s[..n][i] != 0; }
  }

  lemma StrLenUnique(s: Str, n: nat)
    requires n <= |s| && NoNul(s[..n]) && (n < |s| ==> s[n] == 0)
    ensures StrLen(s) == n
  {
    var m := StrLen(s);
    NoNulPrefix(s, n);
    NoNulPrefix(s, m);
  }

  /** The C string that starts at the front of `s`. */
  function CStr(s: Str): Str {
    s[..StrLen(s)]
  }

  lemma CStrOf(k: Str, rest: Str)
    requires NoNul(k)
    ensures CStr(k + [0] + rest) == k && StrLen(k + [0] + rest) == |k|
  {
    var s := k + [0] + rest;
    assert s[..|k|] == k;
    StrLenUnique(s, |k|);
  }

  // ---------------------------------------------------------------- concatenations

  function Zeros(n: nat): (z: Str)
    ensures |z| == n
  {
    seq(n, _ => 0)
  }

  function Concat(parts: seq<Str>): Str {
    if parts == [] then [] else parts[0] + Concat(parts[1..])
  }

  lemma ConcatEmpty()
    ensures Concat([]) == []
  {
  }

  lemma {:induction false} ConcatAppend(a: seq<Str>, b: seq<Str>)
    ensures Concat(a + b) == Concat(a) + Concat(b)
  {
    if a == [] {
      assert a + b == b;
    } else {
      ConcatAppend(a[1..], b);
      assert (a + b)[1..] == a[1..] + b && (a + b)[0] == a[0];
      var x, y, z := a[0], Concat(a[1..]), Concat(b);
      assert x + (y + z) == (x + y) + z;
    }
  }

  lemma SliceLeft(a: Str, b: Str, i: nat, j: nat)
    requires i <= j <= |a|
    ensures (a + b)[i..j] == a[i..j]
  {
  }

  lemma SliceRight(a: Str, b: Str, i: nat, j: nat)
    requires |a| <= i <= j <= |a| + |b|
    ensures (a + b)[i..j] == b[i - |a|..j - |a|]
  {
  }

  lemma SliceSpan(a: Str, b: Str, i: nat, j: nat)
    requires i <= |a| <= j <= |a| + |b|
    ensures (a + b)[i..j] == a[i..] + b[..j - |a|]
  {
  }

  lemma SliceOfSlice(s: Str, a: nat, b: nat, c: nat, d: nat)
    requires a <= b <= |s| && c <= d <= b - a
    ensures s[a..b][c..d] == s[a + c..a + d]
  {
    var t := s[a..b];
    forall k | 0 <= k < d - c ensures t[c..d][k] == s[a + c..a + d][k] {
      assert t[c..d][k] == t[c + k] == s[a + c + k];
    }
  }

  lemma ConcatSnoc(a: seq<Str>, x: Str)
    ensures Concat(a + [x]) == Concat(a) + x
  {
    ConcatAppend(a, [x]);
    assert Concat([x]) == x + Concat([]);
  }

  /** Part i of a concatenation lies after the parts before it. */
  lemma ConcatPart(parts: seq<Str>, i: nat)
    requires i < |parts|
    ensures var o := |Concat(parts[..i])|;
            o + |parts[i]| <= |Concat(parts)| &&
            Concat(parts)[o..o + |parts[i]|] == parts[i] &&
            |Concat(parts[..i + 1])| == o + |parts[i]|
  {
    assert parts == parts[..i] + [parts[i]] + parts[i + 1..];
    ConcatAppend(parts[..i] + [parts[i]], parts[i + 1..]);
    ConcatSnoc(parts[..i], parts[i]);
    assert parts[..i + 1] == parts[..i] + [parts[i]];
  }
}
