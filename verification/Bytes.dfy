/** Bytes, fixed-width unsigned integers, and little-endian records of them.
    `LE` keeps the low `width` bytes of its argument, which is what a narrowing
    cast followed by a little-endian write does. */
module Bytes {

  type Byte = x: int | 0 <= x < 0x100
  type U16 = x: int | 0 <= x < 0x1_0000
  type U32 = x: int | 0 <= x < 0x1_0000_0000
  type U64 = x: int | 0 <= x < 0x1_0000_0000_0000_0000

  const U32_MAX: U32 := 0xFFFF_FFFF
  const U64_MAX: U64 := 0xFFFF_FFFF_FFFF_FFFF

  datatype Option<+T> = None | Some(value: T) {
    predicate IsFailure() { None? }

    function PropagateFailure<U>(): Option<U>
      requires None?
    {
      None
    }

    function Extract(): T
      requires Some?
    {
      value
    }
  }

  /** Turns a condition into an Option, to be used with `:-`. */
  function Check(c: bool): Option<()> { if c then Some(()) else None }

  function Min(a: int, b: int): int { if a <= b then a else b }

  function Max(a: int, b: int): int { if a >= b then a else b }

  function Zeros(n: nat): seq<Byte> { seq(n, _ => 0) }

  // ---------------------------------------------------------------- integers

  lemma Quotient(n: int, d: int, k: int)
    requires d > 0 && k * d <= n < k * d + d
    ensures n / d == k
  {
    MulStep(n / d, k, d);
    MulStep(k, n / d, d);
  }

  function Pow256(width: nat): (p: nat)
    ensures p >= 1
  {
    if width == 0 then 1 else 256 * Pow256(width - 1)
  }

  function LE(width: nat, n: nat): (b: seq<Byte>)
    ensures |b| == width
  {
    if width == 0 then [] else [n % 256] + LE(width - 1, n / 256)
  }

  function FromLE(b: seq<Byte>): nat
  {
    if b == [] then 0 else b[0] + 256 * FromLE(b[1..])
  }

  lemma {:induction false} LERoundTrip(width: nat, n: nat)
    requires n < Pow256(width)
    ensures FromLE(LE(width, n)) == n
  {
    if width == 0 {
    } else {
      LERoundTrip(width - 1, n / 256);
      assert LE(width, n)[1..] == LE(width - 1, n / 256);
    }
  }

  lemma {:induction false} FromLEBound(b: seq<Byte>)
    ensures FromLE(b) < Pow256(|b|)
  {
    if b == [] {
    } else {
      FromLEBound(b[1..]);
    }
  }

  lemma MulNext(a: int, d: int)
    ensures (a + 1) * d == a * d + d
  {
  }

  lemma {:induction false} MulStep(a: int, b: int, d: int)
    requires d > 0
    ensures a < b ==> a * d + d <= b * d
    decreases b - a
  {
    if a < b {
      MulNext(b - 1, d);
      if a + 1 < b {
        MulStep(a, b - 1, d);
      }
    }
  }

  // ---------------------------------------------------------------- records

  /** The integer stored little-endian in the `width` bytes at `at`. */
  function Num(a: seq<Byte>, at: nat, width: nat): nat
    requires at + width <= |a|
  {
    FromLE(a[at..at + width])
  }

  /** Groups of consecutive integers, the building blocks of binary headers. */
  function Two(w0: nat, v0: nat, w1: nat, v1: nat): (b: seq<Byte>)
    ensures |b| == w0 + w1
  {
    LE(w0, v0) + LE(w1, v1)
  }

  function Three(w0: nat, v0: nat, w1: nat, v1: nat, w2: nat, v2: nat): (b: seq<Byte>)
    ensures |b| == w0 + w1 + w2
  {
    Two(w0, v0, w1, v1) + LE(w2, v2)
  }

  function Four(w0: nat, v0: nat, w1: nat, v1: nat, w2: nat, v2: nat, w3: nat, v3: nat): (b: seq<Byte>)
    ensures |b| == w0 + w1 + w2 + w3
  {
    Three(w0, v0, w1, v1, w2, v2) + LE(w3, v3)
  }

  /** The byte at the lowest address counts least. */
  lemma LittleEndian(a: seq<Byte>, at: nat)
    ensures at + 1 <= |a| ==> Num(a, at, 1) == a[at]
    ensures at + 2 <= |a| ==> Num(a, at, 2) == a[at] + 0x100 * (a[at + 1] as nat)
    ensures at + 4 <= |a| ==>
              Num(a, at, 4)
              == a[at] + 0x100 * (a[at + 1] as nat) + 0x1_0000 * (a[at + 2] as nat) + 0x100_0000 * (a[at + 3] as nat)
    ensures at + 8 <= |a| ==> Num(a, at, 8) == Num(a, at, 4) + 0x1_0000_0000 * Num(a, at + 4, 4)
  {
    hide Num;
    if at + 1 <= |a| {
      NumStep(a, at, 1);
    }
    if at + 2 <= |a| {
      NumStep(a, at, 2);
      NumStep(a, at + 1, 1);
    }
    if at + 4 <= |a| {
      FourBytes(a, at);
    }
    if at + 8 <= |a| {
      FourBytes(a, at + 4);
      NumStep(a, at, 8);
      NumStep(a, at + 1, 7);
      NumStep(a, at + 2, 6);
      NumStep(a, at + 3, 5);
    }
  }

  lemma NumStep(a: seq<Byte>, at: nat, width: nat)
    requires 0 < width && at + width <= |a|
    ensures Num(a, at, width) == a[at] + 0x100 * Num(a, at + 1, width - 1)
    ensures Num(a, at + 1, 0) == 0
  {
    assert a[at..at + width][1..] == a[at + 1..at + width];
  }

  lemma FourBytes(a: seq<Byte>, at: nat)
    requires at + 4 <= |a|
    ensures Num(a, at, 4)
            == a[at] + 0x100 * (a[at + 1] as nat) + 0x1_0000 * (a[at + 2] as nat) + 0x100_0000 * (a[at + 3] as nat)
  {
    hide Num;
    NumStep(a, at, 4);
    NumStep(a, at + 1, 3);
    NumStep(a, at + 2, 2);
    NumStep(a, at + 3, 1);
  }

  predicate Fits(width: nat, value: nat) { value < Pow256(width) }

  /** `part` stands in `a` at offset `at`. */
  predicate Embedded(a: seq<Byte>, at: nat, part: seq<Byte>)
  {
    at + |part| <= |a| && a[at..at + |part|] == part
  }

  lemma EmbeddedSplit(a: seq<Byte>, at: nat, x: seq<Byte>, y: seq<Byte>)
    ensures Embedded(a, at, x + y) <==> Embedded(a, at, x) && Embedded(a, at + |x|, y)
  {
    if Embedded(a, at, x + y) {
      var s := a[at..at + |x| + |y|];
      assert s == x + y;
      assert s[..|x|] == x;
      assert s[|x|..] == y;
      assert a[at..at + |x|] == s[..|x|];
      assert a[at + |x|..at + |x| + |y|] == s[|x|..];
    }
    if Embedded(a, at, x) && Embedded(a, at + |x|, y) {
      assert a[at..at + |x| + |y|] == a[at..at + |x|] + a[at + |x|..at + |x| + |y|];
    }
  }

  lemma EmbeddedTrans(a: seq<Byte>, at: nat, b: seq<Byte>, off: nat, c: seq<Byte>)
    requires Embedded(a, at, b) && Embedded(b, off, c)
    ensures Embedded(a, at + off, c)
  {
    forall k | 0 <= k < |c|
      ensures a[at + off + k] == c[k]
    {
      assert b[off..off + |c|][k] == b[off + k] == a[at..at + |b|][off + k];
    }
    assert a[at + off..at + off + |c|] == c;
  }

  predicate Holds(a: seq<Byte>, at: nat, width: nat, value: nat)
  {
    at + width <= |a| && (Fits(width, value) ==> Num(a, at, width) == value)
  }

  lemma ReadOne(a: seq<Byte>, at: nat, w0: nat, v0: nat)
    requires Embedded(a, at, LE(w0, v0))
    ensures Holds(a, at, w0, v0)
  {
    if Fits(w0, v0) {
      LERoundTrip(w0, v0);
    }
  }

  lemma ReadTwo(a: seq<Byte>, at: nat, w0: nat, v0: nat, w1: nat, v1: nat)
    requires Embedded(a, at, Two(w0, v0, w1, v1))
    ensures Holds(a, at, w0, v0) && Holds(a, at + w0, w1, v1)
  {
    EmbeddedSplit(a, at, LE(w0, v0), LE(w1, v1));
    ReadOne(a, at, w0, v0);
    ReadOne(a, at + w0, w1, v1);
  }

  lemma ReadThree(a: seq<Byte>, at: nat, w0: nat, v0: nat, w1: nat, v1: nat, w2: nat, v2: nat)
    requires Embedded(a, at, Three(w0, v0, w1, v1, w2, v2))
    ensures Holds(a, at, w0, v0) && Holds(a, at + w0, w1, v1) && Holds(a, at + w0 + w1, w2, v2)
  {
    EmbeddedSplit(a, at, Two(w0, v0, w1, v1), LE(w2, v2));
    ReadTwo(a, at, w0, v0, w1, v1);
    ReadOne(a, at + w0 + w1, w2, v2);
  }

  lemma ReadFour(a: seq<Byte>, at: nat, w0: nat, v0: nat, w1: nat, v1: nat, w2: nat, v2: nat, w3: nat, v3: nat)
    requires Embedded(a, at, Four(w0, v0, w1, v1, w2, v2, w3, v3))
    ensures Holds(a, at, w0, v0) && Holds(a, at + w0, w1, v1) && Holds(a, at + w0 + w1, w2, v2)
    ensures Holds(a, at + w0 + w1 + w2, w3, v3)
  {
    EmbeddedSplit(a, at, Three(w0, v0, w1, v1, w2, v2), LE(w3, v3));
    ReadThree(a, at, w0, v0, w1, v1, w2, v2);
    ReadOne(a, at + w0 + w1 + w2, w3, v3);
  }

  lemma PowValues()
    ensures Pow256(1) == 0x100 && Pow256(2) == 0x1_0000 && Pow256(4) == 0x1_0000_0000
    ensures Pow256(8) == 0x1_0000_0000_0000_0000
  {
    assert Pow256(3) == 256 * Pow256(2);
    assert Pow256(5) == 256 * Pow256(4);
    assert Pow256(6) == 256 * Pow256(5);
    assert Pow256(7) == 256 * Pow256(6);
  }

  // ---------------------------------------------------------------- concatenation

  /** All parts, one after the other. */
  function Flatten<T>(parts: seq<seq<T>>): seq<T>
  {
    if parts == [] then [] else Flatten(parts[..|parts| - 1]) + parts[|parts| - 1]
  }

  lemma {:induction false} FlattenCons<T>(first: seq<T>, rest: seq<seq<T>>)
    ensures Flatten([first] + rest) == first + Flatten(rest)
    decreases |rest|
  {
    if rest == [] {
      assert [first] + rest == [first] && [first][..0] == [];
    } else {
      var n := |rest| - 1;
      var all := [first] + rest;
      FlattenCons(first, rest[..n]);
      assert all[..n + 1] == [first] + rest[..n] && all[n + 1] == rest[n];
      assert Flatten(all) == Flatten(all[..n + 1]) + all[n + 1];
      assert Flatten(rest) == Flatten(rest[..n]) + rest[n];
    }
  }

  lemma {:induction false} FlattenPrefix<T>(parts: seq<seq<T>>, i: nat)
    requires i <= |parts|
    ensures Flatten(parts[..i]) <= Flatten(parts)
    decreases |parts|
  {
    if i == |parts| {
      assert parts[..i] == parts;
    } else {
      FlattenPrefix(parts[..|parts| - 1], i);
      assert parts[..|parts| - 1][..i] == parts[..i];
    }
  }

  /** Part `i` stands right after the parts before it. */
  lemma FlattenAt(parts: seq<seq<Byte>>, i: nat)
    requires i < |parts|
    ensures Embedded(Flatten(parts), |Flatten(parts[..i])|, parts[i])
    ensures Flatten(parts[..i + 1]) == Flatten(parts[..i]) + parts[i]
  {
    FlattenPrefix(parts, i + 1);
    assert parts[..i + 1][..i] == parts[..i];
    var pre := Flatten(parts[..i + 1]);
    assert pre == Flatten(parts[..i]) + parts[i];
    assert Flatten(parts)[..|pre|] == pre;
    assert Flatten(parts)[|Flatten(parts[..i])|..|pre|] == pre[|Flatten(parts[..i])|..];
  }
}
