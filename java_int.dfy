/** Java's 32-bit `int` arithmetic and the base-31 polynomial hash that
    `String.hashCode` and hand-written `hashCode` methods compute with it. */
module JavaInt {

  const TWO_32: int := 0x1_0000_0000
  const TWO_31: int := 0x8000_0000

  /** The values of a Java `int`. */
  type int32 = x: int | -0x8000_0000 <= x < 0x8000_0000

  /** Narrowing of a mathematical integer to `int`: two's-complement wrap-around.
      The result is the one `int` congruent to `x` modulo 2^32. */
  function Wrap(x: int): (r: int32)
    ensures (r - x) % TWO_32 == 0
  {
    var r := (x + TWO_31) % TWO_32 - TWO_31;
    assert r - x == -TWO_32 * ((x + TWO_31) / TWO_32);
    r
  }

  /** Java `a + b` on `int`. */
  function AddInt(a: int32, b: int32): int32 { Wrap(a + b) }

  /** Java `a * b` on `int`. */
  function MulInt(a: int32, b: int32): int32 { Wrap(a * b) }

  /** Adding a multiple of 2^32 does not change the wrapped value. */
  lemma WrapShift(x: int, k: int)
    ensures Wrap(x + k * TWO_32) == Wrap(x)
  {
    var y := x + k * TWO_32;
    var q, q' := (x + TWO_31) / TWO_32, (y + TWO_31) / TWO_32;
    var r, r' := (x + TWO_31) % TWO_32, (y + TWO_31) % TWO_32;
    assert x + TWO_31 == q * TWO_32 + r;
    assert y + TWO_31 == q' * TWO_32 + r';
    assert (q' - q - k) * TWO_32 == r - r';
  }

  /** Two integers congruent modulo 2^32 wrap to the same `int`. */
  lemma {:induction false} WrapCongruent(x: int, y: int)
    requires (x - y) % TWO_32 == 0
    ensures Wrap(x) == Wrap(y)
  {
    var k := (x - y) / TWO_32;
    assert x == y + k * TWO_32;
    WrapShift(y, k);
  }

  /** One step of the hash fold, as Java writes it: `result = 31 * result + h`. */
  function Step(result: int32, h: int32): int32 { AddInt(MulInt(31, result), h) }

  /** The hash fold over a sequence of component hashes, starting from 0. */
  function Hash31(hs: seq<int32>): int32
  {
    if hs == [] then 0 else Step(Hash31(hs[..|hs| - 1]), hs[|hs| - 1])
  }

  /** 31^n. */
  function Pow31(n: nat): int
  {
    if n == 0 then 1 else 31 * Pow31(n - 1)
  }

  /** The closed form h[0]*31^(n-1) + h[1]*31^(n-2) + ... + h[n-1], without wrap-around. */
  function PolySum(hs: seq<int>): int
  {
    if hs == [] then 0 else hs[0] * Pow31(|hs| - 1) + PolySum(hs[1..])
  }

  lemma {:induction false} PolySumSnoc(hs: seq<int>, h: int)
    ensures PolySum(hs + [h]) == 31 * PolySum(hs) + h
  {
    if hs == [] {
      assert hs + [h] == [h];
    } else {
      var t := hs + [h];
      assert t[0] == hs[0] && t[1..] == hs[1..] + [h];
      PolySumSnoc(hs[1..], h);
      assert hs[0] * Pow31(|hs|) == 31 * (hs[0] * Pow31(|hs| - 1));
    }
  }

  /** The Java fold computes the base-31 polynomial of its components modulo 2^32. */
  lemma {:induction false} Hash31IsPolynomial(hs: seq<int32>)
    ensures Hash31(hs) == Wrap(PolySum(hs))
  {
    if hs != [] {
      var init, h := hs[..|hs| - 1], hs[|hs| - 1];
      assert hs == init + [h];
      Hash31IsPolynomial(init);
      PolySumSnoc(init, h);
      StepCongruent(Hash31(init), PolySum(init), h);
    }
  }

  /** A fold step on a wrapped value agrees with the step on the unwrapped one. */
  lemma StepCongruent(w: int32, p: int, h: int32)
    requires w == Wrap(p)
    ensures Step(w, h) == Wrap(31 * p + h)
  {
    var m := Wrap(31 * w);
    var k1, k2 := (m - 31 * w) / TWO_32, (w - p) / TWO_32;
    assert m - 31 * w == k1 * TWO_32;
    assert w - p == k2 * TWO_32;
    assert m + h - (31 * p + h) == (k1 + 31 * k2) * TWO_32;
    WrapCongruent(m + h, 31 * p + h);
  }

  /** The UTF-16 code units Java stores for one character. */
  function CodeUnits(c: char): (units: seq<int32>)
    ensures 1 <= |units| <= 2
    ensures forall i :: 0 <= i < |units| ==> 0 <= units[i] < 0x1_0000
  {
    var v := c as int;
    if v < 0x1_0000 then [v]
    else [0xD800 + (v - 0x1_0000) / 0x400, 0xDC00 + (v - 0x1_0000) % 0x400]
  }

  /** The UTF-16 code units of a string, the `char`s Java's `String` holds. */
  function Utf16(s: string): seq<int32>
  {
    if s == [] then [] else CodeUnits(s[0]) + Utf16(s[1..])
  }

  /** Java's `String.hashCode`: s[0]*31^(n-1) + ... + s[n-1] in `int` arithmetic,
      over the string's UTF-16 code units. */
  function StringHashCode(s: string): (h: int32)
    ensures h == Wrap(PolySum(Utf16(s)))
  {
    Hash31IsPolynomial(Utf16(s));
    Hash31(Utf16(s))
  }
}
