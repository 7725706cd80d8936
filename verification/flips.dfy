/** Walking bit flips over a buffer, and the test for changes they could have made. */
module Flips {
  import opened Bits

  // ----- Bits of a buffer, most significant bit of each byte first -----

  predicate BitOf(x: Data, g: nat)
    requires g < 8 * |x|
  {
    Bit(x[g / 8], 7 - g % 8)
  }

  /** 128 shifted right `s` times. */
  function HighBit(s: nat): (r: Byte)
    requires s < 8
  {
    Shifted(7 - s);
    Scale(7 - s, 1)
  }

  lemma Shifted(k: nat)
    requires k < 8
    ensures Scale(k, 1) < 256
  {
    ScaleMonotone(k, 7);
    Scale256(1);
  }

  lemma {:induction false} ScaleMonotone(a: nat, b: nat)
    requires a <= b
    ensures Scale(a, 1) <= Scale(b, 1)
  {
    if a < b {
      ScaleMonotone(a, b - 1);
    }
  }

  function FlipBit(x: Data, b: nat): (r: Data)
    requires b < 8 * |x|
    ensures |r| == |x|
  {
    x[b / 8 := OnBytes(Xor, x[b / 8], HighBit(b % 8))]
  }

  /** Flips `n` bits from bit `b` on. */
  function FlipRange(x: Data, b: nat, n: nat): (r: Data)
    requires b + n <= 8 * |x|
    ensures |r| == |x|
  {
    if n == 0 then x else FlipBit(FlipRange(x, b, n - 1), b + n - 1)
  }

  lemma HighBitBit(s: nat, k: nat)
    requires s < 8
    ensures Bit(HighBit(s), k) <==> k == 7 - s
  {
    ScaleBit(7 - s, 1, k);
    assert Ones(0) == 0 && Ones(1) == 1;
    if k >= 7 - s {
      OnesBit(1, k - (7 - s));
    }
  }

  lemma FlipBitBit(x: Data, b: nat, g: nat)
    requires b < 8 * |x| && g < 8 * |x|
    ensures BitOf(FlipBit(x, b), g) <==> (BitOf(x, g) != (g == b))
  {
    if g / 8 == b / 8 {
      BitwiseBit(Xor, x[b / 8], HighBit(b % 8), 7 - g % 8);
      HighBitBit(b % 8, 7 - g % 8);
    }
  }

  lemma {:induction false} FlipRangeBit(x: Data, b: nat, n: nat, g: nat)
    requires b + n <= 8 * |x| && g < 8 * |x|
    ensures BitOf(FlipRange(x, b, n), g) <==> (BitOf(x, g) != (b <= g < b + n))
    decreases n
  {
    if n > 0 {
      FlipRangeBit(x, b, n - 1, g);
      FlipBitBit(FlipRange(x, b, n - 1), b + n - 1, g);
    }
  }

  /** Buffers are known by their bits. */
  lemma SameBuffer(x: Data, y: Data)
    requires |x| == |y| && forall g :: 0 <= g < 8 * |x| ==> BitOf(x, g) == BitOf(y, g)
    ensures x == y
  {
    forall i | 0 <= i < |x| ensures x[i] == y[i] {
      forall k | 0 <= k < 8 ensures Bit(x[i], k) == Bit(y[i], k) {
        assert BitOf(x, 8 * i + (7 - k)) == BitOf(y, 8 * i + (7 - k));
      }
      Pow256();
      SameBits(x[i], y[i], 8);
    }
  }

  /** Flipping the same bits again restores the buffer. */
  lemma FlipTwice(x: Data, b: nat, n: nat)
    requires b + n <= 8 * |x|
    ensures FlipRange(FlipRange(x, b, n), b, n) == x
  {
    var y := FlipRange(x, b, n);
    var z := FlipRange(y, b, n);
    forall g | 0 <= g < 8 * |x| ensures BitOf(z, g) == BitOf(x, g) {
      FlipRangeBit(x, b, n, g);
      FlipRangeBit(y, b, n, g);
    }
    SameBuffer(z, x);
  }

  // ----- Single byte changes -----

  function Change(old_: Byte, new_: Byte): Byte {
    OnBytes(Xor, old_, new_)
  }

  /** The bits `s` up to `s + n` of the byte `r` are set, and no other. */
  ghost predicate RunOfBits(r: Byte, s: nat, n: nat) {
    s + n <= 8 && forall k :: 0 <= k < 8 ==> (Bit(r, k) <==> s <= k < s + n)
  }

  /** Setting a byte is a flip of `n` bits inside it exactly when the change is a run of `n`. */
  lemma RunIsFlip(x: Data, i: nat, v: Byte, s: nat, n: nat)
    requires i < |x| && s + n <= 8
    ensures x[i := v] == FlipRange(x, 8 * i + 8 - s - n, n) <==> RunOfBits(Change(x[i], v), s, n)
  {
    var b := 8 * i + 8 - s - n;
    var y, z, r := x[i := v], FlipRange(x, b, n), Change(x[i], v);
    forall k | 0 <= k < 8 ensures Bit(r, k) == (Bit(x[i], k) != Bit(v, k)) {
      BitwiseBit(Xor, x[i], v, k);
    }
    forall g | 0 <= g < 8 * |x| ensures BitOf(z, g) <==> (BitOf(x, g) != (b <= g < b + n)) {
      FlipRangeBit(x, b, n, g);
    }
    if RunOfBits(r, s, n) {
      forall g | 0 <= g < 8 * |x| ensures BitOf(y, g) == BitOf(z, g) {
        SameBitInRun(x, i, v, s, n, g);
      }
      SameBuffer(y, z);
    }
    if y == z {
      forall k | 0 <= k < 8 ensures Bit(r, k) <==> s <= k < s + n {
        var g := 8 * i + (7 - k);
        assert BitOf(y, g) == BitOf(z, g);
      }
    }
  }

  lemma SameBitInRun(x: Data, i: nat, v: Byte, s: nat, n: nat, g: nat)
    requires i < |x| && s + n <= 8 && g < 8 * |x| && RunOfBits(Change(x[i], v), s, n)
    ensures var b := 8 * i + 8 - s - n; BitOf(x[i := v], g) <==> (BitOf(x, g) != (b <= g < b + n))
  {
    var k := 7 - g % 8;
    if g / 8 == i {
      BitwiseBit(Xor, x[i], v, k);
      assert Bit(Change(x[i], v), k) <==> s <= k < s + n;
    }
  }

  /** A flip that reaches out of byte `i` is no change of byte `i` alone. */
  lemma FlipOutside(x: Data, i: nat, v: Byte, b: nat, n: nat)
    requires i < |x| && n > 0 && b + n <= 8 * |x| && x[i := v] == FlipRange(x, b, n)
    ensures 8 * i <= b && b + n <= 8 * i + 8
  {
    FlipRangeBit(x, b, n, b);
    FlipRangeBit(x, b, n, b + n - 1);
    Elsewhere(x, i, v, b);
    Elsewhere(x, i, v, b + n - 1);
  }

  lemma Elsewhere(x: Data, i: nat, v: Byte, g: nat)
    requires i < |x| && g < 8 * |x|
    ensures g / 8 != i ==> BitOf(x[i := v], g) == BitOf(x, g)
  {
  }

  lemma FlipJoins(x: Data, b: nat, n: nat, m: nat)
    requires b + n + m <= 8 * |x|
    ensures FlipRange(FlipRange(x, b, n), b + n, m) == FlipRange(x, b, n + m)
  {
    var y := FlipRange(x, b, n);
    var z, w := FlipRange(y, b + n, m), FlipRange(x, b, n + m);
    forall g | 0 <= g < 8 * |x| ensures BitOf(z, g) == BitOf(w, g) {
      FlipRangeBit(x, b, n, g);
      FlipRangeBit(y, b + n, m, g);
      FlipRangeBit(x, b, n + m, g);
    }
    SameBuffer(z, w);
  }

  /** Complementing a byte flips its eight bits. */
  lemma FlipByte(x: Data, i: nat, n: nat)
    requires i < |x| && n == 8
    ensures x[i := OnBytes(Xor, x[i], 255)] == FlipRange(x, 8 * i, n)
  {
    var v := OnBytes(Xor, x[i], 255);
    ComplementRun(x[i]);
    RunIsFlip(x, i, v, 0, n);
  }

  lemma ComplementRun(b: Byte)
    ensures RunOfBits(Change(b, OnBytes(Xor, b, 255)), 0, 8)
  {
    var v := OnBytes(Xor, b, 255);
    Pow256();
    AllBits(255, 8);
    forall k | 0 <= k < 8 ensures Bit(Change(b, v), k) {
      BitwiseBit(Xor, b, 255, k);
      BitwiseBit(Xor, b, v, k);
    }
  }

  // ----- Could a change be a flip? -----

  /** The lengths and places of the walking flips: 1, 2 and 4 bits anywhere, whole bytes at
      byte boundaries. */
  predicate Walks(s: nat, n: nat) {
    n == 1 || n == 2 || n == 4 || ((n == 8 || n == 16 || n == 32) && s % 8 == 0)
  }

  ghost predicate FlipPattern(x: nat) {
    x == 0 || exists s, n :: Walks(s, n) && x == Scale(s, Ones(n))
  }

  lemma {:induction false} ScaleShift(k: nat, h: nat)
    ensures Scale(k + 1, h) == Scale(k, 2 * h)
  {
    if k > 0 {
      ScaleShift(k - 1, h);
    }
  }

  /** A number is an odd number shifted in one way only. */
  lemma {:induction false} OddPartUnique(s: nat, a: nat, t: nat, b: nat)
    requires a % 2 == 1 && b % 2 == 1 && Scale(s, a) == Scale(t, b)
    ensures s == t && a == b
  {
    if s > 0 && t > 0 {
      OddPartUnique(s - 1, a, t - 1, b);
    }
  }

  lemma OnesValues()
    ensures Ones(1) == 1 && Ones(2) == 3 && Ones(4) == 15 && Ones(8) == 0xff && Ones(16) == 0xffff && Ones(32) == 0xffffffff
  {
    assert Ones(12) == 0xfff;
    assert Ones(20) == 0xfffff;
    assert Ones(24) == 0xffffff;
    assert Ones(28) == 0xfffffff;
  }

  lemma OnesOdd(n: nat)
    requires n > 0
    ensures Ones(n) % 2 == 1
  {
  }

  method CouldBeBitflip(xorVal: nat) returns (r: bool)
    ensures r <==> FlipPattern(xorVal)
  {
    if xorVal == 0 {
      return true;
    }
    var sh, v := 0, xorVal;
    while v % 2 == 0
      invariant v > 0 && xorVal == Scale(sh, v)
      decreases v
    {
      ScaleShift(sh, v / 2);
      sh, v := sh + 1, v / 2;
    }
    r := OddPattern(sh, v);
    PatternOfOddPart(xorVal, sh, v);
  }

  /** The tests that are left once the trailing zeros are gone. */
  predicate OddPattern(sh: nat, v: nat) {
    v == 1 || v == 3 || v == 15 || (sh % 8 == 0 && (v == 0xff || v == 0xffff || v == 0xffffffff))
  }

  lemma PatternOfOddPart(x: nat, sh: nat, v: nat)
    requires v % 2 == 1 && x == Scale(sh, v) && x > 0
    ensures FlipPattern(x) <==> OddPattern(sh, v)
  {
    OnesValues();
    if FlipPattern(x) {
      var s, n :| Walks(s, n) && x == Scale(s, Ones(n));
      OnesOdd(n);
      OddPartUnique(s, Ones(n), sh, v);
    }
    if OddPattern(sh, v) {
      var n := if v == 1 then 1 else if v == 3 then 2 else if v == 15 then 4 else if v == 0xff then 8 else if v == 0xffff then 16 else 32;
      assert Walks(sh, n) && x == Scale(sh, Ones(n));
    }
  }

  lemma PatternBits(s: nat, n: nat, k: nat)
    ensures Bit(Scale(s, Ones(n)), k) <==> s <= k < s + n
  {
    ScaleBit(s, Ones(n), k);
    if k >= s {
      OnesBit(n, k - s);
    }
  }

  lemma {:induction false} PatternBound(s: nat, n: nat)
    requires s + n <= 8
    ensures Scale(s, Ones(n)) < Pow(2, s + n)
    decreases s, n
  {
    if s > 0 {
      PatternBound(s - 1, n);
    } else if n > 0 {
      PatternBound(0, n - 1);
    }
  }

  lemma {:induction false} PowMonotone(a: nat, b: nat)
    requires a <= b
    ensures Pow(2, a) <= Pow(2, b)
  {
    if a < b {
      PowMonotone(a, b - 1);
    }
  }

  ghost predicate ByteRun(r: Byte, s: nat, n: nat) {
    RunOfBits(r, s, n) && (n == 1 || n == 2 || n == 4 || n == 8)
  }

  /** In one byte the patterns are the runs of 1, 2, 4 or 8 bits. */
  lemma PatternIsRun(r: Byte)
    ensures FlipPattern(r) <==> r == 0 || exists s, n :: ByteRun(r, s, n)
  {
    Pow256();
    if r != 0 && FlipPattern(r) {
      var s: nat, n: nat :| Walks(s, n) && r == Scale(s, Ones(n));
      PatternBits(s, n, s + n - 1);
      if s + n - 1 >= 8 {
        HighBitsClear(r, 8, s + n - 1);
      }
      forall k | 0 <= k < 8 ensures Bit(r, k) <==> s <= k < s + n {
        PatternBits(s, n, k);
      }
      assert ByteRun(r, s, n);
    }
    if s: nat, n: nat :| ByteRun(r, s, n) {
      RunIsPattern(r, s, n);
    }
  }

  lemma RunIsPattern(r: Byte, s: nat, n: nat)
    requires ByteRun(r, s, n)
    ensures FlipPattern(r)
  {
    var p := Scale(s, Ones(n));
    Pow256();
    PatternBound(s, n);
    PowMonotone(s + n, 8);
    forall k | 0 <= k < 8 ensures Bit(r, k) == Bit(p, k) {
      PatternBits(s, n, k);
    }
    SameBits(r, p, 8);
    assert Walks(s, n);
  }
}
