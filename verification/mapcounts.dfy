/** The fast counting and classifying loops over the coverage map. */
module MapCounts {
  import opened Bits
  import opened Bitmap

  // ----- Counting bits in parallel -----

  function PopCount(x: nat): nat {
    if x == 0 then 0 else x % 2 + PopCount(x / 2)
  }

  const M1: nat := 0x55555555
  const M2: nat := 0x33333333
  const M4: nat := 0x0F0F0F0F

  /** Bits added up in pairs, then in nibbles, then in bytes. */
  function Steps(w: nat, m1: nat, m2: nat, m4: nat): nat {
    var v := w - Bitwise(And, w / 2, m1);
    var u := if v < 0 then 0 else Bitwise(And, v, m2) + Bitwise(And, v / 4, m2);
    Bitwise(And, u + u / 16, m4)
  }

  /** The source's three steps on a 32-bit word, with the product wrapping around. */
  function ParallelCount(w: nat): int {
    Steps(w, M1, M2, M4) * 0x01010101 % 0x1_0000_0000 / 0x100_0000
  }

  /** The masks field by field: `n` fields of `Pow(2, k)` values, each holding `low`. */
  function Mask(k: nat, low: nat, n: nat): nat {
    if n == 0 then 0 else low + Scale(k, Mask(k, low, n - 1))
  }

  lemma Scales(h: nat)
    ensures Scale(1, h) == 2 * h && Scale(2, h) == 4 * h && Scale(4, h) == 16 * h && Scale(8, h) == 256 * h
  {
    Scale256(h);
    assert Scale(2, h) == 2 * Scale(1, h);
    assert Scale(4, h) == 2 * Scale(3, h);
  }

  /** A mask of ones in the low bits keeps those bits. */
  lemma LowBits(lo: nat, hi: nat, k: nat)
    requires lo < Pow(2, k)
    ensures Bitwise(And, lo + Scale(k, hi), Pow(2, k) - 1) == lo
  {
    AndAllOnes(lo, k);
    WithZero(hi);
    ScaleZero(k);
    BitwiseSplit(And, k, lo, Pow(2, k) - 1, hi, 0);
  }

  lemma {:induction false} ScaleZero(k: nat)
    ensures Scale(k, 0) == 0
  {
    if k > 0 {
      ScaleZero(k - 1);
    }
  }

  lemma Low1(c: nat)
    ensures Bitwise(And, c, 1) == c % 2
  {
    Scales(c / 2);
    assert Pow(2, 1) == 2;
    LowBits(c % 2, c / 2, 1);
  }

  lemma Low3(c: nat)
    ensures Bitwise(And, c, 3) == c % 4
  {
    Scales(c / 4);
    assert Pow(2, 1) == 2 && Pow(2, 2) == 4;
    LowBits(c % 4, c / 4, 2);
  }

  lemma Low15(c: nat)
    ensures Bitwise(And, c, 15) == c % 16
  {
    Scales(c / 16);
    assert Pow(2, 2) == 4 && Pow(2, 4) == 16;
    LowBits(c % 16, c / 16, 4);
  }

  /** Conjunction with a mask, one field at a time. */
  lemma MaskField(k: nat, low: nat, n: nat, x: nat, h: nat)
    requires n > 0 && x < Pow(2, k) && low < Pow(2, k)
    ensures Bitwise(And, x + Scale(k, h), Mask(k, low, n)) == Bitwise(And, x, low) + Scale(k, Bitwise(And, h, Mask(k, low, n - 1)))
  {
    BitwiseSplit(And, k, x, low, h, Mask(k, low, n - 1));
  }

  /** The numbers of bits in the 2-bit, 4-bit and 8-bit fields of a word, each in its field. */
  function Sums2(v: nat, n: nat): nat {
    if n == 0 then 0 else PopCount(v % 4) + 4 * Sums2(v / 4, n - 1)
  }

  function Sums4(v: nat, n: nat): nat {
    if n == 0 then 0 else PopCount(v % 16) + 16 * Sums4(v / 16, n - 1)
  }

  function Sums8(v: nat, n: nat): nat {
    if n == 0 then 0 else PopCount(v % 256) + 256 * Sums8(v / 256, n - 1)
  }

  lemma Pop4(a: nat)
    requires a < 4
    ensures PopCount(a) == a - a / 2 && PopCount(a) <= 2
  {
    assert PopCount(0) == 0 && PopCount(1) == 1;
    assert PopCount(2) == 1 && PopCount(3) == 2;
  }

  lemma {:induction false} PopSplit(k: nat, lo: nat, hi: nat)
    requires lo < Pow(2, k)
    ensures PopCount(lo + Scale(k, hi)) == PopCount(lo) + PopCount(hi)
  {
    if k > 0 {
      PopSplit(k - 1, lo / 2, hi);
      PopDouble(lo, Scale(k - 1, hi), PopCount(hi));
    }
  }

  lemma PopDouble(lo: nat, h: nat, p: nat)
    requires PopCount(lo / 2 + h) == PopCount(lo / 2) + p
    ensures PopCount(lo + 2 * h) == PopCount(lo) + p
  {
    HalfSum(lo, h);
    PopUnfold(lo);
    PopUnfold(lo + 2 * h);
  }

  lemma HalfSum(lo: nat, h: nat)
    ensures (lo + 2 * h) % 2 == lo % 2 && (lo + 2 * h) / 2 == lo / 2 + h
  {
  }

  lemma PopUnfold(x: nat)
    ensures PopCount(x) == x % 2 + PopCount(x / 2)
  {
  }

  lemma Pop16(a: nat)
    requires a < 16
    ensures PopCount(a) == PopCount(a % 4) + PopCount(a / 4) && PopCount(a) <= 4
  {
    Scales(a / 4);
    assert Pow(2, 1) == 2 && Pow(2, 2) == 4;
    PopSplit(2, a % 4, a / 4);
    Pop4(a % 4);
    Pop4(a / 4);
  }

  lemma Pop256(a: nat)
    requires a < 256
    ensures PopCount(a) == PopCount(a % 16) + PopCount(a / 16) && PopCount(a) <= 8
  {
    Scales(a / 16);
    assert Pow(2, 2) == 4 && Pow(2, 4) == 16;
    PopSplit(4, a % 16, a / 16);
    Pop16(a % 16);
    Pop16(a / 16);
  }

  /** First step: pairs of bits. */
  lemma {:induction false} FirstStep(v: nat, n: nat)
    requires v < Pow(4, n)
    ensures TakeHalves(v, n) == Sums2(v, n)
    decreases n
  {
    if n == 0 {
      WithZero(v / 2);
    } else {
      FirstStep(v / 4, n - 1);
      FirstField(v % 4, v / 4, n);
      Pop4(v % 4);
    }
  }

  function TakeHalves(x: nat, n: nat): int {
    x - Bitwise(And, x / 2, Mask(2, 1, n))
  }

  lemma FirstField(a: nat, r: nat, n: nat)
    requires n > 0 && a < 4
    ensures TakeHalves(a + 4 * r, n) == a - a / 2 + 4 * TakeHalves(r, n - 1)
  {
    NextBit(a, r);
    PairField(n, a / 2 + 2 * (r % 2), r / 2);
  }

  lemma NextBit(a: nat, r: nat)
    requires a < 4
    ensures (a + 4 * r) / 2 == a / 2 + 2 * (r % 2) + 4 * (r / 2) && (a / 2 + 2 * (r % 2)) % 2 == a / 2
  {
  }

  lemma PairField(n: nat, x: nat, h: nat)
    requires n > 0 && x < 4
    ensures Bitwise(And, x + 4 * h, Mask(2, 1, n)) == x % 2 + 4 * Bitwise(And, h, Mask(2, 1, n - 1))
  {
    assert Pow(2, 1) == 2 && Pow(2, 2) == 4;
    Scales(h);
    Scales(Bitwise(And, h, Mask(2, 1, n - 1)));
    MaskField(2, 1, n, x, h);
    Low1(x);
  }

  /** Second step: pairs into nibbles. */
  lemma {:induction false} SecondStep(v: nat, n: nat)
    ensures AddPairs(Sums2(v, 2 * n), n) == Sums4(v, n)
    decreases n
  {
    if n == 0 {
      WithZero(0);
    } else {
      SecondStep(v / 16, n - 1);
      SecondNibble(v, n, Sums2(v / 16, 2 * (n - 1)), Sums2(v, 2 * n));
    }
  }

  lemma SecondNibble(v: nat, n: nat, w: nat, x: nat)
    requires n > 0 && w == Sums2(v / 16, 2 * (n - 1)) && x == Sums2(v, 2 * n)
    ensures AddPairs(x, n) == PopCount(v % 16) + 16 * AddPairs(w, n - 1)
  {
    var p, q := PopCount(v % 4), PopCount(v / 4 % 4);
    Sums2Twice(v, n);
    Pop4(v % 4);
    Pop4(v / 4 % 4);
    Nibbles(v, p, q);
    SecondField(p, q, w, n);
  }

  function AddPairs(x: nat, n: nat): nat {
    Bitwise(And, x, Mask(4, 3, n)) + Bitwise(And, x / 4, Mask(4, 3, n))
  }

  lemma Sums2Twice(v: nat, n: nat)
    requires n > 0
    ensures Sums2(v, 2 * n) == PopCount(v % 4) + 4 * PopCount(v / 4 % 4) + 16 * Sums2(v / 16, 2 * (n - 1))
  {
    assert v / 4 / 4 == v / 16;
    assert Sums2(v / 4, 2 * n - 1) == PopCount(v / 4 % 4) + 4 * Sums2(v / 16, 2 * (n - 1));
  }

  lemma Nibbles(v: nat, p: nat, q: nat)
    requires p == PopCount(v % 4) && q == PopCount(v / 4 % 4)
    ensures PopCount(v % 16) == p + q
  {
    Digits4(v);
    Pop16(v % 16);
  }

  lemma Digits4(v: nat)
    ensures v % 16 % 4 == v % 4 && v % 16 / 4 == v / 4 % 4
  {
    var k, q, p := v / 16, v % 16 / 4, v % 4;
    assert v == 16 * k + 4 * q + p;
    assert v / 4 == 4 * k + q;
  }

  lemma Digits16(v: nat)
    ensures v % 256 % 16 == v % 16 && v % 256 / 16 == v / 16 % 16
  {
    var k, q, p := v / 256, v % 256 / 16, v % 16;
    assert v == 256 * k + 16 * q + p;
    assert v / 16 == 16 * k + q;
  }

  lemma SecondField(p: nat, q: nat, w: nat, n: nat)
    requires n > 0 && p <= 2 && q <= 2
    ensures AddPairs(p + 4 * q + 16 * w, n) == p + q + 16 * AddPairs(w, n - 1)
  {
    NextPair(p, q, w);
    NibbleField(n, p + 4 * q, w);
    NibbleField(n, q + 4 * (w % 4), w / 4);
  }

  lemma NextPair(p: nat, q: nat, w: nat)
    requires p <= 2 && q <= 2
    ensures (p + 4 * q + 16 * w) / 4 == q + 4 * (w % 4) + 16 * (w / 4)
    ensures (p + 4 * q) % 4 == p && (q + 4 * (w % 4)) % 4 == q
  {
  }

  lemma NibbleField(n: nat, x: nat, h: nat)
    requires n > 0 && x < 16
    ensures Bitwise(And, x + 16 * h, Mask(4, 3, n)) == x % 4 + 16 * Bitwise(And, h, Mask(4, 3, n - 1))
  {
    assert Pow(2, 2) == 4 && Pow(2, 4) == 16;
    Scales(h);
    Scales(Bitwise(And, h, Mask(4, 3, n - 1)));
    MaskField(4, 3, n, x, h);
    Low3(x);
  }

  /** Third step: nibbles into bytes, with one mask after the addition. */
  lemma {:induction false} ThirdStep(v: nat, n: nat)
    ensures AddNibbles(Sums4(v, 2 * n), n) == Sums8(v, n)
    decreases n
  {
    if n == 0 {
      WithZero(0);
    } else {
      ThirdStep(v / 256, n - 1);
      ThirdByte(v, n, Sums4(v / 256, 2 * (n - 1)), Sums4(v, 2 * n));
    }
  }

  lemma ThirdByte(v: nat, n: nat, w: nat, x: nat)
    requires n > 0 && w == Sums4(v / 256, 2 * (n - 1)) && x == Sums4(v, 2 * n)
    ensures AddNibbles(x, n) == PopCount(v % 256) + 256 * AddNibbles(w, n - 1)
  {
    var s, t := PopCount(v % 16), PopCount(v / 16 % 16);
    Sums4Twice(v, n);
    LowNibble(v / 256, 2 * (n - 1));
    Pop16(v % 16);
    Pop16(v / 16 % 16);
    BytePop(v, s, t);
    ThirdField(s, t, w, n);
  }

  function AddNibbles(x: nat, n: nat): nat {
    Bitwise(And, x + x / 16, Mask(8, 15, n))
  }

  lemma LowNibble(v: nat, n: nat)
    ensures Sums4(v, n) % 16 <= 4
  {
    if n > 0 {
      var s, r := PopCount(v % 16), Sums4(v / 16, n - 1);
      Pop16(v % 16);
      NoCarry(s, r);
    }
  }

  lemma NoCarry(s: nat, r: nat)
    requires s < 16
    ensures (s + 16 * r) % 16 == s
  {
  }

  lemma Sums4Twice(v: nat, n: nat)
    requires n > 0
    ensures Sums4(v, 2 * n) == PopCount(v % 16) + 16 * PopCount(v / 16 % 16) + 256 * Sums4(v / 256, 2 * (n - 1))
  {
    assert v / 16 / 16 == v / 256;
    assert Sums4(v / 16, 2 * n - 1) == PopCount(v / 16 % 16) + 16 * Sums4(v / 256, 2 * (n - 1));
  }

  lemma BytePop(v: nat, s: nat, t: nat)
    requires s == PopCount(v % 16) && t == PopCount(v / 16 % 16)
    ensures PopCount(v % 256) == s + t
  {
    Digits16(v);
    Pop256(v % 256);
  }

  lemma ThirdField(s: nat, t: nat, w: nat, n: nat)
    requires n > 0 && s <= 4 && t <= 4 && w % 16 <= 4
    ensures AddNibbles(s + 16 * t + 256 * w, n) == s + t + 256 * AddNibbles(w, n - 1)
  {
    NextNibble(s, t, w);
    ByteField(n, s + t + 16 * (t + w % 16), w + w / 16);
  }

  lemma NextNibble(s: nat, t: nat, w: nat)
    requires s <= 4 && t <= 4 && w % 16 <= 4
    ensures var x := s + 16 * t + 256 * w; x + x / 16 == s + t + 16 * (t + w % 16) + 256 * (w + w / 16)
    ensures (s + t + 16 * (t + w % 16)) % 16 == s + t
  {
    assert (s + 16 * t + 256 * w) / 16 == t + 16 * w;
  }

  lemma ByteField(n: nat, x: nat, h: nat)
    requires n > 0 && x < 256
    ensures Bitwise(And, x + 256 * h, Mask(8, 15, n)) == x % 16 + 256 * Bitwise(And, h, Mask(8, 15, n - 1))
  {
    Pow256();
    Scales(h);
    Scales(Bitwise(And, h, Mask(8, 15, n - 1)));
    MaskField(8, 15, n, x, h);
    Low15(x);
  }

  /** The product adds up the four bytes in its top byte. */
  lemma LastStep(a: nat, b: nat, c: nat, d: nat)
    requires a <= 8 && b <= 8 && c <= 8 && d <= 8
    ensures (a + 256 * (b + 256 * (c + 256 * d))) * 0x01010101 % 0x1_0000_0000 / 0x100_0000 == a + b + c + d
  {
    TopByte(b + c + d + 256 * (c + d) + 65536 * d, a + b + c + d, a + 256 * (a + b) + 65536 * (a + b + c));
  }

  lemma TopByte(high: nat, top: nat, low: nat)
    requires top < 256 && low < 0x100_0000
    ensures (0x1_0000_0000 * high + 0x100_0000 * top + low) % 0x1_0000_0000 / 0x100_0000 == top
  {
    var r := 0x100_0000 * top + low;
    assert (0x1_0000_0000 * high + r) % 0x1_0000_0000 == r;
  }

  lemma MaskConstants(n: nat)
    requires n == 4
    ensures Mask(2, 1, 4 * n) == M1 && Mask(4, 3, 2 * n) == M2 && Mask(8, 15, n) == M4 && Pow(4, 4 * n) == 0x1_0000_0000
  {
    Mask1(4);
    Mask1(8);
    Mask1(12);
    Mask1(16);
    Mask2(4);
    Mask2(8);
    Mask4(4);
    assert Pow(4, 4) == 256 && Pow(4, 8) == 65536 && Pow(4, 12) == 0x100_0000;
  }

  lemma Mask1(n: nat)
    requires n >= 4
    ensures Mask(2, 1, n) == 0x55 + 256 * Mask(2, 1, n - 4)
  {
    Scales(Mask(2, 1, n - 1));
    Scales(Mask(2, 1, n - 2));
    Scales(Mask(2, 1, n - 3));
    Scales(Mask(2, 1, n - 4));
  }

  lemma Mask2(n: nat)
    requires n >= 4
    ensures Mask(4, 3, n) == 0x3333 + 65536 * Mask(4, 3, n - 4)
  {
    Scales(Mask(4, 3, n - 1));
    Scales(Mask(4, 3, n - 2));
    Scales(Mask(4, 3, n - 3));
    Scales(Mask(4, 3, n - 4));
  }

  lemma Mask4(n: nat)
    requires n == 4
    ensures Mask(8, 15, n) == M4
  {
    Scales(Mask(8, 15, 3));
    Scales(Mask(8, 15, 2));
    Scales(Mask(8, 15, 1));
    Scales(Mask(8, 15, 0));
  }

  lemma StepsGiveSums(w: nat, n: nat)
    requires w < Pow(4, 4 * n)
    ensures Steps(w, Mask(2, 1, 4 * n), Mask(4, 3, 2 * n), Mask(8, 15, n)) == Sums8(w, n)
  {
    FirstStep(w, 4 * n);
    SecondStep(w, 2 * n);
    ThirdStep(w, n);
  }

  /** For every 32-bit word the parallel addition counts its bits. */
  lemma ParallelCountIsPopCount(w: nat)
    requires w < 0x1_0000_0000
    ensures ParallelCount(w) == PopCount(w)
  {
    var n := 4;
    MaskConstants(n);
    StepsGiveSums(w, n);
    FourBytes(w, n);
  }

  lemma FourBytes(w: nat, n: nat)
    requires w < 0x1_0000_0000 && n == 4
    ensures Sums8(w, n) * 0x01010101 % 0x1_0000_0000 / 0x100_0000 == PopCount(w)
  {
    var a, b, c, d := FourCounts(w, n);
    LastStep(a, b, c, d);
  }

  /** The four counts of a word's bytes, nested as the sums are. */
  lemma FourCounts(w: nat, n: nat) returns (a: nat, b: nat, c: nat, d: nat)
    requires w < 0x1_0000_0000 && n == 4
    ensures a <= 8 && b <= 8 && c <= 8 && d <= 8 && PopCount(w) == a + b + c + d
    ensures Sums8(w, n) == a + 256 * (b + 256 * (c + 256 * d))
  {
    var x, y, z := w / 256, w / 65536, w / 0x100_0000;
    Thirds(w);
    a, b, c, d := PopCount(w % 256), PopCount(x % 256), PopCount(y % 256), PopCount(z);
    Sums8Unfold(w, n);
    Sums8Unfold(x, n - 1);
    LastCounts(y, z, n - 2);
  }

  lemma LastCounts(y: nat, z: nat, n: nat)
    requires n == 2 && z == y / 256 && z < 256
    ensures Sums8(y, n) == PopCount(y % 256) + 256 * PopCount(z)
    ensures PopCount(y) == PopCount(y % 256) + PopCount(z) && PopCount(y % 256) <= 8 && PopCount(z) <= 8
  {
    Sums8Unfold(y, n);
    Sums8Unfold(z, n - 1);
  }

  lemma Thirds(w: nat)
    requires w < 0x1_0000_0000
    ensures w / 256 / 256 == w / 65536 && w / 65536 / 256 == w / 0x100_0000 && w / 0x100_0000 < 256
  {
  }

  lemma Sums8Unfold(v: nat, n: nat)
    requires n > 0
    ensures Sums8(v, n) == PopCount(v % 256) + 256 * Sums8(v / 256, n - 1)
    ensures PopCount(v) == PopCount(v % 256) + PopCount(v / 256)
    ensures PopCount(v % 256) <= 8
  {
    PopBytes(v % 256, v / 256);
    Pop256(v % 256);
  }

  lemma PopBytes(b: Byte, h: nat)
    ensures PopCount(b + 256 * h) == PopCount(b) + PopCount(h)
  {
    Pow256();
    Scales(h);
    PopSplit(8, b, h);
  }

  // ----- The three counts -----

  function TotalBits(mem: seq<Byte>): nat {
    if mem == [] then 0 else PopCount(mem[0]) + TotalBits(mem[1..])
  }

  /** How many bytes satisfy a test. */
  function Matching(mem: seq<Byte>, p: Byte -> bool): nat {
    if mem == [] then 0 else (if p(mem[0]) then 1 else 0) + Matching(mem[1..], p)
  }

  predicate IsSet(b: Byte) { b != 0 }
  predicate IsNot255(b: Byte) { b != 255 }

  lemma {:induction false} TotalBitsAppend(a: seq<Byte>, b: seq<Byte>)
    ensures TotalBits(a + b) == TotalBits(a) + TotalBits(b)
  {
    if a == [] {
      assert a + b == b;
    } else {
      TotalBitsAppend(a[1..], b);
      assert (a + b)[1..] == a[1..] + b;
    }
  }

  lemma {:induction false} MatchingAppend(a: seq<Byte>, b: seq<Byte>, p: Byte -> bool)
    ensures Matching(a + b, p) == Matching(a, p) + Matching(b, p)
  {
    if a == [] {
      assert a + b == b;
    } else {
      MatchingAppend(a[1..], b, p);
      assert (a + b)[1..] == a[1..] + b;
    }
  }

  lemma {:induction false} PopCountOfWord(bytes: seq<Byte>)
    ensures PopCount(Word(bytes)) == TotalBits(bytes)
  {
    if bytes != [] {
      PopCountOfWord(bytes[1..]);
      PopBytes(bytes[0], Word(bytes[1..]));
    }
  }

  function Value4(a: nat, b: nat, c: nat, d: nat): nat {
    a + 256 * (b + 256 * (c + 256 * d))
  }

  /** A word of four bytes. */
  lemma Word4(a: Byte, b: Byte, c: Byte, d: Byte)
    ensures Word([a, b, c, d]) == Value4(a, b, c, d)
  {
    assert Word([]) == 0;
    assert [d][1..] == [] && Word([d]) == d;
    assert [c, d][1..] == [d] && Word([c, d]) == c + 256 * d;
    assert [b, c, d][1..] == [c, d];
    assert [a, b, c, d][1..] == [b, c, d];
  }

  lemma Quad(m: seq<Byte>)
    requires |m| == 4
    ensures m == [m[0], m[1], m[2], m[3]]
    ensures Word(m) == Value4(m[0], m[1], m[2], m[3]) < 0x1_0000_0000
  {
    assert m == [m[0], m[1], m[2], m[3]];
    Word4(m[0], m[1], m[2], m[3]);
  }

  method CountBits(mem: array<Byte>, words: nat) returns (ret: nat)
    requires mem.Length == SizeOf(words, 4)
    ensures ret == TotalBits(mem[..])
  {
    ret := 0;
    var i, at := words, 0;
    while i > 0
      invariant 0 <= at && at + SizeOf(i, 4) == mem.Length
      invariant ret == TotalBits(mem[..at])
    {
      ghost var m := mem[at..at + 4];
      var v := Word(mem[at..at + 4]);
      TotalBitsAppend(mem[..at], m);
      assert mem[..at + 4] == mem[..at] + m;
      var found := WordBits(v, m);
      ret := ret + found;
      i, at := i - 1, at + 4;
    }
    assert mem[..at] == mem[..];
  }

  method WordBits(v: nat, ghost m: seq<Byte>) returns (ret: nat)
    requires |m| == 4 && v == Word(m)
    ensures ret == TotalBits(m)
  {
    Quad(m);
    PopCountOfWord(m);
    if v == 0xffffffff {
      AllOnesCount(v);
      return 32;
    }
    ParallelCountIsPopCount(v);
    return ParallelCount(v);
  }

  lemma AllOnesCount(v: nat)
    requires v == 0xffffffff
    ensures PopCount(v) == 32
  {
    PopBytes(255, 0xffffff);
    PopBytes(255, 0xffff);
    PopBytes(255, 0xff);
    assert PopCount(15) == 4;
    Pop256(255);
  }

  // ----- Bytes of a word through masks -----

  /** The mask that keeps byte `k` of a 32-bit word. */
  function FF(k: nat): nat
    requires k < 4
  {
    if k == 0 then 0xff else if k == 1 then 0xff00 else if k == 2 then 0xff0000 else 0xff000000
  }

  /** The four tests see the four bytes. */
  lemma MaskSeesByte(m: seq<Byte>, k: nat)
    requires |m| == 4 && k < 4
    ensures Bitwise(And, Word(m), FF(k)) != 0 <==> m[k] != 0
    ensures Bitwise(And, Word(m), FF(k)) != FF(k) <==> m[k] != 255
  {
    MaskKeepsByte(m, k);
    OnlyByte(m[k], k);
    OnlyByte(255, k);
  }

  /** The word whose only byte that may be set is byte `k`. */
  function Only(b: Byte, k: nat): seq<Byte>
    requires k < 4
  {
    [0, 0, 0, 0][k := b]
  }

  lemma OnlyByte(b: Byte, k: nat)
    requires k < 4
    ensures Word(Only(b, k)) == Value4(if k == 0 then b else 0, if k == 1 then b else 0, if k == 2 then b else 0, if k == 3 then b else 0)
  {
    Quad(Only(b, k));
  }

  lemma MaskKeepsByte(m: seq<Byte>, k: nat)
    requires |m| == 4 && k < 4
    ensures Bitwise(And, Word(m), FF(k)) == Word(Only(m[k], k))
  {
    WordwiseIsBytewise(And, m, Only(255, k));
    KeptIsOnly(m, k);
    MaskIsOnly(k);
  }

  lemma KeptIsOnly(m: seq<Byte>, k: nat)
    requires |m| == 4 && k < 4
    ensures Bytewise(And, m, Only(255, k)) == Only(m[k], k)
  {
    var mask := Only(255, k);
    KeptByte(m[0], mask[0]);
    KeptByte(m[1], mask[1]);
    KeptByte(m[2], mask[2]);
    KeptByte(m[3], mask[3]);
  }

  lemma KeptByte(b: Byte, mask: Byte)
    requires mask == 255 || mask == 0
    ensures OnBytes(And, b, mask) == if mask == 255 then b else 0
  {
    PristineIsNew(b);
    WithZero(b);
  }

  lemma MaskIsOnly(k: nat)
    requires k < 4
    ensures FF(k) == Word(Only(255, k))
  {
    OnlyByte(255, k);
  }

  lemma MatchingQuad(m: seq<Byte>, p: Byte -> bool)
    requires |m| == 4
    ensures Matching(m, p) == One(p(m[0])) + One(p(m[1])) + One(p(m[2])) + One(p(m[3]))
  {
    var a, b, c, d := m[0], m[1], m[2], m[3];
    Quad(m);
    assert Matching([d], p) == One(p(d)) by { assert [d][1..] == []; }
    assert Matching([c, d], p) == One(p(c)) + One(p(d)) by { assert [c, d][1..] == [d]; }
    assert Matching([b, c, d], p) == One(p(b)) + One(p(c)) + One(p(d)) by { assert [b, c, d][1..] == [c, d]; }
    assert [a, b, c, d][1..] == [b, c, d];
  }

  method CountBytes(mem: array<Byte>, words: nat) returns (ret: nat)
    requires mem.Length == SizeOf(words, 4)
    ensures ret == Matching(mem[..], IsSet)
  {
    ret := 0;
    var i, at := words, 0;
    while i > 0
      invariant 0 <= at && at + SizeOf(i, 4) == mem.Length
      invariant ret == Matching(mem[..at], IsSet)
    {
      ghost var m := mem[at..at + 4];
      var v := Word(mem[at..at + 4]);
      MatchingAppend(mem[..at], m, IsSet);
      assert mem[..at + 4] == mem[..at] + m;
      var found := BytesSet(v, m);
      ret := ret + found;
      i, at := i - 1, at + 4;
    }
    assert mem[..at] == mem[..];
  }

  method BytesSet(v: nat, ghost m: seq<Byte>) returns (ret: nat)
    requires |m| == 4 && v == Word(m)
    ensures ret == Matching(m, IsSet)
  {
    MatchingQuad(m, IsSet);
    WordZero(m);
    ret := 0;
    if v == 0 {
      return;
    }
    MaskSeesByte(m, 0);
    MaskSeesByte(m, 1);
    MaskSeesByte(m, 2);
    MaskSeesByte(m, 3);
    if Bitwise(And, v, FF(0)) != 0 { ret := ret + 1; }
    if Bitwise(And, v, FF(1)) != 0 { ret := ret + 1; }
    if Bitwise(And, v, FF(2)) != 0 { ret := ret + 1; }
    if Bitwise(And, v, FF(3)) != 0 { ret := ret + 1; }
  }

  method CountNon255Bytes(mem: array<Byte>, words: nat) returns (ret: nat)
    requires mem.Length == SizeOf(words, 4)
    ensures ret == Matching(mem[..], IsNot255)
  {
    ret := 0;
    var i, at := words, 0;
    while i > 0
      invariant 0 <= at && at + SizeOf(i, 4) == mem.Length
      invariant ret == Matching(mem[..at], IsNot255)
    {
      ghost var m := mem[at..at + 4];
      var v := Word(mem[at..at + 4]);
      MatchingAppend(mem[..at], m, IsNot255);
      assert mem[..at + 4] == mem[..at] + m;
      var found := BytesNot255(v, m);
      ret := ret + found;
      i, at := i - 1, at + 4;
    }
    assert mem[..at] == mem[..];
  }

  method BytesNot255(v: nat, ghost m: seq<Byte>) returns (ret: nat)
    requires |m| == 4 && v == Word(m)
    ensures ret == Matching(m, IsNot255)
  {
    MatchingQuad(m, IsNot255);
    Quad(m);
    ret := 0;
    if v == 0xffffffff {
      return;
    }
    MaskSeesByte(m, 0);
    MaskSeesByte(m, 1);
    MaskSeesByte(m, 2);
    MaskSeesByte(m, 3);
    if Bitwise(And, v, FF(0)) != FF(0) { ret := ret + 1; }
    if Bitwise(And, v, FF(1)) != FF(1) { ret := ret + 1; }
    if Bitwise(And, v, FF(2)) != FF(2) { ret := ret + 1; }
    if Bitwise(And, v, FF(3)) != FF(3) { ret := ret + 1; }
  }

  // ----- Hit count classes -----

  /** The class of a hit count: one bit for each bucket. */
  function Class(b: Byte): Byte {
    if b <= 2 then b else if b == 3 then 4 else if b <= 7 then 8 else if b <= 15 then 16
    else if b <= 31 then 32 else if b <= 127 then 64 else 128
  }

  /** The least counts of the buckets, and the bit of each. */
  const BUCKETS: seq<nat> := [1, 2, 3, 4, 8, 16, 32, 128]
  const BITS: seq<nat> := [1, 2, 4, 8, 16, 32, 64, 128]

  ghost predicate InBucket(b: Byte, k: nat) {
    k < 8 && BUCKETS[k] <= b && (k < 7 ==> b < BUCKETS[k + 1])
  }

  /** A class is the bit of its bucket, and 0 just for no hits; it grows with the count exactly
      where a bucket begins. */
  lemma ClassMeaning(a: Byte, b: Byte)
    ensures Class(b) == 0 <==> b == 0
    ensures b > 0 ==> exists k: nat :: InBucket(b, k) && Class(b) == BITS[k]
    ensures a <= b ==> Class(a) <= Class(b)
    ensures Class(a) < Class(b) <==> exists k: nat :: k < 8 && a < BUCKETS[k] <= b
  {
    if b > 0 {
      var k: nat := if b < 4 then b - 1 else if b < 8 then 3 else if b < 16 then 4 else if b < 32 then 5 else if b < 128 then 6 else 7;
      assert InBucket(b, k) && Class(b) == BITS[k];
      assert Class(a) < Class(b) ==> a < BUCKETS[k];
    }
  }

  function Class16(b1: Byte, b2: Byte): nat {
    Bitwise(Or, Class(b1) * 256, Class(b2))
  }

  lemma ClassPair(b1: Byte, b2: Byte)
    ensures Class16(b1, b2) == 256 * Class(b1) + Class(b2)
  {
    SplitByte(Or, 0, Class(b2), Class(b1), 0);
    WithZero(Class(b1));
    WithZero(Class(b2));
  }

  ghost predicate TableRow(table: seq<nat>, b1: nat, n: nat)
    requires |table| == 65536 && b1 < 256 && n <= 256
  {
    forall b2 :: 0 <= b2 < n ==> table[b1 * 256 + b2] == Class16(b1, b2)
  }

  method InitCountClass16() returns (table: array<nat>)
    ensures fresh(table) && table.Length == 65536
    ensures forall b1 :: 0 <= b1 < 256 ==> TableRow(table[..], b1, 256)
  {
    table := new nat[65536];
    for b1 := 0 to 256
      invariant forall b :: 0 <= b < b1 ==> TableRow(table[..], b, 256)
    {
      for b2 := 0 to 256
        invariant forall b :: 0 <= b < b1 ==> TableRow(table[..], b, 256)
        invariant TableRow(table[..], b1, b2)
      {
        ghost var was := table[..];
        table[b1 * 256 + b2] := Class16(b1, b2);
        forall b | 0 <= b < b1 ensures TableRow(table[..], b, 256) {
          assert TableRow(was, b, 256);
        }
      }
    }
  }

  /** One 16-bit lookup does two bytes. */
  lemma LookupIsClass(table: seq<nat>, lo: Byte, hi: Byte)
    requires |table| == 65536 && TableRow(table, hi, 256)
    ensures table[hi * 256 + lo] % 256 == Class(lo) && table[hi * 256 + lo] / 256 == Class(hi)
  {
    ClassPair(hi, lo);
  }

  ghost predicate ClassedUpTo(now: seq<Byte>, before: seq<Byte>, at: nat)
    requires |now| == |before|
  {
    forall k :: 0 <= k < |now| ==> now[k] == if k < at then Class(before[k]) else before[k]
  }

  /** The halfword at `at`, read and written least significant byte first. */
  method ClassifyHalf(mem: array<Byte>, table: array<nat>, at: nat, ghost before: seq<Byte>)
    requires table.Length == 65536 && at + 2 <= mem.Length == |before|
    requires forall b1 :: 0 <= b1 < 256 ==> TableRow(table[..], b1, 256)
    requires ClassedUpTo(mem[..], before, at)
    modifies mem
    ensures ClassedUpTo(mem[..], before, at + 2)
  {
    var half := Word(mem[at..at + 2]);
    ghost var lo, hi := mem[at], mem[at + 1];
    Word2(mem[at..at + 2]);
    assert TableRow(table[..], hi, 256);
    LookupIsClass(table[..], lo, hi);
    var c := table[half];
    mem[at] := c % 256;
    mem[at + 1] := c / 256;
  }

  lemma Word2(m: seq<Byte>)
    requires |m| == 2
    ensures Word(m) == (m[0] as int) + 256 * (m[1] as int)
  {
    assert m[1..] == [m[1]];
    assert Word([]) == 0;
    assert [m[1]][1..] == [];
    assert Word([m[1]]) == m[1];
  }

  method ClassifyCounts(mem: array<Byte>, table: array<nat>, words: nat)
    requires mem.Length == SizeOf(words, 8) && table.Length == 65536
    requires forall b1 :: 0 <= b1 < 256 ==> TableRow(table[..], b1, 256)
    modifies mem
    ensures forall k :: 0 <= k < mem.Length ==> mem[k] == Class(old(mem[k]))
  {
    ghost var before := mem[..];
    var i, at := words, 0;
    while i > 0
      invariant 0 <= at && at + SizeOf(i, 8) == mem.Length
      invariant ClassedUpTo(mem[..], before, at)
    {
      if Word(mem[at..at + 8]) != 0 {
        ClassifyHalf(mem, table, at, before);
        ClassifyHalf(mem, table, at + 2, before);
        ClassifyHalf(mem, table, at + 4, before);
        ClassifyHalf(mem, table, at + 6, before);
      } else {
        WordZero(mem[at..at + 8]);
        forall k | at <= k < at + 8 ensures mem[k] == Class(before[k]) {
          assert mem[at..at + 8][k - at] == 0;
        }
      }
      i, at := i - 1, at + 8;
    }
  }
}
