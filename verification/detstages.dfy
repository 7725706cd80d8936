/** The deterministic stages that change single bytes, and what they may leave out. */
module DetStages {
  import opened Bits
  import opened Config
  import opened Flips

  /** Interesting value number `j` as a byte. */
  function Interesting(j: nat): Byte
    requires j < |INTERESTING_8|
  {
    INTERESTING_8[j] % 256
  }

  /** The effector map keeps the block of eight bytes that position `i` is in. */
  predicate Kept(eff: seq<bool>, i: nat) {
    i / 8 < |eff| && eff[i / 8]
  }

  // ----- Arithmetic on a byte -----

  function Plus(o: Byte, j: nat): Byte {
    (o + j) % 256
  }

  function Minus(o: Byte, j: nat): Byte {
    (o - j) % 256
  }

  ghost predicate ArithValue(o: Byte, v: Byte) {
    exists j :: 1 <= j <= ARITH_MAX && (v == Plus(o, j) || v == Minus(o, j))
  }

  /** The test for one byte. */
  predicate CouldBeArith(o: Byte, v: Byte) {
    o == v || (o - v) % 256 <= ARITH_MAX || (v - o) % 256 <= ARITH_MAX
  }

  lemma CouldBeArithMeans(o: Byte, v: Byte)
    ensures CouldBeArith(o, v) <==> o == v || ArithValue(o, v)
  {
    Wraps(v - o);
    Wraps(o - v);
    if o != v && (v - o) % 256 <= ARITH_MAX {
      var j := (v - o) % 256;
      Wraps(o + j);
      assert v == Plus(o, j);
    } else if o != v && (o - v) % 256 <= ARITH_MAX {
      var j := (o - v) % 256;
      Wraps(o - j);
      assert v == Minus(o, j);
    }
    if j :| 1 <= j <= ARITH_MAX && (v == Plus(o, j) || v == Minus(o, j)) {
      Wraps(o + j);
      Wraps(o - j);
    }
  }

  /** The remainder of a number not far out of a byte's range. */
  lemma Wraps(d: int)
    requires -256 < d < 512
    ensures d % 256 == if d < 0 then d + 256 else if d < 256 then d else d - 256
  {
  }

  // ----- What each stage runs -----

  ghost predicate FlippedBits(x: Data, d: Data, n: nat, below: nat) {
    exists b :: 0 <= b < below && b + n <= 8 * |x| && d == FlipRange(x, b, n)
  }

  ghost predicate AnyKept(eff: seq<bool>, i: nat, m: nat) {
    exists k :: i <= k < i + m && Kept(eff, k)
  }

  /** Flips of `m` bytes; single bytes are flipped at every position. */
  ghost predicate FlippedBytes(x: Data, d: Data, m: nat, eff: seq<bool>, below: nat) {
    exists i :: 0 <= i < below && i + m <= |x| && (m == 1 || AnyKept(eff, i, m)) && d == FlipRange(x, 8 * i, 8 * m)
  }

  ghost predicate NewByte(x: Data, d: Data, i: nat, v: Byte)
    requires i < |x|
  {
    !FlipPattern(Change(x[i], v)) && d == x[i := v]
  }

  ghost predicate NewArith(x: Data, d: Data, i: nat, most: nat)
    requires i < |x|
  {
    exists j :: 1 <= j <= most && (NewByte(x, d, i, Plus(x[i], j)) || NewByte(x, d, i, Minus(x[i], j)))
  }

  ghost predicate NewInterest(x: Data, d: Data, i: nat, most: nat)
    requires i < |x|
  {
    exists j :: 0 <= j < most && j < |INTERESTING_8| && !CouldBeArith(x[i], Interesting(j)) && NewByte(x, d, i, Interesting(j))
  }

  ghost predicate ArithUpTo(x: Data, d: Data, eff: seq<bool>, below: nat) {
    exists i :: 0 <= i < below && i < |x| && Kept(eff, i) && NewArith(x, d, i, ARITH_MAX)
  }

  ghost predicate InterestUpTo(x: Data, d: Data, eff: seq<bool>, below: nat) {
    exists i :: 0 <= i < below && i < |x| && Kept(eff, i) && NewInterest(x, d, i, |INTERESTING_8|)
  }

  // ----- The flipping stages -----

  method FlipBits(outBuf: array<Byte>, b: nat, n: nat)
    requires b + n <= 8 * outBuf.Length
    modifies outBuf
    ensures outBuf[..] == FlipRange(old(outBuf[..]), b, n)
  {
    ghost var x := outBuf[..];
    for k := 0 to n
      invariant outBuf[..] == FlipRange(x, b, k)
    {
      var at := b + k;
      outBuf[at / 8] := OnBytes(Xor, outBuf[at / 8], HighBit(at % 8));
    }
  }

  /** The data that were run are collected in a set. */
  method FlipBitsStage(outBuf: array<Byte>, n: nat, ran0: set<Data>) returns (ran: set<Data>)
    modifies outBuf
    ensures outBuf[..] == old(outBuf[..])
    ensures forall d :: d in ran <==> d in ran0 || FlippedBits(outBuf[..], d, n, 8 * outBuf.Length)
  {
    ghost var x := outBuf[..];
    ran := ran0;
    var b := 0;
    while b + n <= 8 * outBuf.Length && b < 8 * outBuf.Length
      invariant 0 <= b <= 8 * outBuf.Length && outBuf[..] == x
      invariant forall d :: d in ran <==> d in ran0 || FlippedBits(x, d, n, b)
    {
      FlipBits(outBuf, b, n);
      ran := ran + {outBuf[..]};
      FlipTwice(x, b, n);
      FlipBits(outBuf, b, n);
      b := b + 1;
    }
  }

  method FlipBytes(outBuf: array<Byte>, i: nat, m: nat)
    requires i + m <= outBuf.Length
    modifies outBuf
    ensures outBuf[..] == FlipRange(old(outBuf[..]), 8 * i, 8 * m)
  {
    ghost var x := outBuf[..];
    for k := 0 to m
      invariant outBuf[..] == FlipRange(x, 8 * i, 8 * k)
    {
      FlipByte(outBuf[..], i + k, 8);
      FlipJoins(x, 8 * i, 8 * k, 8);
      outBuf[i + k] := OnBytes(Xor, outBuf[i + k], 255);
    }
  }

  method Effective(eff: seq<bool>, i: nat, m: nat) returns (any: bool)
    ensures any <==> AnyKept(eff, i, m)
  {
    any := false;
    for k := i to i + m
      invariant any <==> AnyKept(eff, i, k - i)
    {
      if Kept(eff, k) {
        any := true;
      }
    }
  }

  method FlipBytesStage(outBuf: array<Byte>, m: nat, eff: seq<bool>, ran0: set<Data>) returns (ran: set<Data>)
    modifies outBuf
    ensures outBuf[..] == old(outBuf[..])
    ensures forall d :: d in ran <==> d in ran0 || FlippedBytes(outBuf[..], d, m, eff, outBuf.Length)
  {
    ghost var x := outBuf[..];
    ran := ran0;
    var i := 0;
    while i + m <= outBuf.Length && i < outBuf.Length
      invariant 0 <= i <= outBuf.Length && outBuf[..] == x
      invariant forall d :: d in ran <==> d in ran0 || FlippedBytes(x, d, m, eff, i)
    {
      var any := Effective(eff, i, m);
      if m == 1 || any {
        FlipBytes(outBuf, i, m);
        ran := ran + {outBuf[..]};
        FlipTwice(x, 8 * i, 8 * m);
        FlipBytes(outBuf, i, m);
      }
      i := i + 1;
    }
  }

  // ----- The arithmetic and interesting value stages -----

  /** Sets byte `i` and runs, unless the change could be a flip. */
  method RunByte(outBuf: array<Byte>, i: nat, v: Byte, ran0: set<Data>) returns (ran: set<Data>)
    requires i < outBuf.Length
    modifies outBuf
    ensures outBuf[..] == old(outBuf[..])
    ensures forall d :: d in ran <==> d in ran0 || NewByte(outBuf[..], d, i, v)
  {
    ghost var x := outBuf[..];
    ran := ran0;
    var orig := outBuf[i];
    var skip := CouldBeBitflip(Change(orig, v));
    if !skip {
      outBuf[i] := v;
      assert outBuf[..] == x[i := v];
      ran := ran + {outBuf[..]};
      outBuf[i] := orig;
      assert outBuf[..] == x;
    }
  }

  method ArithByte(outBuf: array<Byte>, i: nat, ran0: set<Data>) returns (ran: set<Data>)
    requires i < outBuf.Length
    modifies outBuf
    ensures outBuf[..] == old(outBuf[..])
    ensures forall d :: d in ran <==> d in ran0 || NewArith(outBuf[..], d, i, ARITH_MAX)
  {
    ghost var x := outBuf[..];
    ran := ran0;
    var orig := outBuf[i];
    for j := 1 to ARITH_MAX + 1
      invariant outBuf[..] == x
      invariant forall d :: d in ran <==> d in ran0 || NewArith(x, d, i, j - 1)
    {
      ran := RunByte(outBuf, i, Plus(orig, j), ran);
      ran := RunByte(outBuf, i, Minus(orig, j), ran);
    }
  }

  method ArithStage(outBuf: array<Byte>, eff: seq<bool>, ran0: set<Data>) returns (ran: set<Data>)
    modifies outBuf
    ensures outBuf[..] == old(outBuf[..])
    ensures forall d :: d in ran <==> d in ran0 || ArithUpTo(outBuf[..], d, eff, outBuf.Length)
  {
    ghost var x := outBuf[..];
    ran := ran0;
    for i := 0 to outBuf.Length
      invariant outBuf[..] == x
      invariant forall d :: d in ran <==> d in ran0 || ArithUpTo(x, d, eff, i)
    {
      if Kept(eff, i) {
        ran := ArithByte(outBuf, i, ran);
      }
    }
  }

  method InterestByte(outBuf: array<Byte>, i: nat, ran0: set<Data>) returns (ran: set<Data>)
    requires i < outBuf.Length
    modifies outBuf
    ensures outBuf[..] == old(outBuf[..])
    ensures forall d :: d in ran <==> d in ran0 || NewInterest(outBuf[..], d, i, |INTERESTING_8|)
  {
    ghost var x := outBuf[..];
    ran := ran0;
    for j := 0 to |INTERESTING_8|
      invariant outBuf[..] == x
      invariant forall d :: d in ran <==> d in ran0 || NewInterest(x, d, i, j)
    {
      var v := Interesting(j);
      if !CouldBeArith(outBuf[i], v) {
        ran := RunByte(outBuf, i, v, ran);
      }
    }
  }

  method InterestStage(outBuf: array<Byte>, eff: seq<bool>, ran0: set<Data>) returns (ran: set<Data>)
    modifies outBuf
    ensures outBuf[..] == old(outBuf[..])
    ensures forall d :: d in ran <==> d in ran0 || InterestUpTo(outBuf[..], d, eff, outBuf.Length)
  {
    ghost var x := outBuf[..];
    ran := ran0;
    for i := 0 to outBuf.Length
      invariant outBuf[..] == x
      invariant forall d :: d in ran <==> d in ran0 || InterestUpTo(x, d, eff, i)
    {
      if Kept(eff, i) {
        ran := InterestByte(outBuf, i, ran);
      }
    }
  }

  // ----- Nothing is lost -----

  /** What has been run after all the flipping stages. */
  ghost predicate AfterFlips(x: Data, eff: seq<bool>, ran: set<Data>) {
    forall d :: d in ran <==> FlippedBy(x, eff, d)
  }

  ghost predicate FlippedBy(x: Data, eff: seq<bool>, d: Data) {
    || FlippedBits(x, d, 1, 8 * |x|) || FlippedBits(x, d, 2, 8 * |x|) || FlippedBits(x, d, 4, 8 * |x|)
    || FlippedBytes(x, d, 1, eff, |x|) || FlippedBytes(x, d, 2, eff, |x|) || FlippedBytes(x, d, 4, eff, |x|)
  }

  ghost predicate AfterArith(x: Data, eff: seq<bool>, flips: set<Data>, ran: set<Data>) {
    forall d :: d in ran <==> d in flips || ArithUpTo(x, d, eff, |x|)
  }

  ghost predicate AfterInterest(x: Data, eff: seq<bool>, ran0: set<Data>, ran: set<Data>) {
    forall d :: d in ran <==> d in ran0 || InterestUpTo(x, d, eff, |x|)
  }

  /** No change at all is the empty pattern. */
  lemma SameByte(x: Data, i: nat, v: Byte)
    requires i < |x|
    ensures x[i := v] == x <==> Change(x[i], v) == 0
  {
    Pow256();
    NoBits(Change(x[i], v), 8);
    forall k | 0 <= k < 8 ensures Bit(Change(x[i], v), k) <==> Bit(x[i], k) != Bit(v, k) {
      BitwiseBit(Xor, x[i], v, k);
    }
    if Change(x[i], v) == 0 {
      SameBits(x[i], v, 8);
    }
  }

  lemma RunWasFlipped(x: Data, eff: seq<bool>, i: nat, v: Byte, s: nat, n: nat)
    requires i < |x| && ByteRun(Change(x[i], v), s, n)
    ensures FlippedBy(x, eff, x[i := v])
  {
    RunIsFlip(x, i, v, s, n);
    var b := 8 * i + 8 - s - n;
    if n == 8 {
      assert FlippedBytes(x, x[i := v], n / 8, eff, |x|) by {
        assert x[i := v] == FlipRange(x, 8 * i, 8 * (n / 8));
      }
    } else {
      assert FlippedBits(x, x[i := v], n, 8 * |x|) by {
        assert 0 <= b < 8 * |x|;
      }
    }
  }

  lemma FlippedBitsIsRun(x: Data, i: nat, v: Byte, n: nat)
    requires i < |x| && (n == 1 || n == 2 || n == 4) && FlippedBits(x, x[i := v], n, 8 * |x|)
    ensures FlipPattern(Change(x[i], v))
  {
    var b :| 0 <= b < 8 * |x| && b + n <= 8 * |x| && x[i := v] == FlipRange(x, b, n);
    FlipOutside(x, i, v, b, n);
    var s := 8 * i + 8 - b - n;
    RunIsFlip(x, i, v, s, n);
    assert ByteRun(Change(x[i], v), s, n);
    PatternIsRun(Change(x[i], v));
  }

  lemma FlippedBytesIsRun(x: Data, i: nat, v: Byte, m: nat, eff: seq<bool>)
    requires i < |x| && m > 0 && FlippedBytes(x, x[i := v], m, eff, |x|)
    ensures FlipPattern(Change(x[i], v))
  {
    var k :| 0 <= k < |x| && k + m <= |x| && (m == 1 || AnyKept(eff, k, m)) && x[i := v] == FlipRange(x, 8 * k, 8 * m);
    FlipOutside(x, i, v, 8 * k, 8 * m);
    RunIsFlip(x, i, v, 0, 8 * m);
    assert ByteRun(Change(x[i], v), 0, 8 * m);
    PatternIsRun(Change(x[i], v));
  }

  /** The test for flips is exact for bytes: a change is skipped if and only if it is none, or
      its result was run by one of the flipping stages. */
  lemma FlipSkipsExactlyDone(x: Data, eff: seq<bool>, flips: set<Data>, i: nat, v: Byte)
    requires AfterFlips(x, eff, flips) && i < |x|
    ensures FlipPattern(Change(x[i], v)) <==> x[i := v] == x || x[i := v] in flips
  {
    var r, d := Change(x[i], v), x[i := v];
    SameByte(x, i, v);
    if FlipPattern(r) && r != 0 {
      PatternIsRun(r);
      var s: nat, n: nat :| ByteRun(r, s, n);
      RunWasFlipped(x, eff, i, v, s, n);
    }
    if d in flips {
      assert FlippedBy(x, eff, d);
      WasFlipped(x, eff, i, v);
    }
  }

  lemma WasFlipped(x: Data, eff: seq<bool>, i: nat, v: Byte)
    requires i < |x| && FlippedBy(x, eff, x[i := v])
    ensures FlipPattern(Change(x[i], v))
  {
    var d := x[i := v];
    if FlippedBits(x, d, 1, 8 * |x|) {
      FlippedBitsIsRun(x, i, v, 1);
    } else if FlippedBits(x, d, 2, 8 * |x|) {
      FlippedBitsIsRun(x, i, v, 2);
    } else if FlippedBits(x, d, 4, 8 * |x|) {
      FlippedBitsIsRun(x, i, v, 4);
    } else if FlippedBytes(x, d, 1, eff, |x|) {
      FlippedBytesIsRun(x, i, v, 1, eff);
    } else if FlippedBytes(x, d, 2, eff, |x|) {
      FlippedBytesIsRun(x, i, v, 2, eff);
    } else {
      FlippedBytesIsRun(x, i, v, 4, eff);
    }
  }

  /** Every value in reach of the arithmetic, at a position that the effector map keeps, is
      run by the end of the arithmetic stage, or is no change. */
  lemma ArithIsLossless(x: Data, eff: seq<bool>, flips: set<Data>, ran: set<Data>, i: nat, v: Byte)
    requires AfterFlips(x, eff, flips) && AfterArith(x, eff, flips, ran)
    requires i < |x| && Kept(eff, i) && ArithValue(x[i], v)
    ensures x[i := v] == x || x[i := v] in ran
  {
    FlipSkipsExactlyDone(x, eff, flips, i, v);
    if !FlipPattern(Change(x[i], v)) {
      var j :| 1 <= j <= ARITH_MAX && (v == Plus(x[i], j) || v == Minus(x[i], j));
      assert NewByte(x, x[i := v], i, v);
      assert NewArith(x, x[i := v], i, ARITH_MAX);
    }
  }

  /** Both tests of the interesting value stage together are exact at the positions that the
      effector map keeps. */
  lemma InterestSkipsExactlyDone(x: Data, eff: seq<bool>, flips: set<Data>, ran: set<Data>, i: nat, v: Byte)
    requires AfterFlips(x, eff, flips) && AfterArith(x, eff, flips, ran)
    requires i < |x| && Kept(eff, i)
    ensures FlipPattern(Change(x[i], v)) || CouldBeArith(x[i], v) <==> x[i := v] == x || x[i := v] in ran
  {
    var d := x[i := v];
    FlipSkipsExactlyDone(x, eff, flips, i, v);
    CouldBeArithMeans(x[i], v);
    if ArithValue(x[i], v) {
      ArithIsLossless(x, eff, flips, ran, i, v);
    }
    if d in ran && d !in flips {
      var k :| 0 <= k < |x| && Kept(eff, k) && NewArith(x, d, k, ARITH_MAX);
      ArithRunIsArith(x, i, v, k);
    }
  }

  lemma ArithRunIsArith(x: Data, i: nat, v: Byte, k: nat)
    requires i < |x| && k < |x| && NewArith(x, x[i := v], k, ARITH_MAX)
    ensures ArithValue(x[i], v)
  {
    var d := x[i := v];
    var j :| 1 <= j <= ARITH_MAX && (NewByte(x, d, k, Plus(x[k], j)) || NewByte(x, d, k, Minus(x[k], j)));
    var w := d[k];
    assert w == Plus(x[k], j) || w == Minus(x[k], j);
    SameByte(x, k, w);
    assert k == i;
  }

  lemma InterestIsLossless(x: Data, eff: seq<bool>, flips: set<Data>, ran0: set<Data>, ran: set<Data>, i: nat, j: nat)
    requires AfterFlips(x, eff, flips) && AfterArith(x, eff, flips, ran0) && AfterInterest(x, eff, ran0, ran)
    requires i < |x| && Kept(eff, i) && j < |INTERESTING_8|
    ensures x[i := Interesting(j)] == x || x[i := Interesting(j)] in ran
  {
    var v := Interesting(j);
    InterestSkipsExactlyDone(x, eff, flips, ran0, i, v);
    if !FlipPattern(Change(x[i], v)) && !CouldBeArith(x[i], v) {
      assert NewByte(x, x[i := v], i, v);
      assert NewInterest(x, x[i := v], i, |INTERESTING_8|);
    }
  }

  // ----- Without the arithmetic stage -----

  lemma InterestRunIsInterest(x: Data, i: nat, v: Byte, k: nat)
    requires i < |x| && k < |x| && NewInterest(x, x[i := v], k, |INTERESTING_8|)
    ensures !CouldBeArith(x[i], v) && !FlipPattern(Change(x[i], v))
  {
    var d := x[i := v];
    var j :| 0 <= j < |INTERESTING_8| && !CouldBeArith(x[k], Interesting(j)) && NewByte(x, d, k, Interesting(j));
    assert d[k] == Interesting(j);
    SameByte(x, k, d[k]);
    assert k == i;
  }

  /** With arithmetic switched off the interesting value stage goes on skipping what arithmetic
      would have made: a value is run, or no change, exactly when the change could be a flip
      or is out of reach of arithmetic. */
  lemma NoArithRunsIff(x: Data, eff: seq<bool>, flips: set<Data>, ran: set<Data>, i: nat, j: nat)
    requires AfterFlips(x, eff, flips) && AfterInterest(x, eff, flips, ran)
    requires i < |x| && Kept(eff, i) && j < |INTERESTING_8|
    ensures var v := Interesting(j);
            x[i := v] == x || x[i := v] in ran <==> FlipPattern(Change(x[i], v)) || !CouldBeArith(x[i], v)
  {
    var v := Interesting(j);
    var d := x[i := v];
    FlipSkipsExactlyDone(x, eff, flips, i, v);
    if InterestUpTo(x, d, eff, |x|) {
      var k :| 0 <= k < |x| && Kept(eff, k) && NewInterest(x, d, k, |INTERESTING_8|);
      InterestRunIsInterest(x, i, v, k);
    }
    if !FlipPattern(Change(x[i], v)) {
      if !CouldBeArith(x[i], v) {
        assert NewByte(x, d, i, v);
        assert NewInterest(x, d, i, |INTERESTING_8|);
      }
    }
  }

  lemma FiveToSixteen(x: Byte, y: Byte)
    requires x == 5 && y == 16
    ensures Change(x, y) == 21 && !FlipPattern(Change(x, y)) && CouldBeArith(x, y)
  {
    Unfold(Xor, x, y);
    Unfold(Xor, x / 2, y / 2);
    Unfold(Xor, x / 2 / 2, y / 2 / 2);
    Unfold(Xor, 0, y / 8);
    Unfold(Xor, 0, y / 16);
    var z := Change(x, y);
    assert Scale(0, z) == z;
    PatternOfOddPart(z, 0, z);
  }

  /** A value that is then lost: 16 in place of 5. */
  lemma NoArithLosesSixteen(x: Data, eff: seq<bool>, flips: set<Data>, ran: set<Data>, i: nat, j: nat)
    requires AfterFlips(x, eff, flips) && AfterInterest(x, eff, flips, ran)
    requires |x| == |eff| == 1 && i == 0 && x[i] == 5 && eff[i] && j == 4
    ensures Interesting(j) == 16 && x[i := Interesting(j)] != x && x[i := Interesting(j)] !in ran
  {
    FiveToSixteen(x[i], Interesting(j));
    NoArithRunsIff(x, eff, flips, ran, i, j);
  }

  // ----- All stages together -----

  /** What a stage can make of byte `i` is no change, or was run. */
  ghost predicate RunOrSame(x: Data, ran: set<Data>, i: nat, v: Byte)
    requires i < |x|
  {
    x[i := v] == x || x[i := v] in ran
  }

  lemma AllRun(x: Data, eff: seq<bool>, flips: set<Data>, ran1: set<Data>, ran: set<Data>)
    requires AfterFlips(x, eff, flips) && AfterArith(x, eff, flips, ran1) && AfterInterest(x, eff, ran1, ran)
    ensures forall i, v: Byte :: 0 <= i < |x| && Kept(eff, i) && ArithValue(x[i], v) ==> RunOrSame(x, ran, i, v)
    ensures forall i, j :: 0 <= i < |x| && Kept(eff, i) && 0 <= j < |INTERESTING_8| ==> RunOrSame(x, ran, i, Interesting(j))
  {
    forall i, v: Byte | 0 <= i < |x| && Kept(eff, i) && ArithValue(x[i], v)
      ensures RunOrSame(x, ran, i, v)
    {
      ArithIsLossless(x, eff, flips, ran1, i, v);
    }
    forall i, j | 0 <= i < |x| && Kept(eff, i) && 0 <= j < |INTERESTING_8|
      ensures RunOrSame(x, ran, i, Interesting(j))
    {
      InterestIsLossless(x, eff, flips, ran1, ran, i, j);
    }
  }
}
