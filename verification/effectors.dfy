/** The effector map: which blocks of eight bytes the later stages work on, and all the byte
    stages together with the map that they build. */
module Effectors {
  import opened Bits
  import opened Config
  import opened Flips
  import opened DetStages

  const EFF_MIN_LEN := 128
  const EFF_MAX_PERC := 90

  /** The entry that is fuzzed: the checksum of its trace, and that of any other data; in dumb
      mode checksums are not looked at. */
  datatype Subject = Subject(execCksum: int, dumb: bool, cksum: Data -> int)

  /** Flipping byte `i` changes the trace; in dumb mode, and for short data, every byte counts as
      one that does. */
  ghost predicate HasEffect(s: Subject, x: Data, i: nat) {
    i < |x| && (s.dumb || |x| < EFF_MIN_LEN || s.cksum(FlipRange(x, 8 * i, 8)) != s.execCksum)
  }

  /** Block `b` is the first or the last one, or has a byte with an effect among the first `below`. */
  ghost predicate Marked(s: Subject, x: Data, b: nat, below: nat) {
    b == 0 || 8 * b < |x| <= 8 * b + 8 || exists i :: 8 * b <= i < 8 * b + 8 && i < below && HasEffect(s, x, i)
  }

  function CountTrue(m: seq<bool>): (n: nat)
    ensures n <= |m|
  {
    if m == [] then 0 else CountTrue(m[..|m| - 1]) + One(m[|m| - 1])
  }

  /** Are so many blocks marked that all of them are taken? */
  predicate Dense(m: seq<bool>) {
    m != [] && CountTrue(m) != |m| && CountTrue(m) * 100 / |m| > EFF_MAX_PERC
  }

  ghost predicate MarksOf(s: Subject, x: Data, below: nat, m: seq<bool>) {
    && m != [] && 8 * (|m| - 1) < |x| <= 8 * |m|
    && forall b :: 0 <= b < |m| ==> (m[b] <==> Marked(s, x, b, below))
  }

  ghost predicate EffLaw(s: Subject, x: Data, m: seq<bool>, eff: seq<bool>) {
    MarksOf(s, x, |x|, m) && |eff| == |m| && forall b :: 0 <= b < |m| ==> (eff[b] <==> m[b] || Dense(m))
  }

  /** A position is kept exactly if its block is marked, or nearly all blocks are. */
  lemma KeptIff(s: Subject, x: Data, m: seq<bool>, eff: seq<bool>, i: nat)
    requires EffLaw(s, x, m, eff) && i < |x|
    ensures Kept(eff, i) <==> Marked(s, x, i / 8, |x|) || Dense(m)
  {
  }

  lemma EffectIsKept(s: Subject, x: Data, m: seq<bool>, eff: seq<bool>, i: nat)
    requires EffLaw(s, x, m, eff) && HasEffect(s, x, i)
    ensures Kept(eff, i)
  {
    assert 8 * (i / 8) <= i < 8 * (i / 8) + 8;
    KeptIff(s, x, m, eff, i);
  }

  lemma {:induction false} CountSet(m: seq<bool>, b: nat)
    requires b < |m| && !m[b]
    ensures CountTrue(m[b := true]) == CountTrue(m) + 1
  {
    var n := |m| - 1;
    if b == n {
      assert m[b := true][..n] == m[..n];
    } else {
      CountSet(m[..n], b);
      assert m[b := true][..n] == m[..n][b := true];
    }
  }

  lemma {:induction false} CountFalse(m: seq<bool>)
    requires forall b :: 0 <= b < |m| ==> !m[b]
    ensures CountTrue(m) == 0
  {
    if m != [] {
      CountFalse(m[..|m| - 1]);
    }
  }

  /** The map before the stage: only the first and the last block. */
  method StartMap(len: nat) returns (eff: seq<bool>, count: nat)
    requires len > 0
    ensures eff != [] && 8 * (|eff| - 1) < len <= 8 * |eff| && count == CountTrue(eff)
    ensures forall b :: 0 <= b < |eff| ==> (eff[b] <==> b == 0 || 8 * b < len <= 8 * b + 8)
  {
    var alen := len / 8 + (if len % 8 != 0 then 1 else 0);
    eff := seq(alen, i => false);
    CountFalse(eff);
    CountSet(eff, 0);
    eff, count := eff[0 := true], 1;
    if (len - 1) / 8 != 0 {
      CountSet(eff, (len - 1) / 8);
      eff, count := eff[(len - 1) / 8 := true], count + 1;
    }
  }

  /** One byte more marks its own block, if it has an effect, and no other. */
  lemma MarkedMore(s: Subject, x: Data, b: nat, i: nat)
    requires i < |x|
    ensures Marked(s, x, b, i + 1) <==> Marked(s, x, b, i) || (b == i / 8 && HasEffect(s, x, i))
  {
    assert 8 * (i / 8) <= i < 8 * (i / 8) + 8;
    if Marked(s, x, b, i) && !(b == 0 || 8 * b < |x| <= 8 * b + 8) {
      var k :| 8 * b <= k < 8 * b + 8 && k < i && HasEffect(s, x, k);
      assert k < i + 1;
    }
  }

  lemma MarksMore(s: Subject, x: Data, m: seq<bool>, i: nat)
    requires i < |x| && MarksOf(s, x, i, m)
    ensures i / 8 < |m| && MarksOf(s, x, i + 1, if HasEffect(s, x, i) then m[i / 8 := true] else m)
  {
    var m' := if HasEffect(s, x, i) then m[i / 8 := true] else m;
    forall b | 0 <= b < |m| ensures m'[b] <==> Marked(s, x, b, i + 1) {
      MarkedMore(s, x, b, i);
    }
  }

  /** What the stage does with a block that is not marked yet. */
  method MarkByte(s: Subject, eff: seq<bool>, count: nat, len: nat, i: nat, data: Data, ghost x: Data) returns (r: seq<bool>, n: nat)
    requires i < len == |x| && MarksOf(s, x, i, eff) && count == CountTrue(eff) && data == FlipRange(x, 8 * i, 8)
    ensures MarksOf(s, x, i + 1, r) && n == CountTrue(r)
  {
    r, n := eff, count;
    MarksMore(s, x, eff, i);
    if !eff[i / 8] {
      var cksum := if !s.dumb && len >= EFF_MIN_LEN then s.cksum(data) else -1 - s.execCksum;
      if cksum != s.execCksum {
        CountSet(eff, i / 8);
        r, n := eff[i / 8 := true], count + 1;
      }
    } else {
      assert eff[i / 8 := true] == eff;
    }
  }

  /** One byte flipped for a run, and back again. */
  method RunFlipped(outBuf: array<Byte>, i: nat) returns (data: Data)
    requires i < outBuf.Length
    modifies outBuf
    ensures outBuf[..] == old(outBuf[..]) && data == FlipRange(outBuf[..], 8 * i, 8)
  {
    ghost var x := outBuf[..];
    FlipBytes(outBuf, i, 1);
    data := outBuf[..];
    FlipTwice(x, 8 * i, 8);
    FlipBytes(outBuf, i, 1);
  }

  /** Flips every byte, and finds out which have an effect. */
  method EffectorStage(outBuf: array<Byte>, s: Subject, ran0: set<Data>) returns (eff: seq<bool>, ran: set<Data>, ghost m: seq<bool>)
    requires outBuf.Length > 0
    modifies outBuf
    ensures outBuf[..] == old(outBuf[..])
    ensures forall d :: d in ran <==> d in ran0 || FlippedBytes(outBuf[..], d, 1, eff, outBuf.Length)
    ensures EffLaw(s, outBuf[..], m, eff)
  {
    ghost var x := outBuf[..];
    var len, count := outBuf.Length, 0;
    ran := ran0;
    eff, count := StartMap(len);
    for i := 0 to len
      invariant outBuf[..] == x && MarksOf(s, x, i, eff) && count == CountTrue(eff)
      invariant forall d :: d in ran <==> d in ran0 || FlippedBytes(x, d, 1, [], i)
    {
      var data := RunFlipped(outBuf, i);
      ran := ran + {data};
      eff, count := MarkByte(s, eff, count, len, i, data, x);
    }
    m := eff;
    if count != |eff| && count * 100 / |eff| > EFF_MAX_PERC {
      eff := seq(|eff|, b => true);
    }
    SameSingles(x, [], eff, len);
  }

  /** Single bytes are flipped whatever the map says. */
  lemma SingleBytes(x: Data, d: Data, eff: seq<bool>, other: seq<bool>, below: nat)
    ensures FlippedBytes(x, d, 1, eff, below) <==> FlippedBytes(x, d, 1, other, below)
  {
    if FlippedBytes(x, d, 1, eff, below) {
      var i :| 0 <= i < below && i + 1 <= |x| && d == FlipRange(x, 8 * i, 8 * 1);
      assert FlippedBytes(x, d, 1, other, below);
    }
    if FlippedBytes(x, d, 1, other, below) {
      var i :| 0 <= i < below && i + 1 <= |x| && d == FlipRange(x, 8 * i, 8 * 1);
      assert FlippedBytes(x, d, 1, eff, below);
    }
  }

  lemma SameSingles(x: Data, eff: seq<bool>, other: seq<bool>, below: nat)
    ensures forall d :: FlippedBytes(x, d, 1, eff, below) <==> FlippedBytes(x, d, 1, other, below)
  {
    forall d ensures FlippedBytes(x, d, 1, eff, below) <==> FlippedBytes(x, d, 1, other, below) {
      SingleBytes(x, d, eff, other, below);
    }
  }

  // ----- All byte stages -----

  method FlipStages(outBuf: array<Byte>, s: Subject) returns (eff: seq<bool>, ran: set<Data>, ghost m: seq<bool>)
    requires outBuf.Length > 0
    modifies outBuf
    ensures outBuf[..] == old(outBuf[..]) && AfterFlips(outBuf[..], eff, ran) && EffLaw(s, outBuf[..], m, eff)
  {
    ran := FlipBitsStage(outBuf, 1, {});
    ran := FlipBitsStage(outBuf, 2, ran);
    ran := FlipBitsStage(outBuf, 4, ran);
    eff, ran, m := EffectorStage(outBuf, s, ran);
    ran := FlipBytesStage(outBuf, 2, eff, ran);
    ran := FlipBytesStage(outBuf, 4, eff, ran);
  }

  /** Everything that the stages run, and nothing else. */
  ghost predicate ByStages(x: Data, eff: seq<bool>, noArith: bool, d: Data) {
    FlippedBy(x, eff, d) || (!noArith && ArithUpTo(x, d, eff, |x|)) || InterestUpTo(x, d, eff, |x|)
  }

  /** At byte `i` everything in reach of arithmetic, and every interesting value, is run. */
  ghost predicate NothingLost(x: Data, ran: set<Data>, i: nat)
    requires i < |x|
  {
    && (forall v: Byte :: ArithValue(x[i], v) ==> RunOrSame(x, ran, i, v))
    && (forall j :: 0 <= j < |INTERESTING_8| ==> RunOrSame(x, ran, i, Interesting(j)))
  }

  /** With arithmetic switched off: exactly what could be arithmetic and no flip is lost. */
  ghost predicate ArithLost(x: Data, ran: set<Data>, i: nat)
    requires i < |x|
  {
    forall j :: 0 <= j < |INTERESTING_8| ==>
      (RunOrSame(x, ran, i, Interesting(j)) <==> FlipPattern(Change(x[i], Interesting(j))) || !CouldBeArith(x[i], Interesting(j)))
  }

  /** The stages one after another, none of them abandoned, with the map that they build. At every
      position that the map keeps, and so at every byte with an effect, nothing is lost if
      arithmetic is on. */
  method ByteStages(outBuf: array<Byte>, s: Subject, noArith: bool) returns (eff: seq<bool>, ran: set<Data>, ghost m: seq<bool>)
    requires outBuf.Length > 0
    modifies outBuf
    ensures outBuf[..] == old(outBuf[..]) && EffLaw(s, outBuf[..], m, eff)
    ensures forall d :: d in ran <==> ByStages(outBuf[..], eff, noArith, d)
    ensures forall i :: 0 <= i < outBuf.Length && (Kept(eff, i) || HasEffect(s, outBuf[..], i)) ==>
              if noArith then ArithLost(outBuf[..], ran, i) else NothingLost(outBuf[..], ran, i)
  {
    ghost var x := outBuf[..];
    eff, ran, m := FlipStages(outBuf, s);
    ghost var flips := ran;
    if !noArith {
      ran := ArithStage(outBuf, eff, ran);
    }
    ghost var ran1 := ran;
    ran := InterestStage(outBuf, eff, ran);
    StagesRun(s, x, m, eff, noArith, flips, ran1, ran);
  }

  lemma StagesRun(s: Subject, x: Data, m: seq<bool>, eff: seq<bool>, noArith: bool, flips: set<Data>, ran1: set<Data>, ran: set<Data>)
    requires AfterFlips(x, eff, flips) && AfterInterest(x, eff, ran1, ran) && EffLaw(s, x, m, eff)
    requires if noArith then ran1 == flips else AfterArith(x, eff, flips, ran1)
    ensures forall d :: d in ran <==> ByStages(x, eff, noArith, d)
    ensures forall i :: 0 <= i < |x| && (Kept(eff, i) || HasEffect(s, x, i)) ==>
              if noArith then ArithLost(x, ran, i) else NothingLost(x, ran, i)
  {
    forall i | 0 <= i < |x| && (Kept(eff, i) || HasEffect(s, x, i))
      ensures if noArith then ArithLost(x, ran, i) else NothingLost(x, ran, i)
    {
      if HasEffect(s, x, i) {
        EffectIsKept(s, x, m, eff, i);
      }
      if noArith {
        forall j | 0 <= j < |INTERESTING_8|
          ensures RunOrSame(x, ran, i, Interesting(j)) <==> FlipPattern(Change(x[i], Interesting(j))) || !CouldBeArith(x[i], Interesting(j))
        {
          NoArithRunsIff(x, eff, flips, ran, i, j);
        }
      } else {
        AllRun(x, eff, flips, ran1, ran);
      }
    }
  }
}
