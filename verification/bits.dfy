/** Bitwise arithmetic on naturals, and words read from bytes in little-endian order. */
module Bits {

  type Byte = b: nat | b < 256
  type Data = seq<Byte>

  /** The bitwise operations: conjunction, conjunction with the complement, disjunction,
      difference. */
  datatype Op = And | AndNot | Or | Xor

  function OnBit(op: Op, a: nat, b: nat): (r: nat)
    requires a < 2 && b < 2
    ensures r < 2
  {
    match op
    case And => if a == 1 && b == 1 then 1 else 0
    case AndNot => if a == 1 && b == 0 then 1 else 0
    case Or => if a == 1 || b == 1 then 1 else 0
    case Xor => if a != b then 1 else 0
  }

  function One(p: bool): nat {
    if p then 1 else 0
  }

  function Bitwise(op: Op, x: nat, y: nat): nat
    decreases x + y
  {
    if x == 0 && y == 0 then 0
    else OnBit(op, x % 2, y % 2) + 2 * Bitwise(op, x / 2, y / 2)
  }

  function BitAt(x: nat, k: nat): nat {
    if k == 0 then x % 2 else BitAt(x / 2, k - 1)
  }

  predicate Bit(x: nat, k: nat) {
    BitAt(x, k) == 1
  }

  function Pow(base: nat, k: nat): nat {
    if k == 0 then 1 else base * Pow(base, k - 1)
  }

  /** The bits of a result are those of the operands combined. */
  lemma {:induction false} BitwiseBit(op: Op, x: nat, y: nat, k: nat)
    ensures var p, q := Bit(x, k), Bit(y, k);
            Bit(Bitwise(op, x, y), k) == (match op case And => p && q case AndNot => p && !q case Or => p || q case Xor => p != q)
    decreases k
  {
    var b, h := OnBit(op, x % 2, y % 2), Bitwise(op, x / 2, y / 2);
    Unfold(op, x, y);
    assert (b + 2 * h) % 2 == b && (b + 2 * h) / 2 == h;
    if k > 0 {
      BitwiseBit(op, x / 2, y / 2, k - 1);
    }
  }

  lemma Unfold(op: Op, x: nat, y: nat)
    ensures Bitwise(op, x, y) == OnBit(op, x % 2, y % 2) + 2 * Bitwise(op, x / 2, y / 2)
  {
  }

  /** Operands below a power of two have a result below it. */
  lemma {:induction false} BitwiseBound(op: Op, x: nat, y: nat, k: nat)
    requires x < Pow(2, k) && y < Pow(2, k)
    ensures Bitwise(op, x, y) < Pow(2, k)
    decreases k
  {
    if k > 0 {
      BitwiseBound(op, x / 2, y / 2, k - 1);
      Unfold(op, x, y);
    }
  }

  /** Adding `gx` and `gy` to the operands adds `g` to the result. */
  predicate Splits(op: Op, x: nat, y: nat, gx: nat, gy: nat, g: nat) {
    Bitwise(op, x + gx, y + gy) == Bitwise(op, x, y) + g
  }

  /** Operations work on the low and the high parts separately. */
  lemma {:induction false} BitwiseSplit(op: Op, k: nat, x: nat, y: nat, hx: nat, hy: nat)
    requires x < Pow(2, k) && y < Pow(2, k)
    ensures Splits(op, x, y, Scale(k, hx), Scale(k, hy), Scale(k, Bitwise(op, hx, hy)))
    decreases k
  {
    if k > 0 {
      BitwiseSplit(op, k - 1, x / 2, y / 2, hx, hy);
      SplitDouble(op, x, y, Scale(k - 1, hx), Scale(k - 1, hy), Scale(k - 1, Bitwise(op, hx, hy)));
    }
  }

  lemma SplitDouble(op: Op, x: nat, y: nat, gx: nat, gy: nat, g: nat)
    requires Splits(op, x / 2, y / 2, gx, gy, g)
    ensures Splits(op, x, y, 2 * gx, 2 * gy, 2 * g)
  {
    Unfold(op, x, y);
    Unfold(op, x + 2 * gx, y + 2 * gy);
    assert (x + 2 * gx) / 2 == x / 2 + gx && (y + 2 * gy) / 2 == y / 2 + gy;
  }

  /** `h` times two to the power `k`. */
  function Scale(k: nat, h: nat): nat {
    if k == 0 then h else 2 * Scale(k - 1, h)
  }

  lemma Scale256(h: nat)
    ensures Scale(8, h) == 256 * h
  {
    assert Scale(1, h) == 2 * h;
    assert Scale(2, h) == 4 * h;
    assert Scale(4, h) == 16 * h;
    assert Scale(6, h) == 64 * h;
  }

  /** The low byte, as the case the word routines need. */
  lemma SplitByte(op: Op, x: Byte, y: Byte, hx: nat, hy: nat)
    ensures Bitwise(op, x, y) < 256
    ensures Bitwise(op, x + 256 * hx, y + 256 * hy) == Bitwise(op, x, y) + 256 * Bitwise(op, hx, hy)
  {
    Pow256();
    Scale256(hx);
    Scale256(hy);
    Scale256(Bitwise(op, hx, hy));
    BitwiseSplit(op, 8, x, y, hx, hy);
    BitwiseBound(op, x, y, 8);
  }

  lemma Pow256()
    ensures Pow(2, 8) == 256
  {
    assert Pow(2, 4) == 16;
  }

  function OnBytes(op: Op, x: Byte, y: Byte): (r: Byte) {
    SplitByte(op, x, y, 0, 0);
    Bitwise(op, x, y)
  }

  // ----- Particular operands -----

  lemma {:induction false} AndAllOnes(x: nat, n: nat)
    requires x < Pow(2, n)
    ensures Bitwise(And, x, Pow(2, n) - 1) == x
    decreases n
  {
    if n > 0 {
      AndAllOnes(x / 2, n - 1);
      Unfold(And, x, Pow(2, n) - 1);
      assert (Pow(2, n) - 1) / 2 == Pow(2, n - 1) - 1;
    }
  }


  lemma {:induction false} WithZero(y: nat)
    ensures Bitwise(And, 0, y) == 0 && Bitwise(And, y, 0) == 0 && Bitwise(Or, 0, y) == y && Bitwise(Or, y, 0) == y
    decreases y
  {
    if y != 0 {
      WithZero(y / 2);
      Unfold(And, 0, y);
      Unfold(And, y, 0);
      Unfold(Or, 0, y);
      Unfold(Or, y, 0);
    }
  }

  lemma {:induction false} AndNotTakesAway(x: nat, y: nat)
    ensures Bitwise(AndNot, y, x) == y - Bitwise(And, x, y)
    decreases x + y
  {
    if x != 0 || y != 0 {
      AndNotTakesAway(x / 2, y / 2);
      Unfold(AndNot, y, x);
      Unfold(And, x, y);
      assert OnBit(AndNot, y % 2, x % 2) == y % 2 - OnBit(And, x % 2, y % 2);
    }
  }


  // ----- Words -----

  /** The number that the bytes stand for, least significant byte first. */
  function Word(bytes: seq<Byte>): nat {
    if bytes == [] then 0 else bytes[0] + 256 * Word(bytes[1..])
  }

  function ToBytes(w: nat, n: nat): (r: seq<Byte>)
    ensures |r| == n
  {
    if n == 0 then [] else [w % 256] + ToBytes(w / 256, n - 1)
  }

  lemma {:induction false} BytesOfWord(bytes: seq<Byte>)
    ensures ToBytes(Word(bytes), |bytes|) == bytes
  {
    if bytes != [] {
      BytesOfWord(bytes[1..]);
      LowByteFirst(bytes[0], Word(bytes[1..]), |bytes| - 1);
    }
  }

  lemma LowByteFirst(b: Byte, h: nat, n: nat)
    ensures ToBytes(b + 256 * h, n + 1) == [b] + ToBytes(h, n)
  {
    var w := b + 256 * h;
    assert w % 256 == b && w / 256 == h;
  }

  lemma {:induction false} WordZero(bytes: seq<Byte>)
    ensures Word(bytes) == 0 <==> forall k :: 0 <= k < |bytes| ==> bytes[k] == 0
  {
    if bytes != [] {
      WordZero(bytes[1..]);
      assert bytes == [bytes[0]] + bytes[1..];
      if Word(bytes) == 0 {
        forall k | 0 <= k < |bytes| ensures bytes[k] == 0 {
          assert k == 0 || bytes[k] == bytes[1..][k - 1];
        }
      } else if Word(bytes[1..]) != 0 {
        var k :| 0 <= k < |bytes| - 1 && bytes[1..][k] != 0;
        assert bytes[k + 1] != 0;
      }
    }
  }

  /** One operation on words is the operation on every byte. */
  lemma {:induction false} WordwiseIsBytewise(op: Op, xs: seq<Byte>, ys: seq<Byte>)
    requires |xs| == |ys|
    ensures Bitwise(op, Word(xs), Word(ys)) == Word(Bytewise(op, xs, ys))
  {
    if xs != [] {
      WordwiseIsBytewise(op, xs[1..], ys[1..]);
      SplitByte(op, xs[0], ys[0], Word(xs[1..]), Word(ys[1..]));
      assert Bytewise(op, xs, ys)[1..] == Bytewise(op, xs[1..], ys[1..]);
    }
  }

  function Bytewise(op: Op, xs: seq<Byte>, ys: seq<Byte>): (r: seq<Byte>)
    requires |xs| == |ys|
    ensures |r| == |xs|
  {
    seq(|xs|, i requires 0 <= i < |xs| => OnBytes(op, xs[i], ys[i]))
  }

  // ----- Bytes known by their bits -----

  lemma NoBits(x: nat, n: nat)
    requires x < Pow(2, n)
    ensures x == 0 <==> forall k :: 0 <= k < n ==> !Bit(x, k)
  {
    if x == 0 {
      ZeroBits(n);
    } else {
      var k := SomeBit(x, n);
    }
  }

  lemma {:induction false} SomeBit(x: nat, n: nat) returns (k: nat)
    requires 0 < x < Pow(2, n)
    ensures k < n && Bit(x, k)
    decreases n
  {
    if x % 2 == 1 {
      k := 0;
    } else {
      var j := SomeBit(x / 2, n - 1);
      k := j + 1;
    }
  }

  lemma {:induction false} ZeroBits(n: nat)
    ensures forall k :: 0 <= k < n ==> !Bit(0, k)
  {
    if n > 0 {
      ZeroBits(n - 1);
      if n > 1 {
        assert Bit(0, n - 1) == Bit(0, n - 2);
      }
    }
  }

  lemma {:induction false} AllBits(x: nat, n: nat)
    requires x < Pow(2, n)
    ensures x == Pow(2, n) - 1 <==> forall k :: 0 <= k < n ==> Bit(x, k)
    decreases n
  {
    if n > 0 {
      AllBits(x / 2, n - 1);
      if x == Pow(2, n) - 1 {
        forall k | 0 <= k < n ensures Bit(x, k) {
          assert k == 0 || Bit(x, k) == Bit(x / 2, k - 1);
        }
      } else {
        if x % 2 == 0 {
          assert !Bit(x, 0);
        } else {
          var k :| 0 <= k < n - 1 && !Bit(x / 2, k);
          assert !Bit(x, k + 1);
        }
      }
    }
  }

  lemma {:induction false} SameBits(x: nat, y: nat, n: nat)
    requires x < Pow(2, n) && y < Pow(2, n) && forall k :: 0 <= k < n ==> Bit(x, k) == Bit(y, k)
    ensures x == y
    decreases n
  {
    if n > 0 {
      assert Bit(x, 0) == Bit(y, 0);
      forall k | 0 <= k < n - 1 ensures Bit(x / 2, k) == Bit(y / 2, k) {
        assert Bit(x, k + 1) == Bit(y, k + 1);
      }
      SameBits(x / 2, y / 2, n - 1);
    }
  }

  /** The bits of a number shifted to the left. */
  lemma {:induction false} ScaleBit(s: nat, m: nat, k: nat)
    ensures Bit(Scale(s, m), k) <==> k >= s && Bit(m, k - s)
    decreases s
  {
    if s > 0 {
      var h := Scale(s - 1, m);
      assert (2 * h) % 2 == 0 && (2 * h) / 2 == h;
      if k > 0 {
        ScaleBit(s - 1, m, k - 1);
      }
    }
  }

  /** The number with its low `n` bits set. */
  function Ones(n: nat): nat {
    if n == 0 then 0 else 2 * Ones(n - 1) + 1
  }

  lemma {:induction false} OnesBit(n: nat, k: nat)
    ensures Bit(Ones(n), k) <==> k < n
  {
    if n == 0 {
      ZeroBits(k + 1);
    } else {
      var h := Ones(n - 1);
      assert (2 * h + 1) % 2 == 1 && (2 * h + 1) / 2 == h;
      if k > 0 {
        OnesBit(n - 1, k - 1);
      }
    }
  }

  /** Bits past the size of a number are clear. */
  lemma {:induction false} HighBitsClear(x: nat, n: nat, k: nat)
    requires x < Pow(2, n) && k >= n
    ensures !Bit(x, k)
    decreases k
  {
    if k > 0 {
      if n > 0 {
        HighBitsClear(x / 2, n - 1, k - 1);
      } else {
        ZeroBits(k + 1);
      }
    }
  }
}
