/** The havoc stage: stacked random changes to a buffer that is restored after every run. */
module Havoc {
  import opened Bits
  import opened Buffers
  import opened Config
  import opened Flips

  const MAX_FILE := 1024 * 1024
  const HAVOC_BLK_SMALL := 32
  const HAVOC_BLK_MEDIUM := 128
  const HAVOC_BLK_LARGE := 1500
  const HAVOC_BLK_XL := 32768
  const HAVOC_STACK_POW2 := 7
  const HAVOC_CYCLES := 256
  const HAVOC_CYCLES_INIT := 1024
  const HAVOC_MAX_MULT := 16
  const HAVOC_MIN := 16
  const SPLICE_HAVOC := 32

  /** Any sequence of random numbers. */
  class Random {
    const numbers: nat -> nat
    var drawn: nat

    constructor (numbers: nat -> nat)
      ensures this.numbers == numbers && drawn == 0
    {
      this.numbers, drawn := numbers, 0;
    }

    method UR(limit: nat) returns (r: nat)
      requires limit > 0
      modifies this
      ensures r < limit && r == numbers(old(drawn)) % limit && drawn == old(drawn) + 1
    {
      r := numbers(drawn) % limit;
      drawn := drawn + 1;
    }
  }

  /** The lengths of small, medium, large and very large blocks. */
  function BlockRange(which: nat, rare: bool): (nat, nat) {
    if which == 0 then (1, HAVOC_BLK_SMALL)
    else if which == 1 then (HAVOC_BLK_SMALL, HAVOC_BLK_MEDIUM)
    else if !rare then (HAVOC_BLK_MEDIUM, HAVOC_BLK_LARGE)
    else (HAVOC_BLK_LARGE, HAVOC_BLK_XL)
  }

  /** A length drawn from a range that the limit cuts off; if it cuts off the whole range, any
      length up to the limit. */
  ghost predicate DrawnFrom(lo: nat, hi: nat, limit: nat, number: nat, r: nat) {
    var low, high := if lo < limit then lo else 1, Min(hi, limit);
    low <= high && r == low + number % (high - low + 1)
  }

  /** The length `r` comes from the numbers drawn from `from` up to `to`: the kind of block first,
      which is small in the first ten minutes, and the length last. */
  ghost predicate LengthDrawn(numbers: nat -> nat, from: nat, to: nat, limit: nat, queueCycle: nat, runOver10m: bool, r: nat)
    requires queueCycle > 0
  {
    var which := numbers(from) % (if runOver10m then Min(queueCycle, 3) else 1);
    var range := BlockRange(which, numbers(from + 1) % 10 == 0);
    to == from + (if which < 2 then 2 else 3) && DrawnFrom(range.0, range.1, limit, numbers(to - 1), r)
  }

  method ChooseBlockLen(rnd: Random, limit: nat, queueCycle: nat, runOver10m: bool) returns (r: nat)
    requires limit > 0 && queueCycle > 0
    modifies rnd
    ensures 1 <= r <= limit && r <= HAVOC_BLK_XL
    ensures LengthDrawn(rnd.numbers, old(rnd.drawn), rnd.drawn, limit, queueCycle, runOver10m, r)
  {
    var rlim := if runOver10m then Min(queueCycle, 3) else 1;
    var minValue, maxValue;
    var which := rnd.UR(rlim);
    if which == 0 {
      minValue, maxValue := 1, HAVOC_BLK_SMALL;
    } else if which == 1 {
      minValue, maxValue := HAVOC_BLK_SMALL, HAVOC_BLK_MEDIUM;
    } else {
      var large := rnd.UR(10);
      if large != 0 {
        minValue, maxValue := HAVOC_BLK_MEDIUM, HAVOC_BLK_LARGE;
      } else {
        minValue, maxValue := HAVOC_BLK_LARGE, HAVOC_BLK_XL;
      }
    }
    if minValue >= limit {
      minValue := 1;
    }
    var more := rnd.UR(Min(maxValue, limit) - minValue + 1);
    r := minValue + more;
  }

  // ----- Changes in place: only the first `len` bytes of the buffer are touched -----

  ghost predicate Fits(buf: array<Byte>, len: nat) {
    1 <= len <= MAX_FILE && len <= buf.Length
  }

  function Overwritten(x: Data, at: nat, bytes: Data): (r: Data)
    requires at + |bytes| <= |x|
    ensures |r| == |x|
  {
    x[..at] + bytes + x[at + |bytes|..]
  }

  /** Reading bytes: all reads stay inside the current length. */
  function Slice(buf: array<Byte>, len: nat, from: nat, n: nat): (r: Data)
    requires from + n <= len <= buf.Length
    reads buf
    ensures r == buf[..len][from..from + n]
  {
    buf[from..from + n]
  }

  /** Writing bytes: so do all writes. */
  method Patch(buf: array<Byte>, len: nat, at: nat, bytes: Data)
    requires at + |bytes| <= len <= buf.Length
    modifies buf
    ensures buf[..len] == Overwritten(old(buf[..len]), at, bytes) && buf[len..] == old(buf[len..])
  {
    for k := 0 to |bytes|
      invariant forall i :: 0 <= i < at ==> buf[i] == old(buf[i])
      invariant forall i :: at <= i < at + k ==> buf[i] == bytes[i - at]
      invariant forall i :: at + k <= i < buf.Length ==> buf[i] == old(buf[i])
    {
      buf[at + k] := bytes[k];
    }
  }

  function CutOut(x: Data, from: nat, n: nat): (r: Data)
    requires from + n <= |x|
    ensures |r| == |x| - n
  {
    x[..from] + x[from + n..]
  }

  method Delete(buf: array<Byte>, len: nat, from: nat, n: nat)
    requires from + n <= len <= buf.Length
    modifies buf
    ensures buf[..len - n] == CutOut(old(buf[..len]), from, n)
    ensures buf[len..] == old(buf[len..])
  {
    ghost var x := buf[..len];
    MoveDown(buf, from, from + n, len - from - n);
    forall i | 0 <= i < len - n ensures buf[i] == CutOut(x, from, n)[i] {
    }
  }

  /** A new buffer, just large enough, with a block inserted. */
  method Insert(buf: array<Byte>, len: nat, at: nat, block: Data) returns (r: array<Byte>)
    requires at <= len <= buf.Length
    ensures fresh(r) && r.Length == len + |block|
    ensures r[..] == buf[..at] + block + buf[at..len]
  {
    var all := buf[..at] + block + buf[at..len];
    r := new Byte[len + |block|](i requires 0 <= i < |all| => all[i]);
  }

  // ----- Arithmetic on words -----

  function Reversed(b: Data): (r: Data)
    ensures |r| == |b|
  {
    seq(|b|, i requires 0 <= i < |b| => b[|b| - 1 - i])
  }

  lemma {:induction false} PowPositive(k: nat)
    ensures Pow(256, k) > 0
  {
    if k > 0 {
      PowPositive(k - 1);
    }
  }

  /** The bytes of a number, with wrap-around, in either byte order. */
  function BytesOf(v: int, width: nat, swapped: bool): (r: Data)
    ensures |r| == width
  {
    PowPositive(width);
    var b := ToBytes(v % Pow(256, width), width);
    if swapped then Reversed(b) else b
  }

  function WordOf(b: Data, swapped: bool): nat {
    Word(if swapped then Reversed(b) else b)
  }

  lemma {:induction false} WordOfBytes(w: nat, n: nat)
    requires w < Pow(256, n)
    ensures Word(ToBytes(w, n)) == w
  {
    if n > 0 {
      assert Pow(256, n) == 256 * Pow(256, n - 1);
      WordOfBytes(w / 256, n - 1);
      assert ToBytes(w, n)[1..] == ToBytes(w / 256, n - 1);
    }
  }

  lemma ReversedTwice(b: Data)
    ensures Reversed(Reversed(b)) == b
  {
  }

  /** Reading a number back in the byte order it was written in gives it modulo the width; the two
      orders mirror each other. */
  lemma BytesOfMeans(v: int, width: nat, swapped: bool)
    ensures Pow(256, width) > 0 && WordOf(BytesOf(v, width, swapped), swapped) == v % Pow(256, width)
    ensures BytesOf(v, width, true) == Reversed(BytesOf(v, width, false))
  {
    PowPositive(width);
    var w := v % Pow(256, width);
    WordOfBytes(w, width);
    ReversedTwice(ToBytes(w, width));
  }

  // ----- One change -----

  ghost predicate HasValue(x: Data, y: Data, pos: nat, width: nat, values: seq<int>, v: int, swapped: bool) {
    v in values && pos + width <= |x| && y == Overwritten(x, pos, BytesOf(v, width, swapped))
  }

  ghost predicate IsSet(x: Data, y: Data, width: nat, values: seq<int>) {
    if |x| < width then y == x else exists pos, v, swapped :: HasValue(x, y, pos, width, values, v, swapped)
  }

  /** Byte order, place and number are drawn one after the other; a single byte has no order. */
  ghost predicate SwapDrawn(numbers: nat -> nat, drawn: nat, width: nat, swapped: bool) {
    swapped <==> width > 1 && numbers(drawn) % 2 == 0
  }

  function PlaceDraw(drawn: nat, width: nat): nat {
    if width > 1 then drawn + 1 else drawn
  }

  method DrawPlace(rnd: Random, len: nat, width: nat, n: nat) returns (swapped: bool, pos: nat, which: nat)
    requires 0 < width <= len && n > 0
    modifies rnd
    ensures var k := PlaceDraw(old(rnd.drawn), width);
            && SwapDrawn(rnd.numbers, old(rnd.drawn), width, swapped)
            && pos == rnd.numbers(k) % (len - width + 1) && which == rnd.numbers(k + 1) % n && rnd.drawn == k + 2
  {
    var swap := 1;
    if width > 1 {
      swap := rnd.UR(2);
    }
    pos := rnd.UR(len - width + 1);
    which := rnd.UR(n);
    swapped := swap == 0;
  }

  ghost predicate ValueDrawn(x: Data, y: Data, numbers: nat -> nat, drawn: nat, width: nat, values: seq<int>)
    requires 0 < width <= |x| && values != []
  {
    var k := PlaceDraw(drawn, width);
    exists swapped :: SwapDrawn(numbers, drawn, width, swapped) &&
                      HasValue(x, y, numbers(k) % (|x| - width + 1), width, values, values[numbers(k + 1) % |values|], swapped)
  }

  /** Puts an interesting value, if the buffer has room for one of this width. */
  method SetInteresting(rnd: Random, buf: array<Byte>, len: nat, width: nat, values: seq<int>)
    requires Fits(buf, len) && width > 0 && values != []
    modifies buf, rnd
    ensures buf[len..] == old(buf[len..]) && IsSet(old(buf[..len]), buf[..len], width, values)
    ensures len >= width ==> ValueDrawn(old(buf[..len]), buf[..len], rnd.numbers, old(rnd.drawn), width, values)
  {
    ghost var was := buf[..len];
    if len < width {
      return;
    }
    var swapped, pos, which := DrawPlace(rnd, len, width, |values|);
    Patch(buf, len, pos, BytesOf(values[which], width, swapped));
    assert HasValue(was, buf[..len], pos, width, values, values[which], swapped);
  }

  ghost predicate HasSum(x: Data, y: Data, pos: nat, width: nat, num: int, swapped: bool) {
    && pos + width <= |x|
    && y == Overwritten(x, pos, BytesOf(WordOf(x[pos..pos + width], swapped) + num, width, swapped))
  }

  function Signed(sign: int, num: int): int {
    if sign < 0 then -num else num
  }

  ghost predicate IsAdded(x: Data, y: Data, width: nat, sign: int) {
    if |x| < width then y == x
    else exists pos, num, swapped :: 1 <= num <= ARITH_MAX && HasSum(x, y, pos, width, Signed(sign, num), swapped)
  }

  ghost predicate SumDrawn(x: Data, y: Data, numbers: nat -> nat, drawn: nat, width: nat, sign: int)
    requires 0 < width <= |x|
  {
    var k := PlaceDraw(drawn, width);
    exists swapped :: SwapDrawn(numbers, drawn, width, swapped) &&
                      HasSum(x, y, numbers(k) % (|x| - width + 1), width, Signed(sign, 1 + numbers(k + 1) % ARITH_MAX), swapped)
  }

  lemma SumIsAdded(x: Data, y: Data, numbers: nat -> nat, drawn: nat, width: nat, sign: int, swapped: bool, delta: int)
    requires 0 < width <= |x| && SwapDrawn(numbers, drawn, width, swapped)
    requires delta == Signed(sign, 1 + numbers(PlaceDraw(drawn, width) + 1) % ARITH_MAX)
    requires HasSum(x, y, numbers(PlaceDraw(drawn, width)) % (|x| - width + 1), width, delta, swapped)
    ensures IsAdded(x, y, width, sign) && SumDrawn(x, y, numbers, drawn, width, sign)
  {
    var num := 1 + numbers(PlaceDraw(drawn, width) + 1) % ARITH_MAX;
    assert 1 <= num <= ARITH_MAX;
  }

  /** Adds to or subtracts from a byte or a word. */
  method AddRandom(rnd: Random, buf: array<Byte>, len: nat, width: nat, sign: int)
    requires Fits(buf, len) && width > 0
    modifies buf, rnd
    ensures buf[len..] == old(buf[len..]) && IsAdded(old(buf[..len]), buf[..len], width, sign)
    ensures len >= width ==> SumDrawn(old(buf[..len]), buf[..len], rnd.numbers, old(rnd.drawn), width, sign)
  {
    ghost var was := buf[..len];
    if len < width {
      return;
    }
    var swapped, pos, num := DrawPlace(rnd, len, width, ARITH_MAX);
    var delta := Signed(sign, 1 + num);
    AddAt(buf, len, pos, width, delta, swapped);
    SumIsAdded(was, buf[..len], rnd.numbers, old(rnd.drawn), width, sign, swapped, delta);
  }

  method AddAt(buf: array<Byte>, len: nat, pos: nat, width: nat, delta: int, swapped: bool)
    requires pos + width <= len <= buf.Length
    modifies buf
    ensures HasSum(old(buf[..len]), buf[..len], pos, width, delta, swapped) && buf[len..] == old(buf[len..])
  {
    Patch(buf, len, pos, BytesOf(WordOf(Slice(buf, len, pos, width), swapped) + delta, width, swapped));
  }

  ghost predicate IsFlipped(x: Data, y: Data) {
    exists b :: 0 <= b < 8 * |x| && y == FlipBit(x, b)
  }

  method FlipRandomBit(rnd: Random, buf: array<Byte>, len: nat)
    requires Fits(buf, len)
    modifies buf, rnd
    ensures buf[len..] == old(buf[len..])
    ensures buf[..len] == FlipBit(old(buf[..len]), rnd.numbers(old(rnd.drawn)) % (8 * len))
    ensures IsFlipped(old(buf[..len]), buf[..len])
  {
    var b := rnd.UR(8 * len);
    ghost var was := buf[..len];
    Patch(buf, len, b / 8, [OnBytes(Xor, Slice(buf, len, b / 8, 1)[0], HighBit(b % 8))]);
    assert buf[..len] == FlipBit(was, b);
  }

  ghost predicate HasXor(x: Data, y: Data, pos: nat, v: Byte) {
    v > 0 && pos < |x| && y == x[pos := OnBytes(Xor, x[pos], v)]
  }

  ghost predicate IsXored(x: Data, y: Data) {
    exists pos, v :: HasXor(x, y, pos, v)
  }

  method XorRandomByte(rnd: Random, buf: array<Byte>, len: nat)
    requires Fits(buf, len)
    modifies buf, rnd
    ensures buf[len..] == old(buf[len..])
    ensures HasXor(old(buf[..len]), buf[..len], rnd.numbers(old(rnd.drawn)) % len, 1 + rnd.numbers(old(rnd.drawn) + 1) % 255)
    ensures IsXored(old(buf[..len]), buf[..len])
  {
    var pos := rnd.UR(len);
    var v := rnd.UR(255);
    ghost var was := buf[..len];
    Patch(buf, len, pos, [OnBytes(Xor, Slice(buf, len, pos, 1)[0], 1 + v)]);
    assert buf[..len] == was[pos := OnBytes(Xor, was[pos], 1 + v)];
    assert HasXor(was, buf[..len], pos, 1 + v);
  }

  /** What the choices below 11 do. */
  ghost predicate ChangedInPlace(x: Data, y: Data, which: nat) {
    match which
    case 0 => IsFlipped(x, y)
    case 1 => IsSet(x, y, 1, INTERESTING_8)
    case 2 => IsSet(x, y, 2, INTERESTING_16)
    case 3 => IsSet(x, y, 4, INTERESTING_32)
    case 4 => IsAdded(x, y, 1, -1)
    case 5 => IsAdded(x, y, 1, 1)
    case 6 => IsAdded(x, y, 2, -1)
    case 7 => IsAdded(x, y, 2, 1)
    case 8 => IsAdded(x, y, 4, -1)
    case 9 => IsAdded(x, y, 4, 1)
    case _ => IsXored(x, y)
  }

  /** The changes that leave the length alone, by the number of the choice. */
  method ChangeInPlace(rnd: Random, buf: array<Byte>, len: nat, which: nat)
    requires Fits(buf, len)
    modifies buf, rnd
    ensures buf[len..] == old(buf[len..]) && ChangedInPlace(old(buf[..len]), buf[..len], which)
  {
    match which {
      case 0 => FlipRandomBit(rnd, buf, len);
      case 1 => SetInteresting(rnd, buf, len, 1, INTERESTING_8);
      case 2 => SetInteresting(rnd, buf, len, 2, INTERESTING_16);
      case 3 => SetInteresting(rnd, buf, len, 4, INTERESTING_32);
      case 4 => AddRandom(rnd, buf, len, 1, -1);
      case 5 => AddRandom(rnd, buf, len, 1, 1);
      case 6 => AddRandom(rnd, buf, len, 2, -1);
      case 7 => AddRandom(rnd, buf, len, 2, 1);
      case 8 => AddRandom(rnd, buf, len, 4, -1);
      case 9 => AddRandom(rnd, buf, len, 4, 1);
      case _ => XorRandomByte(rnd, buf, len);
    }
  }

  /** What does not change while a stage runs. */
  datatype Setting = Setting(queueCycle: nat, runOver10m: bool, extras: seq<Data>, autoExtras: seq<Data>)

  ghost predicate HasCut(x: Data, y: Data, from: nat, n: nat) {
    0 < n < |x| && from + n <= |x| && y == CutOut(x, from, n)
  }

  ghost predicate IsCut(x: Data, y: Data) {
    if |x| < 2 then y == x else exists from, n :: HasCut(x, y, from, n)
  }

  /** The length and then the place of a block that is cut from `len` bytes are drawn. */
  ghost predicate CutDrawn(numbers: nat -> nat, from: nat, to: nat, cfg: Setting, len: nat, at: nat, n: nat)
    requires cfg.queueCycle > 0
  {
    && 0 < n < len && to > 0
    && LengthDrawn(numbers, from, to - 1, len - 1, cfg.queueCycle, cfg.runOver10m, n)
    && at == numbers(to - 1) % (len - n + 1)
  }

  method DrawCut(rnd: Random, len: nat, cfg: Setting) returns (at: nat, n: nat)
    requires len >= 2 && cfg.queueCycle > 0
    modifies rnd
    ensures 0 < n < len && at + n <= len && CutDrawn(rnd.numbers, old(rnd.drawn), rnd.drawn, cfg, len, at, n)
  {
    n := ChooseBlockLen(rnd, len - 1, cfg.queueCycle, cfg.runOver10m);
    at := rnd.UR(len - n + 1);
  }

  lemma CutBy(x: Data, y: Data, at: nat, n: nat)
    requires 0 < n < |x| && at + n <= |x| && y == CutOut(x, at, n)
    ensures IsCut(x, y)
  {
    assert HasCut(x, y, at, n);
  }

  /** Leaves at least one byte. */
  method DeleteRandom(rnd: Random, buf: array<Byte>, len: nat, cfg: Setting) returns (n: nat, ghost at: nat)
    requires Fits(buf, len) && cfg.queueCycle > 0
    modifies buf, rnd
    ensures Fits(buf, n) && (if len < 2 then n == len else n < len) && buf[len..] == old(buf[len..])
    ensures IsCut(old(buf[..len]), buf[..n])
    ensures len >= 2 ==> CutDrawn(rnd.numbers, old(rnd.drawn), rnd.drawn, cfg, len, at, len - n)
    ensures len >= 2 ==> at + (len - n) <= len && buf[..n] == CutOut(old(buf[..len]), at, len - n)
  {
    n, at := len, 0;
    if len < 2 {
      return;
    }
    ghost var x := buf[..len];
    var from, delLen := DrawCut(rnd, len, cfg);
    Delete(buf, len, from, delLen);
    n, at := len - delLen, from;
    CutBy(x, buf[..n], from, delLen);
  }

  function Repeat(v: Byte, n: nat): (r: Data)
    ensures |r| == n
  {
    seq(n, i => v)
  }

  /** A block of the data, or constant bytes. */
  ghost predicate Drawn(x: Data, block: Data) {
    exists copied :: DrawnAs(x, block, copied)
  }

  ghost predicate DrawnAs(x: Data, block: Data, copied: bool) {
    if copied then exists from :: SliceOf(x, from, block) else exists v :: block == Repeat(v, |block|)
  }

  predicate SliceOf(x: Data, from: nat, block: Data) {
    from + |block| <= |x| && block == x[from..from + |block|]
  }

  /** A constant byte: any value, or one from the buffer. */
  method RandomFill(rnd: Random, buf: array<Byte>, len: nat, n: nat) returns (block: Data)
    requires Fits(buf, len)
    modifies rnd
    ensures |block| == n && DrawnAs(buf[..len], block, false)
  {
    var v: Byte;
    var any := rnd.UR(2);
    if any != 0 {
      v := rnd.UR(256);
    } else {
      var at := rnd.UR(len);
      v := Slice(buf, len, at, 1)[0];
    }
    block := Repeat(v, n);
    assert block == Repeat(v, |block|);
  }

  method RandomSlice(rnd: Random, buf: array<Byte>, len: nat, n: nat) returns (block: Data)
    requires Fits(buf, len) && n <= len
    modifies rnd
    ensures |block| == n && DrawnAs(buf[..len], block, true)
  {
    var from := rnd.UR(len - n + 1);
    block := Slice(buf, len, from, n);
    assert SliceOf(buf[..len], from, block);
  }

  /** The block to insert: bytes of the buffer, or constant bytes. */
  method ChooseBlock(rnd: Random, buf: array<Byte>, len: nat, cfg: Setting) returns (block: Data)
    requires Fits(buf, len) && cfg.queueCycle > 0
    modifies rnd
    ensures 1 <= |block| <= HAVOC_BLK_XL && DrawnAs(buf[..len], block, rnd.numbers(old(rnd.drawn)) % 4 != 0)
  {
    var clone := rnd.UR(4);
    if clone != 0 {
      var cloneLen := ChooseBlockLen(rnd, len, cfg.queueCycle, cfg.runOver10m);
      block := RandomSlice(rnd, buf, len, cloneLen);
    } else {
      var cloneLen := ChooseBlockLen(rnd, HAVOC_BLK_XL, cfg.queueCycle, cfg.runOver10m);
      block := RandomFill(rnd, buf, len, cloneLen);
    }
  }

  ghost predicate HasInserted(x: Data, y: Data, to: nat, block: Data) {
    to <= |x| && y == x[..to] + block + x[to..]
  }

  method InsertBlock(buf: array<Byte>, len: nat, to: nat, block: Data) returns (r: array<Byte>)
    requires to <= len <= buf.Length
    ensures fresh(r) && r.Length == len + |block| && HasInserted(buf[..len], r[..], to, block)
  {
    r := Insert(buf, len, to, block);
    assert buf[..len][..to] == buf[..to] && buf[..len][to..] == buf[to..len];
  }

  ghost predicate IsCloned(x: Data, y: Data) {
    if |x| + HAVOC_BLK_XL >= MAX_FILE then y == x
    else exists to: nat, block :: HasInserted(x, y, to, block) && to < |x| && block != [] && Drawn(x, block)
  }

  /** Three times out of four a block of the data, otherwise constant bytes, at the place drawn last. */
  ghost predicate CloneDrawn(x: Data, y: Data, copied: bool, to: nat) {
    exists block :: HasInserted(x, y, to, block) && block != [] && DrawnAs(x, block, copied)
  }

  /** Inserts a copy of a block, or constant bytes, in a new buffer. */
  method CloneRandom(rnd: Random, buf: array<Byte>, len: nat, cfg: Setting) returns (r: array<Byte>, n: nat)
    requires Fits(buf, len) && cfg.queueCycle > 0
    modifies rnd
    ensures Fits(r, n) && (r == buf || fresh(r))
    ensures if len + HAVOC_BLK_XL >= MAX_FILE then r == buf && n == len else r.Length == n
    ensures IsCloned(buf[..len], r[..n])
    ensures len + HAVOC_BLK_XL < MAX_FILE ==>
              rnd.drawn > 0 && CloneDrawn(buf[..len], r[..n], rnd.numbers(old(rnd.drawn)) % 4 != 0, rnd.numbers(rnd.drawn - 1) % len)
  {
    r, n := buf, len;
    if len + HAVOC_BLK_XL >= MAX_FILE {
      return;
    }
    var block := ChooseBlock(rnd, buf, len, cfg);
    var to := rnd.UR(len);
    n := len + |block|;
    r := InsertBlock(buf, len, to, block);
    assert r[..n] == r[..];
    assert Drawn(buf[..len], block);
  }

  ghost predicate HasOverwritten(x: Data, y: Data, to: nat, block: Data) {
    to + |block| <= |x| && y == Overwritten(x, to, block)
  }

  ghost predicate IsCopied(x: Data, y: Data) {
    if |x| < 2 then y == x else exists to, block :: HasOverwritten(x, y, to, block) && block != [] && Drawn(x, block)
  }

  /** Length, source, place and kind are drawn in this order. */
  ghost predicate CopyDrawn(numbers: nat -> nat, from: nat, to: nat, cfg: Setting, len: nat, src: nat, dst: nat, n: nat, copied: bool)
    requires cfg.queueCycle > 0
  {
    && 0 < n < len && to >= 3
    && LengthDrawn(numbers, from, to - 3, len - 1, cfg.queueCycle, cfg.runOver10m, n)
    && src == numbers(to - 3) % (len - n + 1) && dst == numbers(to - 2) % (len - n + 1)
    && copied == (numbers(to - 1) % 4 != 0)
  }

  method DrawCopy(rnd: Random, len: nat, cfg: Setting) returns (src: nat, dst: nat, n: nat, copied: bool)
    requires len >= 2 && cfg.queueCycle > 0
    modifies rnd
    ensures 0 < n < len && src + n <= len && dst + n <= len
    ensures CopyDrawn(rnd.numbers, old(rnd.drawn), rnd.drawn, cfg, len, src, dst, n, copied)
  {
    n := ChooseBlockLen(rnd, len - 1, cfg.queueCycle, cfg.runOver10m);
    src := rnd.UR(len - n + 1);
    dst := rnd.UR(len - n + 1);
    var kind := rnd.UR(4);
    copied := kind != 0;
  }

  lemma CopiedBy(x: Data, y: Data, dst: nat, block: Data, copied: bool)
    requires 2 <= |x| && block != [] && HasOverwritten(x, y, dst, block) && DrawnAs(x, block, copied)
    ensures IsCopied(x, y)
  {
    assert Drawn(x, block);
  }

  method CopyOver(buf: array<Byte>, len: nat, from: nat, to: nat, n: nat)
    requires from + n <= len <= buf.Length && to + n <= len
    modifies buf
    ensures buf[..len] == Overwritten(old(buf[..len]), to, old(buf[..len])[from..from + n]) && buf[len..] == old(buf[len..])
  {
    if from != to {
      Patch(buf, len, to, Slice(buf, len, from, n));
    } else {
      ghost var x := buf[..len];
      assert x == Overwritten(x, to, x[from..from + n]);
    }
  }

  /** Overwrites bytes with a block of the buffer, or with constant bytes. */
  method CopyRandom(rnd: Random, buf: array<Byte>, len: nat, cfg: Setting)
    returns (ghost src: nat, ghost dst: nat, ghost n: nat, ghost copied: bool, ghost drawn: nat)
    requires Fits(buf, len) && cfg.queueCycle > 0
    modifies buf, rnd
    ensures buf[len..] == old(buf[len..]) && IsCopied(old(buf[..len]), buf[..len])
    ensures len >= 2 ==> CopyDrawn(rnd.numbers, old(rnd.drawn), drawn, cfg, len, src, dst, n, copied)
    ensures len >= 2 && copied ==> src + n <= len && HasOverwritten(old(buf[..len]), buf[..len], dst, old(buf[..len])[src..src + n])
    ensures len >= 2 && !copied ==> exists v: Byte :: HasOverwritten(old(buf[..len]), buf[..len], dst, Repeat(v, n))
  {
    src, dst, n, copied, drawn := 0, 0, 0, false, 0;
    if len < 2 {
      return;
    }
    ghost var x := buf[..len];
    var from, to, copyLen, copy := DrawCopy(rnd, len, cfg);
    src, dst, n, copied, drawn := from, to, copyLen, copy, rnd.drawn;
    ghost var block := CopyOrFill(rnd, buf, len, from, to, copyLen, copy);
    CopiedBy(x, buf[..len], to, block, copy);
  }

  method CopyOrFill(rnd: Random, buf: array<Byte>, len: nat, from: nat, to: nat, n: nat, copied: bool) returns (ghost block: Data)
    requires Fits(buf, len) && from + n <= len && to + n <= len
    modifies buf, rnd
    ensures |block| == n && DrawnAs(old(buf[..len]), block, copied) && HasOverwritten(old(buf[..len]), buf[..len], to, block)
    ensures copied ==> block == old(buf[..len])[from..from + n]
    ensures !copied ==> exists v: Byte :: block == Repeat(v, n)
    ensures buf[len..] == old(buf[len..])
  {
    ghost var x := buf[..len];
    if copied {
      block := x[from..from + n];
      assert SliceOf(x, from, block);
      CopyOver(buf, len, from, to, n);
    } else {
      var fill := RandomFill(rnd, buf, len, n);
      Patch(buf, len, to, fill);
      block := fill;
    }
  }

  /** Either dictionary if there are tokens in both, and then a token of it. */
  ghost predicate ExtraDrawn(numbers: nat -> nat, drawn: nat, cfg: Setting, extra: Data)
    requires cfg.extras != [] || cfg.autoExtras != []
  {
    if cfg.autoExtras == [] then extra == cfg.extras[numbers(drawn) % |cfg.extras|]
    else if cfg.extras == [] then extra == cfg.autoExtras[numbers(drawn) % |cfg.autoExtras|]
    else if numbers(drawn) % 2 == 0 then extra == cfg.extras[numbers(drawn + 1) % |cfg.extras|]
    else extra == cfg.autoExtras[numbers(drawn + 1) % |cfg.autoExtras|]
  }

  /** One of the dictionary's tokens. */
  method PickExtra(rnd: Random, cfg: Setting) returns (extra: Data)
    requires cfg.extras != [] || cfg.autoExtras != []
    modifies rnd
    ensures IsExtra(cfg, extra)
    ensures ExtraDrawn(rnd.numbers, old(rnd.drawn), cfg, extra)
  {
    var useAuto := cfg.extras == [];
    if cfg.extras != [] && cfg.autoExtras != [] {
      var odds := rnd.UR(2);
      useAuto := odds != 0;
    }
    if useAuto {
      var use := rnd.UR(|cfg.autoExtras|);
      extra := cfg.autoExtras[use];
    } else {
      var use := rnd.UR(|cfg.extras|);
      extra := cfg.extras[use];
    }
  }

  ghost predicate IsExtra(cfg: Setting, extra: Data) {
    extra in cfg.extras || extra in cfg.autoExtras
  }

  /** Puts a token over bytes of the buffer, if it is not longer. */
  method OverwriteExtra(rnd: Random, buf: array<Byte>, len: nat, cfg: Setting) returns (ghost extra: Data, ghost at: nat)
    requires Fits(buf, len) && (cfg.extras != [] || cfg.autoExtras != [])
    modifies buf, rnd
    ensures IsExtra(cfg, extra) && buf[len..] == old(buf[len..]) && ExtraDrawn(rnd.numbers, old(rnd.drawn), cfg, extra)
    ensures |extra| <= len ==> rnd.drawn > 0 && at == rnd.numbers(rnd.drawn - 1) % (len - |extra| + 1)
    ensures if |extra| > len then buf[..len] == old(buf[..len]) else HasOverwritten(old(buf[..len]), buf[..len], at, extra)
  {
    var token := PickExtra(rnd, cfg);
    extra, at := token, 0;
    if |token| > len {
      return;
    }
    var pos := rnd.UR(len - |token| + 1);
    Patch(buf, len, pos, token);
    at := pos;
  }

  /** Inserts a token in a new buffer, if the length stays below the limit. */
  method InsertExtra(rnd: Random, buf: array<Byte>, len: nat, cfg: Setting)
    returns (r: array<Byte>, n: nat, ghost extra: Data, ghost at: nat)
    requires Fits(buf, len) && (cfg.extras != [] || cfg.autoExtras != [])
    modifies rnd
    ensures Fits(r, n) && (r == buf || fresh(r)) && IsExtra(cfg, extra)
    ensures at == rnd.numbers(old(rnd.drawn)) % (len + 1) && ExtraDrawn(rnd.numbers, old(rnd.drawn) + 1, cfg, extra)
    ensures if len + |extra| >= MAX_FILE then r == buf && n == len
            else r.Length == n == len + |extra| && HasInserted(buf[..len], r[..], at, extra)
  {
    r, n := buf, len;
    var pos := rnd.UR(len + 1);
    var token := PickExtra(rnd, cfg);
    extra, at := token, pos;
    if len + |token| >= MAX_FILE {
      return;
    }
    n := len + |token|;
    r := InsertBlock(buf, len, pos, token);
  }

  ghost predicate IsExtraOver(cfg: Setting, x: Data, y: Data) {
    exists extra :: IsExtra(cfg, extra) && OverBy(x, y, extra)
  }

  ghost predicate OverBy(x: Data, y: Data, extra: Data) {
    if |extra| > |x| then y == x else exists at :: HasOverwritten(x, y, at, extra)
  }

  ghost predicate IsExtraIn(cfg: Setting, x: Data, y: Data) {
    exists extra :: IsExtra(cfg, extra) && InBy(x, y, extra)
  }

  ghost predicate InBy(x: Data, y: Data, extra: Data) {
    if |x| + |extra| >= MAX_FILE then y == x else exists at :: HasInserted(x, y, at, extra)
  }

  function Choices(cfg: Setting): nat {
    if cfg.extras != [] || cfg.autoExtras != [] then 17 else 15
  }

  /** What each choice does to the data. */
  ghost predicate Changed(cfg: Setting, x: Data, y: Data, which: nat) {
    if which <= 10 then ChangedInPlace(x, y, which)
    else if which <= 12 then IsCut(x, y)
    else if which == 13 then IsCloned(x, y)
    else if which == 14 then IsCopied(x, y)
    else if which == 15 then IsExtraOver(cfg, x, y)
    else IsExtraIn(cfg, x, y)
  }

  /** One random change: the length stays from 1 to the limit, within the buffer's capacity. */
  method Tweak(rnd: Random, buf: array<Byte>, len: nat, cfg: Setting) returns (r: array<Byte>, n: nat)
    requires Fits(buf, len) && cfg.queueCycle > 0
    modifies buf, rnd
    ensures Fits(r, n) && (r == buf || fresh(r))
    ensures Changed(cfg, old(buf[..len]), r[..n], rnd.numbers(old(rnd.drawn)) % Choices(cfg))
  {
    r, n := buf, len;
    var which := rnd.UR(15 + (if cfg.extras != [] || cfg.autoExtras != [] then 2 else 0));
    if which <= 10 {
      ChangeInPlace(rnd, buf, len, which);
    } else if which <= 12 {
      ghost var at;
      n, at := DeleteRandom(rnd, buf, len, cfg);
    } else if which == 13 {
      r, n := CloneRandom(rnd, buf, len, cfg);
    } else if which == 14 {
      ghost var src, dst, size, copied, drawn := CopyRandom(rnd, buf, len, cfg);
    } else if which == 15 {
      ghost var x := buf[..len];
      ghost var extra, at := OverwriteExtra(rnd, buf, len, cfg);
      assert OverBy(x, buf[..len], extra);
    } else {
      ghost var extra, at;
      r, n, extra, at := InsertExtra(rnd, buf, len, cfg);
      assert r[..n] == if len + |extra| >= MAX_FILE then buf[..len] else r[..];
      assert InBy(buf[..len], r[..n], extra);
    }
  }

  // ----- One run -----

  /** `y` comes from `x` by `n` changes. */
  ghost predicate Changes(cfg: Setting, x: Data, y: Data, n: nat)
    decreases n
  {
    if n == 0 then y == x
    else exists z, which :: 0 <= which < Choices(cfg) && Changed(cfg, z, y, which) && Changes(cfg, x, z, n - 1)
  }

  ghost predicate StackedBy(cfg: Setting, x: Data, y: Data, pow: nat) {
    Changes(cfg, x, y, Pow(2, 1 + pow))
  }

  /** A run is on a stack of 2, 4, 8 and so on up to 128 changes. */
  ghost predicate Stacked(cfg: Setting, x: Data, y: Data) {
    exists pow :: 0 <= pow < HAVOC_STACK_POW2 && StackedBy(cfg, x, y, pow)
  }

  lemma OneMoreChange(cfg: Setting, x: Data, y: Data, z: Data, n: nat, which: nat)
    requires Changes(cfg, x, y, n) && which < Choices(cfg) && Changed(cfg, y, z, which)
    ensures Changes(cfg, x, z, n + 1)
  {
  }

  method StackOne(rnd: Random, buf: array<Byte>, len: nat, cfg: Setting, ghost x: Data, ghost i: nat) returns (r: array<Byte>, n: nat)
    requires Fits(buf, len) && cfg.queueCycle > 0 && Changes(cfg, x, buf[..len], i)
    modifies buf, rnd
    ensures Fits(r, n) && (r == buf || fresh(r)) && Changes(cfg, x, r[..n], i + 1)
  {
    ghost var y, which := buf[..len], rnd.numbers(rnd.drawn) % Choices(cfg);
    r, n := Tweak(rnd, buf, len, cfg);
    OneMoreChange(cfg, x, y, r[..n], i, which);
  }

  /** A number of changes, one after another. */
  method StackUp(rnd: Random, buf: array<Byte>, len: nat, cfg: Setting, stacking: nat) returns (r: array<Byte>, n: nat)
    requires Fits(buf, len) && cfg.queueCycle > 0
    modifies buf, rnd
    ensures Fits(r, n) && (r == buf || fresh(r)) && Changes(cfg, old(buf[..len]), r[..n], stacking)
  {
    r, n := buf, len;
    ghost var x := buf[..len];
    for i := 0 to stacking
      invariant Fits(r, n) && (r == buf || fresh(r)) && Changes(cfg, x, r[..n], i)
    {
      r, n := StackOne(rnd, r, n, cfg, x, i);
    }
  }

  /** A stack of changes. The current length stays allowed, and within the capacity. */
  method Stack(rnd: Random, buf: array<Byte>, len: nat, cfg: Setting) returns (r: array<Byte>, n: nat)
    requires Fits(buf, len) && cfg.queueCycle > 0
    modifies buf, rnd
    ensures Fits(r, n) && (r == buf || fresh(r))
    ensures StackedBy(cfg, old(buf[..len]), r[..n], rnd.numbers(old(rnd.drawn)) % HAVOC_STACK_POW2)
  {
    ghost var x := buf[..len];
    var pow := rnd.UR(HAVOC_STACK_POW2);
    var stacking := Pow(2, 1 + pow);
    r, n := StackUp(rnd, buf, len, cfg, stacking);
    StackIs(cfg, x, r[..n], pow, stacking);
  }

  lemma StackIs(cfg: Setting, x: Data, y: Data, pow: nat, n: nat)
    requires n == Pow(2, 1 + pow) && Changes(cfg, x, y, n)
    ensures StackedBy(cfg, x, y, pow)
  {
  }

  /** Makes the buffer the input again, growing it if it has become too small. */
  method Restore(buf: array<Byte>, tempLen: nat, input: Data) returns (r: array<Byte>)
    requires Fits(buf, tempLen) && 1 <= |input| <= MAX_FILE
    modifies buf
    ensures Fits(r, |input|) && r[..|input|] == input && (r == buf || fresh(r))
  {
    var len := |input|;
    r := buf;
    if tempLen < len {
      r := Reallocate(r, len);
    }
    for k := 0 to len
      invariant r[..k] == input[..k]
    {
      r[k] := input[k];
    }
  }

  /** One run of the target on a stack of changes, after which the buffer is the input again,
      unless the stage is abandoned. `tested` is what the target was run on. */
  method Round(rnd: Random, buf: array<Byte>, input: Data, cfg: Setting, abandon: bool) returns (r: array<Byte>, tested: Data)
    requires Fits(buf, |input|) && buf[..|input|] == input && cfg.queueCycle > 0
    modifies buf, rnd
    ensures r == buf || fresh(r)
    ensures !abandon ==> Fits(r, |input|) && r[..|input|] == input
    ensures Stacked(cfg, input, tested)
    ensures 1 <= |tested| <= MAX_FILE && (abandon ==> |tested| <= r.Length && r[..|tested|] == tested)
  {
    var tempLen;
    r, tempLen := Stack(rnd, buf, |input|, cfg);
    tested := r[..tempLen];
    assert Stacked(cfg, input, tested);
    if !abandon {
      r := Restore(r, tempLen, input);
    }
  }

  /** The old contents are kept as far as they fit. */
  method Reallocate(buf: array<Byte>, len: nat) returns (r: array<Byte>)
    ensures fresh(r) && r.Length == len
    ensures forall i :: 0 <= i < len && i < buf.Length ==> r[i] == buf[i]
  {
    var was := buf[..];
    r := new Byte[len](i => if 0 <= i < |was| then was[i] else 0);
  }

  // ----- The number of runs -----

  /** What slow targets have their number of runs divided by. */
  predicate Divisor(d: nat) {
    d == 1 || d == 2 || d == 5 || d == 10
  }

  /** How many runs are planned after `k` of them, and the score by then: a run that finds something
      doubles both, up to the limit. */
  ghost function Planned(start: nat, score: nat, finds: nat -> bool, k: nat): (nat, nat) {
    if k == 0 then (start, score)
    else
      var p := Planned(start, score, finds, k - 1);
      if finds(k - 1) && p.1 <= HAVOC_MAX_MULT * 100 then (2 * p.0, 2 * p.1) else p
  }

  /** Every run was still planned when it started. */
  ghost predicate WithinPlan(start: nat, score: nat, finds: nat -> bool, runs: nat) {
    forall k :: 0 <= k < runs ==> k < Planned(start, score, finds, k).0
  }

  ghost predicate OnPlan(start: nat, score: nat, finds: nat -> bool, runs: nat, stageMax: nat, perfScore: nat) {
    Planned(start, score, finds, runs) == (stageMax, perfScore) && WithinPlan(start, score, finds, runs)
  }

  lemma PlanNext(start: nat, score: nat, finds: nat -> bool, runs: nat, stageMax: nat, perfScore: nat)
    requires OnPlan(start, score, finds, runs, stageMax, perfScore) && runs < stageMax
    ensures var doubled := finds(runs) && perfScore <= HAVOC_MAX_MULT * 100;
            OnPlan(start, score, finds, runs + 1, if doubled then 2 * stageMax else stageMax, if doubled then 2 * perfScore else perfScore)
  {
  }

  function FirstPlan(cycles: nat, score: nat, havocDiv: nat): nat
    requires havocDiv > 0
  {
    Max(cycles * score / havocDiv / 100, HAVOC_MIN)
  }

  function Cycles(doingDet: bool, splicing: bool): nat {
    if splicing then SPLICE_HAVOC else if doingDet then HAVOC_CYCLES_INIT else HAVOC_CYCLES
  }

  /** The runs of one havoc or splice stage. `finds` tells after which runs the queue has grown,
      and `abandons` after which the stage is given up. Whatever is found, every run is on a
      stack of changes of allowed length and there are at most 32768 of them; a stage that is not abandoned
      has at least 16, and leaves the buffer as the input. */
  method HavocStage(rnd: Random, buf: array<Byte>, input: Data, cfg: Setting, doingDet: bool, splicing: bool, score: nat,
                    havocDiv: nat, finds: nat -> bool, abandons: nat -> bool)
    returns (r: array<Byte>, runs: nat, abandoned: bool, ghost tested: seq<Data>)
    requires Fits(buf, |input|) && buf[..|input|] == input && cfg.queueCycle > 0
    requires 2 <= score <= HAVOC_MAX_MULT * 100 && Divisor(havocDiv)
    modifies buf, rnd
    ensures 1 <= runs <= 32768
    ensures abandoned <==> abandons(runs - 1)
    ensures forall k :: 0 <= k < runs - 1 ==> !abandons(k)
    ensures !abandoned ==> HAVOC_MIN <= runs && Fits(r, |input|) && r[..|input|] == input
    ensures |tested| == runs && AllStacked(cfg, input, tested)
    ensures var start := FirstPlan(Cycles(doingDet, splicing), score, havocDiv);
            && (!abandoned ==> runs == Planned(start, score, finds, runs).0)
            && WithinPlan(start, score, finds, runs)
  {
    var cycles := if splicing then SPLICE_HAVOC else if doingDet then HAVOC_CYCLES_INIT else HAVOC_CYCLES;
    var stageMax: nat := cycles * score / havocDiv / 100;
    StageBound(cycles, score, havocDiv);
    if stageMax < HAVOC_MIN {
      stageMax := HAVOC_MIN;
    }
    r, runs, abandoned, tested := StageLoop(rnd, buf, input, cfg, stageMax, score, finds, abandons);
  }

  /** The data run so far are stacks of changes of allowed length. */
  ghost predicate AllStacked(cfg: Setting, input: Data, tested: seq<Data>) {
    forall k :: 0 <= k < |tested| ==> 1 <= |tested[k]| <= MAX_FILE && Stacked(cfg, input, tested[k])
  }

  method StageTurn(rnd: Random, buf: array<Byte>, input: Data, cfg: Setting, abandon: bool, ghost tested: seq<Data>)
    returns (r: array<Byte>, ghost more: seq<Data>)
    requires Fits(buf, |input|) && buf[..|input|] == input && cfg.queueCycle > 0 && AllStacked(cfg, input, tested)
    modifies buf, rnd
    ensures r == buf || fresh(r)
    ensures !abandon ==> Fits(r, |input|) && r[..|input|] == input
    ensures |more| == |tested| + 1 && AllStacked(cfg, input, more)
  {
    var data;
    r, data := Round(rnd, buf, input, cfg, abandon);
    more := tested + [data];
  }

  method StageLoop(rnd: Random, buf: array<Byte>, input: Data, cfg: Setting, start: nat, score: nat, finds: nat -> bool, abandons: nat -> bool)
    returns (r: array<Byte>, runs: nat, abandoned: bool, ghost tested: seq<Data>)
    requires Fits(buf, |input|) && buf[..|input|] == input && cfg.queueCycle > 0
    requires HAVOC_MIN <= start && 100 * start <= 1024 * score && score <= HAVOC_MAX_MULT * 100
    modifies buf, rnd
    ensures 1 <= runs <= 32768 && (abandoned <==> abandons(runs - 1)) && forall k :: 0 <= k < runs - 1 ==> !abandons(k)
    ensures !abandoned ==> HAVOC_MIN <= runs && Fits(r, |input|) && r[..|input|] == input
    ensures |tested| == runs && AllStacked(cfg, input, tested)
    ensures (!abandoned ==> runs == Planned(start, score, finds, runs).0) && WithinPlan(start, score, finds, runs)
  {
    var stageMax: nat, perfScore: nat := start, score;
    r, runs, abandoned, tested := buf, 0, false, [];
    while runs < stageMax
      invariant OnPlan(start, score, finds, runs, stageMax, perfScore)
      invariant runs <= stageMax && HAVOC_MIN <= stageMax
      invariant 100 * stageMax <= 1024 * perfScore && perfScore <= 2 * HAVOC_MAX_MULT * 100
      invariant Fits(r, |input|) && r[..|input|] == input && (r == buf || fresh(r))
      invariant |tested| == runs && AllStacked(cfg, input, tested)
      invariant !abandoned && forall k :: 0 <= k < runs ==> !abandons(k)
      decreases 32768 - runs
    {
      PlanNext(start, score, finds, runs, stageMax, perfScore);
      abandoned := abandons(runs);
      r, tested := StageTurn(rnd, r, input, cfg, abandoned, tested);
      runs := runs + 1;
      if abandoned {
        return;
      }
      if finds(runs - 1) && perfScore <= HAVOC_MAX_MULT * 100 {
        stageMax, perfScore := stageMax * 2, perfScore * 2;
      }
    }
  }

  lemma StageBound(cycles: nat, score: nat, div: nat)
    requires cycles <= 1024 && Divisor(div)
    ensures 100 * (cycles * score / div / 100) <= 1024 * score
  {
    var p := cycles * score;
    ScoreProduct(cycles, score);
    Quotient(p, div);
  }

  lemma ScoreProduct(cycles: nat, score: nat)
    requires cycles <= 1024
    ensures cycles * score <= 1024 * score
  {
  }

  lemma Quotient(p: nat, div: nat)
    requires Divisor(div)
    ensures 0 <= p / div <= p
  {
    if div == 1 {
      assert p / 1 <= p;
    } else if div == 2 {
      assert p / 2 <= p;
    } else if div == 5 {
      assert p / 5 <= p;
    } else {
      assert p / 10 <= p;
    }
  }
}
