/** The orders of switch table bases that are safe for every section and all functions. */
module SafeOrders {
  import opened Bits
  import opened SwitchTables

  /** The function that each base belongs to. A function's bases are a set, in descending
      order. */
  ghost predicate Owned(owner: seq<nat>, order: seq<nat>) {
    |owner| == |order| && forall i, j :: 0 <= i < j < |order| && owner[i] == owner[j] ==> order[i] > order[j]
  }

  /** All bases of a function share its instructions. */
  function ByOwner(valid: (nat, nat) -> bool, owner: seq<nat>): (nat, nat) -> bool {
    (m: nat, t: nat) => m < |owner| && valid(owner[m], t)
  }

  /** The section that shows an order to be unsafe: what a base reads in it leads to the same
      address for all bases, but for `p` and `q`. */
  function Trap(n: nat, base: nat, p: nat, q: nat): (r: seq<Byte>)
    ensures |r| == n
  {
    seq(n, i => (p + 5 + Mark(base + i, p, q) - (base + i)) % 256)
  }

  function Mark(x: int, p: nat, q: nat): nat {
    if x == p then 1 else if x == q then 2 else 0
  }

  function ValueAt(bytes: seq<Byte>, i: nat): nat
    requires i + 4 <= |bytes|
  {
    Word(bytes[i..i + 4])
  }

  lemma LoadedRaw(bytes: seq<Byte>, i: nat)
    requires i + 4 <= |bytes|
    ensures AllRaw(Loaded(bytes), i) && Word(RawBytes(Loaded(bytes), i)) == ValueAt(bytes, i) < WORD32
    ensures ValueAt(bytes, i) % 256 == bytes[i]
  {
    var cells := Loaded(bytes);
    assert RawBytes(cells, i) == bytes[i..i + 4];
    WordBound(bytes[i..i + 4]);
    var b, h := bytes[i] as int, Word(bytes[i..i + 4][1..]);
    assert Word(bytes[i..i + 4]) == b + 256 * h;
    LowByte(b, h);
  }

  lemma LowByte(b: nat, h: nat)
    requires b < 256
    ensures (b + 256 * h) % 256 == b
  {
  }

  /** The address that a slot at `s` of the table of `q` leads to. */
  function TargetOf(bytes: seq<Byte>, base: nat, s: nat, q: nat): nat
    requires base <= s && s - base + 4 <= |bytes|
  {
    (ValueAt(bytes, s - base) + q) % WORD32
  }

  /** Its low byte follows from the first byte of the slot. */
  lemma LowOfTarget(bytes: seq<Byte>, base: nat, s: nat, q: nat, e: int)
    requires base <= s && s - base + 4 <= |bytes| && bytes[s - base] == (e - s) % 256
    ensures TargetOf(bytes, base, s, q) % 256 == (e - s + q) % 256
  {
    LoadedRaw(bytes, s - base);
    LowOfSum(ValueAt(bytes, s - base), q);
    SumOfLows(ValueAt(bytes, s - base), e - s, q);
  }

  lemma LowOfSum(v: nat, q: nat)
    ensures (v + q) % WORD32 % 256 == (v + q) % 256
  {
    var h := (v + q) / WORD32;
    assert v + q == WORD32 * h + (v + q) % WORD32;
    SumOfLows((v + q) % WORD32, (v + q) % WORD32, 256 * (0x100_0000 * h));
    Multiples((v + q) % WORD32, 0x100_0000 * h);
  }

  lemma Multiples(r: nat, k: nat)
    ensures (r + 256 * k) % 256 == r % 256
  {
  }

  lemma SumOfLows(a: int, b: int, q: int)
    requires a % 256 == b % 256
    ensures (a + q) % 256 == (b + q) % 256
  {
    var k := a / 256 - b / 256;
    assert a == b + 256 * k;
    Shifted(b + q, k);
  }

  lemma Shifted(r: int, k: int)
    ensures (r + 256 * k) % 256 == r % 256
  {
  }

  /** No two of these numbers have the same low byte. */
  lemma FourLows(p: nat)
    ensures (p + 5) % 256 != (p + 6) % 256 && (p + 5) % 256 != (p + 7) % 256 && (p + 6) % 256 != (p + 7) % 256
    ensures (p + 1) % 256 != (p + 6) % 256
  {
  }

  /** Cells whose raw values are the original bytes. */
  ghost predicate RawFrom(cells: seq<Cell>, bytes: seq<Byte>) {
    |cells| == |bytes| && forall i :: 0 <= i < |cells| && cells[i].value.Raw? ==> cells[i].value.b == bytes[i]
  }

  lemma RawFromReads(cells: seq<Cell>, bytes: seq<Byte>, i: nat)
    requires RawFrom(cells, bytes) && AllRaw(cells, i)
    ensures Word(RawBytes(cells, i)) == ValueAt(bytes, i)
  {
    assert RawBytes(cells, i) == bytes[i..i + 4];
  }

  /** The two functions see one instruction each. */
  function TwoTargets(f: nat, g: nat, x: nat, y: nat): (nat, nat) -> bool {
    (h: nat, t: nat) => (h == f && t == x) || (h == g && t == y)
  }

  /** Two close bases of different functions, the lower one first, in the section made for them,
      with the instruction that each of them leads to. */
  ghost predicate Trapped(bytes: seq<Byte>, base: nat, order: seq<nat>, owner: seq<nat>, a: nat, b: nat, valid: (nat, nat) -> bool) {
    && Owned(owner, order) && InSection(base, |bytes|, order)
    && a < b < |order| && order[a] < order[b] < order[a] + 4 && order[b] + 4 <= base + |bytes|
    && bytes == Trap(|bytes|, base, order[a], order[b])
    && valid == TwoTargets(owner[a], owner[b], TargetOf(bytes, base, order[a], order[a]), TargetOf(bytes, base, order[b], order[b]))
  }

  lemma TrapAt(bytes: seq<Byte>, base: nat, p: nat, q: nat, x: nat)
    requires bytes == Trap(|bytes|, base, p, q) && base <= x < base + |bytes|
    ensures bytes[x - base] == (p + 5 + Mark(x, p, q) - x) % 256
  {
  }

  lemma TrapTargets(bytes: seq<Byte>, base: nat, p: nat, q: nat, x: nat)
    requires bytes == Trap(|bytes|, base, p, q) && base <= x && x + 4 <= base + |bytes|
    ensures TargetOf(bytes, base, x, x) % 256 == (p + 5 + Mark(x, p, q)) % 256
  {
    TrapAt(bytes, base, p, q, x);
    LowOfTarget(bytes, base, x, x, p + 5 + Mark(x, p, q));
  }

  /** No other base leads to an instruction of its function. */
  lemma OthersLeadNowhere(bytes: seq<Byte>, base: nat, order: seq<nat>, owner: seq<nat>, a: nat, b: nat, valid: (nat, nat) -> bool, m: nat)
    requires Trapped(bytes, base, order, owner, a, b, valid) && m < |order| && m != a && m != b && order[m] + 4 <= base + |bytes|
    ensures !ByOwner(valid, owner)(m, TargetOf(bytes, base, order[m], order[m]))
  {
    var p, q, x := order[a], order[b], order[m];
    TrapTargets(bytes, base, p, q, p);
    TrapTargets(bytes, base, p, q, q);
    TrapTargets(bytes, base, p, q, x);
    FourLows(p);
  }

  /** A pass that stands at some cells before such a base stands at them after it. */
  lemma QuietStep(cells: seq<Cell>, bytes: seq<Byte>, base: nat, order: seq<nat>, owner: seq<nat>,
                  a: nat, b: nat, valid: (nat, nat) -> bool, m: nat)
    requires Trapped(bytes, base, order, owner, a, b, valid) && m < |order| && m != a && m != b && RawFrom(cells, bytes)
    requires Stands(bytes, base, order, ByOwner(valid, owner), m, cells)
    ensures Stands(bytes, base, order, ByOwner(valid, owner), m + 1, cells)
  {
    QuietAt(cells, bytes, base, order, owner, a, b, valid, m);
    NoWalk(cells, base, Elements(order), For(ByOwner(valid, owner), m), order[m]);
    StandsNext(bytes, base, order, ByOwner(valid, owner), m, cells, cells);
  }

  /** The pass has come to these cells after `n` bases. */
  ghost predicate Stands(bytes: seq<Byte>, base: nat, order: seq<nat>, valid: (nat, nat) -> bool, n: nat, cells: seq<Cell>) {
    n <= |order| && Pass(Loaded(bytes), base, order, valid, n) == cells
  }

  lemma StandsNext(bytes: seq<Byte>, base: nat, order: seq<nat>, valid: (nat, nat) -> bool, m: nat, cells: seq<Cell>, next: seq<Cell>)
    requires m < |order| && Stands(bytes, base, order, valid, m, cells)
    requires Walk(cells, base, Elements(order), For(valid, m), order[m], order[m]) == next
    ensures Stands(bytes, base, order, valid, m + 1, next)
  {
  }

  lemma NoWalk(cells: seq<Cell>, base: nat, all: set<nat>, valid: nat -> bool, x: nat)
    requires !Recognised(cells, base, valid, x, x)
    ensures Walk(cells, base, all, valid, x, x) == cells
  {
  }

  lemma QuietAt(cells: seq<Cell>, bytes: seq<Byte>, base: nat, order: seq<nat>, owner: seq<nat>,
                a: nat, b: nat, valid: (nat, nat) -> bool, m: nat)
    requires Trapped(bytes, base, order, owner, a, b, valid) && m < |order| && m != a && m != b && RawFrom(cells, bytes)
    ensures !Recognised(cells, base, For(ByOwner(valid, owner), m), order[m], order[m])
  {
    var x := order[m];
    assert base <= x;
    if AllRaw(cells, x - base) {
      RawFromReads(cells, bytes, x - base);
      OthersLeadNowhere(bytes, base, order, owner, a, b, valid, m);
    }
  }

  lemma LoadedIsRaw(bytes: seq<Byte>)
    ensures RawFrom(Loaded(bytes), bytes)
  {
  }

  /** The pass stands at these cells before base `m`, in the section made for the two. */
  ghost predicate AtBase(cells: seq<Cell>, bytes: seq<Byte>, base: nat, order: seq<nat>, owner: seq<nat>,
                         a: nat, b: nat, valid: (nat, nat) -> bool, m: nat)
  {
    && Trapped(bytes, base, order, owner, a, b, valid) && RawFrom(cells, bytes)
    && m <= b && Stands(bytes, base, order, ByOwner(valid, owner), m, cells)
  }

  lemma QuietTurn(cells: seq<Cell>, bytes: seq<Byte>, base: nat, order: seq<nat>, owner: seq<nat>,
                  a: nat, b: nat, valid: (nat, nat) -> bool, m: nat)
    requires AtBase(cells, bytes, base, order, owner, a, b, valid, m) && m < b && m != a
    ensures AtBase(cells, bytes, base, order, owner, a, b, valid, m + 1)
  {
    QuietStep(cells, bytes, base, order, owner, a, b, valid, m);
  }

  /** A stretch of bases without the two leaves the cells alone. */
  lemma {:induction false} QuietRun(cells: seq<Cell>, bytes: seq<Byte>, base: nat, order: seq<nat>, owner: seq<nat>,
                                    a: nat, b: nat, valid: (nat, nat) -> bool, m: nat, n: nat)
    requires AtBase(cells, bytes, base, order, owner, a, b, valid, m) && m <= n <= b && (n <= a || a < m)
    ensures AtBase(cells, bytes, base, order, owner, a, b, valid, n)
    decreases n - m
  {
    if m < n {
      QuietTurn(cells, bytes, base, order, owner, a, b, valid, m);
      QuietRun(cells, bytes, base, order, owner, a, b, valid, m + 1, n);
    }
  }

  lemma FirstRecognised(bytes: seq<Byte>, base: nat, order: seq<nat>, owner: seq<nat>, a: nat, b: nat, valid: (nat, nat) -> bool)
    requires Trapped(bytes, base, order, owner, a, b, valid)
    ensures Recognised(Loaded(bytes), base, For(ByOwner(valid, owner), a), order[a], order[a])
  {
    var p := order[a];
    assert base <= p;
    LoadedRaw(bytes, p - base);
    TrapAt(bytes, base, p, order[b], p);
    assert bytes[p - base] == 6;
  }

  lemma SecondTargetDiffers(bytes: seq<Byte>, base: nat, p: nat, q: nat)
    requires bytes == Trap(|bytes|, base, p, q) && base <= p < q < p + 4 && p + 8 <= base + |bytes|
    ensures TargetOf(bytes, base, p + 4, p) != TargetOf(bytes, base, p, p)
  {
    TrapAt(bytes, base, p, q, p + 4);
    LowOfTarget(bytes, base, p + 4, p, p + 5);
    TrapTargets(bytes, base, p, q, p);
    FourLows(p);
  }

  lemma SecondNotRecognised(bytes: seq<Byte>, base: nat, order: seq<nat>, owner: seq<nat>, a: nat, b: nat, valid: (nat, nat) -> bool,
                            next: seq<Cell>)
    requires Trapped(bytes, base, order, owner, a, b, valid) && RawFrom(next, bytes)
    ensures !Recognised(next, base, For(ByOwner(valid, owner), a), order[a], order[a] + 4)
  {
    var p := order[a];
    assert base <= p && owner[a] != owner[b];
    if AllRaw(next, p + 4 - base) {
      RawFromReads(next, bytes, p + 4 - base);
      SecondTargetDiffers(bytes, base, p, order[b]);
    }
  }

  /** The cells after the lower base has got its slot. */
  ghost predicate OneSlot(bytes: seq<Byte>, base: nat, p: nat, next: seq<Cell>) {
    && base <= p && AllRaw(Loaded(bytes), p - base) && next == PutSlot(Loaded(bytes), base, p, p)
    && RawFrom(next, bytes) && p - base + 4 <= |bytes|
  }

  lemma FirstSlot(bytes: seq<Byte>, base: nat, p: nat) returns (next: seq<Cell>)
    requires base <= p && p + 4 <= base + |bytes|
    ensures OneSlot(bytes, base, p, next)
  {
    LoadedRaw(bytes, p - base);
    LoadedIsRaw(bytes);
    next := PutSlot(Loaded(bytes), base, p, p);
  }

  lemma OneSlotWalk(cells: seq<Cell>, base: nat, all: set<nat>, valid: nat -> bool, p: nat, next: seq<Cell>)
    requires Recognised(cells, base, valid, p, p) && next == PutSlot(cells, base, p, p)
    requires !Recognised(next, base, valid, p, p + 4)
    ensures Walk(cells, base, all, valid, p, p) == next
  {
  }

  /** The lower base gets one slot, and no more. */
  lemma FirstTable(bytes: seq<Byte>, base: nat, order: seq<nat>, owner: seq<nat>, a: nat, b: nat, valid: (nat, nat) -> bool, next: seq<Cell>)
    requires Trapped(bytes, base, order, owner, a, b, valid) && OneSlot(bytes, base, order[a], next)
    ensures Stands(bytes, base, order, ByOwner(valid, owner), a + 1, next)
  {
    var cells, v := Loaded(bytes), For(ByOwner(valid, owner), a);
    LoadedIsRaw(bytes);
    assert Stands(bytes, base, order, ByOwner(valid, owner), 0, cells);
    QuietRun(cells, bytes, base, order, owner, a, b, valid, 0, a);
    FirstRecognised(bytes, base, order, owner, a, b, valid);
    SecondNotRecognised(bytes, base, order, owner, a, b, valid, next);
    OneSlotWalk(cells, base, Elements(order), v, order[a], next);
    StandsNext(bytes, base, order, ByOwner(valid, owner), a, cells, next);
  }

  lemma UpperRecognised(bytes: seq<Byte>, base: nat, order: seq<nat>, owner: seq<nat>, a: nat, b: nat, valid: (nat, nat) -> bool, now: seq<Cell>)
    requires Trapped(bytes, base, order, owner, a, b, valid) && OneSlot(bytes, base, order[a], now)
    ensures now[order[b] - base].ignored && Recognised(now, base, For(ByOwner(valid, owner), b), order[b], order[b])
  {
    var i := order[b] - base;
    SlotLeavesRaw(bytes, base, order[a], now, i);
    LoadedRaw(bytes, i);
    RawFromReads(now, bytes, i);
    TrapAt(bytes, base, order[a], order[b], order[b]);
    SmallByte(order[a], order[b]);
  }

  lemma SlotLeavesRaw(bytes: seq<Byte>, base: nat, p: nat, now: seq<Cell>, i: nat)
    requires OneSlot(bytes, base, p, now) && p - base < i < p - base + 4 && i + 4 <= |bytes|
    ensures |now| == |bytes| && now[i].ignored && AllRaw(now, i)
  {
  }

  lemma SmallByte(p: nat, q: nat)
    requires p < q < p + 4
    ensures (p + 7 - q) % 256 != 0
  {
  }

  lemma CloseBasesCollide(bytes: seq<Byte>, base: nat, order: seq<nat>, owner: seq<nat>, a: nat, b: nat, valid: (nat, nat) -> bool)
    requires Trapped(bytes, base, order, owner, a, b, valid)
    ensures Collides(Loaded(bytes), base, order, ByOwner(valid, owner), b)
  {
    var next := FirstSlot(bytes, base, order[a]);
    FirstTable(bytes, base, order, owner, a, b, valid, next);
    QuietRun(next, bytes, base, order, owner, a, b, valid, a + 1, b);
    UpperRecognised(bytes, base, order, owner, a, b, valid, next);
  }

  ghost predicate Safe(base: nat, n: nat, order: seq<nat>, bytes: seq<Byte>, valid: (nat, nat) -> bool) {
    |bytes| == n ==> Intact(Pass(Loaded(bytes), base, order, valid, |order|), base, bytes)
  }

  /** The orders of bases that keep the layout whatever the bytes are and whatever instructions
      the functions have: exactly those in which no base comes after one that it follows by
      less than a slot, unless it is too near the end of the section to start a table. */
  lemma SafeOrderIff(base: nat, n: nat, order: seq<nat>, owner: seq<nat>)
    requires InSection(base, n, order) && Owned(owner, order)
    ensures (forall bytes: seq<Byte>, valid: (nat, nat) -> bool :: Safe(base, n, order, bytes, ByOwner(valid, owner))) <==>
            Harmless(order, base + n)
  {
    if Harmless(order, base + n) {
      forall bytes: seq<Byte>, valid: (nat, nat) -> bool ensures Safe(base, n, order, bytes, ByOwner(valid, owner)) {
        if |bytes| == n {
          HarmlessPassTiles(base, bytes, order, ByOwner(valid, owner));
        }
      }
    } else {
      var a, b :| 0 <= a < b < |order| && order[a] < order[b] < order[a] + 4 && order[b] + 4 <= base + n;
      var p, q := order[a], order[b];
      var bytes := Trap(n, base, p, q);
      var valid := TwoTargets(owner[a], owner[b], TargetOf(bytes, base, p, p), TargetOf(bytes, base, q, q));
      CloseBasesCollide(bytes, base, order, owner, a, b, valid);
      PassIntactIff(base, bytes, order, ByOwner(valid, owner));
      assert !Safe(base, n, order, bytes, ByOwner(valid, owner));
    }
  }
}
