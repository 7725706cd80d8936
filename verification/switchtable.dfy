/** Jump tables in a data section: the 4-byte slots that become label differences. */
module SwitchTables {
  import opened Options
  import opened Bits

  const WORD32: nat := 0x1_0000_0000

  /** What a cell prints: a byte, or the difference of two labels. */
  datatype Value = Raw(b: Byte) | Difference(target: nat, origin: nat)

  datatype Cell = Cell(value: Value, sz: nat, ignored: bool, symbolized: bool)

  // ----- Cells of a section -----

  predicate Labelled(cells: seq<Cell>, k: int) {
    0 <= k < |cells| && cells[k].value.Difference?
  }

  /** A slot that starts one, two or three cells earlier takes up cell `i`. */
  predicate Covered(cells: seq<Cell>, i: int) {
    Labelled(cells, i - 1) || Labelled(cells, i - 2) || Labelled(cells, i - 3)
  }

  /** No candidate base in a range of addresses. */
  ghost predicate NoBase(all: set<nat>, lo: int, hi: int) {
    forall x :: x in all ==> x < lo || hi <= x
  }

  /** A slot of the table with the given origin. Its table starts with a slot of its own, and
      no candidate base lies past the first slot. */
  ghost predicate InTable(cells: seq<Cell>, base: nat, all: set<nat>, done: set<nat>, i: nat, origin: nat) {
    && base <= origin <= base + i && origin in done
    && Labelled(cells, origin - base) && cells[origin - base].value.origin == origin
    && (base + i - origin) % 4 == 0
    && NoBase(all, origin + 4, base + i + 4)
  }

  ghost predicate SlotOk(cells: seq<Cell>, base: nat, bytes: seq<Byte>, i: nat)
    requires |cells| == |bytes| && Labelled(cells, i)
  {
    && i + 4 <= |cells| && !cells[i].ignored && cells[i].sz == 4
    && !Labelled(cells, i + 1) && !Labelled(cells, i + 2) && !Labelled(cells, i + 3)
    && (cells[i].value.target - cells[i].value.origin) % WORD32 == Word(bytes[i..i + 4])
  }

  ghost predicate CellOk(cells: seq<Cell>, base: nat, bytes: seq<Byte>, i: nat)
    requires |cells| == |bytes| && i < |cells|
  {
    if Labelled(cells, i) then SlotOk(cells, base, bytes, i)
    else cells[i] == Cell(Raw(bytes[i]), 1, Covered(cells, i), false)
  }

  /** The section is tiled by bytes and slots, and every slot belongs to the table of a base
      that was worked on. */
  ghost predicate Tiled(cells: seq<Cell>, base: nat, bytes: seq<Byte>, all: set<nat>, done: set<nat>) {
    && |cells| == |bytes|
    && (forall i :: 0 <= i < |cells| ==> CellOk(cells, base, bytes, i))
    && (forall i :: Labelled(cells, i) ==> InTable(cells, base, all, done, i, cells[i].value.origin))
  }

  function Loaded(bytes: seq<Byte>): seq<Cell> {
    seq(|bytes|, i requires 0 <= i < |bytes| => Cell(Raw(bytes[i]), 1, false, false))
  }

  lemma LoadedIsTiled(base: nat, bytes: seq<Byte>, all: set<nat>)
    ensures Tiled(Loaded(bytes), base, bytes, all, {})
  {
  }

  // ----- Replacing a slot -----

  /** The cells after a slot is put at cell `i`. */
  function Put(cells: seq<Cell>, i: nat, target: nat, origin: nat): (r: seq<Cell>)
    requires i < |cells|
    ensures |r| == |cells|
  {
    seq(|cells|, k requires 0 <= k < |cells| =>
      if k == i then Cell(Difference(target, origin), 4, cells[i].ignored, true)
      else if i < k < i + 4 then cells[k].(ignored := true)
      else cells[k])
  }

  predicate AllRaw(cells: seq<Cell>, i: nat) {
    i + 4 <= |cells| && forall k :: i <= k < i + 4 ==> cells[k].value.Raw?
  }

  lemma PutLabels(cells: seq<Cell>, i: nat, target: nat, origin: nat, k: int)
    requires i < |cells|
    ensures Labelled(Put(cells, i, target, origin), k) <==> k == i || Labelled(cells, k)
  {
  }

  lemma PutKeepsCell(cells: seq<Cell>, base: nat, bytes: seq<Byte>, i: nat, target: nat, origin: nat, k: nat)
    requires |cells| == |bytes| && forall j :: 0 <= j < |cells| ==> CellOk(cells, base, bytes, j)
    requires AllRaw(cells, i) && !cells[i].ignored && (target - origin) % WORD32 == Word(bytes[i..i + 4]) && k < |cells|
    ensures CellOk(Put(cells, i, target, origin), base, bytes, k)
  {
    var r := Put(cells, i, target, origin);
    assert CellOk(cells, base, bytes, k) && CellOk(cells, base, bytes, i);
    assert !Covered(cells, i);
    forall j: int | k - 3 <= j <= k + 3
      ensures Labelled(r, j) <==> j == i || Labelled(cells, j)
    {
      PutLabels(cells, i, target, origin, j);
    }
    assert forall j :: i <= j < i + 4 ==> !Labelled(cells, j);
  }

  /** A slot over four raw bytes, the first of which is no part of another slot, keeps the
      tiling. */
  lemma PutKeepsTiled(cells: seq<Cell>, base: nat, bytes: seq<Byte>, all: set<nat>, done: set<nat>, i: nat, target: nat, origin: nat)
    requires Tiled(cells, base, bytes, all, done) && AllRaw(cells, i) && !cells[i].ignored
    requires (target - origin) % WORD32 == Word(bytes[i..i + 4])
    requires InTable(Put(cells, i, target, origin), base, all, done, i, origin)
    ensures Tiled(Put(cells, i, target, origin), base, bytes, all, done)
  {
    var r := Put(cells, i, target, origin);
    forall k | 0 <= k < |r| ensures CellOk(r, base, bytes, k) {
      PutKeepsCell(cells, base, bytes, i, target, origin, k);
    }
    forall k | Labelled(r, k) ensures InTable(r, base, all, done, k, r[k].value.origin) {
      PutLabels(cells, i, target, origin, k);
      if k != i {
        assert InTable(cells, base, all, done, k, cells[k].value.origin);
        PutLabels(cells, i, target, origin, cells[k].value.origin - base);
      }
    }
  }

  // ----- Why a table never starts inside a slot -----

  /** A later base does not lie inside the first slot of an earlier one. */
  ghost predicate Clear(done: set<nat>, q: nat) {
    forall p :: p in done ==> !(p < q < p + 4)
  }

  lemma BaseOutside(cells: seq<Cell>, base: nat, bytes: seq<Byte>, all: set<nat>, done: set<nat>, q: nat, k: int)
    requires Tiled(cells, base, bytes, all, done) && q in all && Clear(done, q)
    ensures Labelled(cells, k) ==> base + k + 4 <= q || q <= base + k
  {
    if Labelled(cells, k) {
      assert InTable(cells, base, all, done, k, cells[k].value.origin);
    }
  }

  lemma BaseIsFree(cells: seq<Cell>, base: nat, bytes: seq<Byte>, all: set<nat>, done: set<nat>, q: nat)
    requires Tiled(cells, base, bytes, all, done) && q in all && Clear(done, q)
    requires base <= q < base + |cells| && !Labelled(cells, q - base)
    ensures !cells[q - base].ignored
  {
    var i := q - base;
    assert CellOk(cells, base, bytes, i);
    BaseOutside(cells, base, bytes, all, done, q, i - 1);
    BaseOutside(cells, base, bytes, all, done, q, i - 2);
    BaseOutside(cells, base, bytes, all, done, q, i - 3);
  }

  /** The table of `q` has reached address `s`: its first slot is in place, and no base lies
      in the slots from the second one on. */
  ghost predicate Walked(cells: seq<Cell>, base: nat, all: set<nat>, q: nat, s: nat) {
    && base <= q && q + 4 <= s && (s - q) % 4 == 0 && NoBase(all, q + 4, s)
    && Labelled(cells, q - base) && cells[q - base].value.origin == q
  }

  /** Slots near `s` are out of its way, whether they are of this table or of another. */
  lemma SlotOutside(cells: seq<Cell>, base: nat, bytes: seq<Byte>, all: set<nat>, done: set<nat>, q: nat, s: nat, k: int)
    requires Tiled(cells, base, bytes, all, done) && done <= all
    requires Walked(cells, base, all, q, s) && NoBase(all, s, s + 4)
    ensures Labelled(cells, k) ==> base + k + 4 <= s || s <= base + k
  {
    if Labelled(cells, k) {
      var p := cells[k].value.origin;
      assert InTable(cells, base, all, done, k, p);
      assert InTable(cells, base, all, done, q - base, q);
      SlotsApart(cells, base, bytes, p - base, q - base);
      if p == q {
        Aligned(base + k - q, s - q);
      }
    }
  }

  lemma SlotsApart(cells: seq<Cell>, base: nat, bytes: seq<Byte>, i: nat, j: nat)
    requires |cells| == |bytes| && forall k :: 0 <= k < |cells| ==> CellOk(cells, base, bytes, k)
    requires Labelled(cells, i) && Labelled(cells, j)
    ensures i == j || i + 4 <= j || j + 4 <= i
  {
    assert CellOk(cells, base, bytes, i) && CellOk(cells, base, bytes, j);
  }

  lemma Aligned(a: nat, b: nat)
    requires a % 4 == 0 && b % 4 == 0
    ensures a + 4 <= b || b <= a
  {
  }

  /** A later slot of a table is free as well. */
  lemma SlotIsFree(cells: seq<Cell>, base: nat, bytes: seq<Byte>, all: set<nat>, done: set<nat>, q: nat, s: nat)
    requires Tiled(cells, base, bytes, all, done) && done <= all
    requires Walked(cells, base, all, q, s) && NoBase(all, s, s + 4)
    requires s < base + |cells| && !Labelled(cells, s - base)
    ensures !cells[s - base].ignored
  {
    var i := s - base;
    assert CellOk(cells, base, bytes, i);
    SlotOutside(cells, base, bytes, all, done, q, s, i - 1);
    SlotOutside(cells, base, bytes, all, done, q, s, i - 2);
    SlotOutside(cells, base, bytes, all, done, q, s, i - 3);
  }

  // ----- The section and the pass over it -----

  class DataSection {
    const base: nat
    const bytes: seq<Byte>
    var cache: seq<Cell>

    constructor (base: nat, bytes: seq<Byte>)
      ensures this.base == base && this.bytes == bytes && cache == []
    {
      this.base, this.bytes, cache := base, bytes, [];
    }

    method Load()
      requires cache == []
      modifies this
      ensures cache == Loaded(bytes)
    {
      for i := 0 to |bytes|
        invariant cache == Loaded(bytes[..i])
      {
        cache := cache + [Cell(Raw(bytes[i]), 1, false, false)];
        assert bytes[..i + 1] == bytes[..i] + [bytes[i]];
      }
      assert bytes[..|bytes|] == bytes;
    }

    /** Nothing if one of the cells is a difference; zero if there are not four of them. */
    method ReadAt(address: nat) returns (r: Option<nat>)
      ensures var lo, hi := Bound(address - base, |cache|), Bound(address - base + 4, |cache|);
              r.None? <==> exists k :: lo <= k < hi && Labelled(cache, k)
      ensures AllRaw(cache, CellAt(|cache|, base, address)) ==> r == Some(Word(RawBytes(cache, CellAt(|cache|, base, address))))
      ensures r.Some? && !AllRaw(cache, CellAt(|cache|, base, address)) ==> r.value == 0
    {
      var lo, hi := Bound(address - base, |cache|), Bound(address - base + 4, |cache|);
      FourCells(|cache|, base, address);
      var k := lo;
      var found: seq<Byte> := [];
      while k < hi
        invariant lo <= k && (k <= hi || k == lo) && |found| == k - lo
        invariant forall j :: lo <= j < k ==> cache[j].value == Raw(found[j - lo])
      {
        if cache[k].value.Difference? {
          assert Labelled(cache, k);
          return None;
        }
        found := found + [cache[k].value.b];
        k := k + 1;
      }
      if |found| < 4 {
        return Some(0);
      }
      assert AllRaw(cache, lo) && found == RawBytes(cache, lo);
      return Some(Word(found));
    }

    /** Puts a difference over a cell and hides the next three. One of the two rewriters leaves
        a cell alone that is symbolized already. An offset before the whole list is an error. */
    method Replace(address: nat, target: nat, origin: nat, guarded: bool)
      requires -|cache| <= address - base
      modifies this
      ensures var off, was := address - base, old(cache);
              cache == if off >= |was| || (guarded && was[FromEnd(off, |was|)].symbolized) then was
                       else PutAt(was, off, target, origin)
    {
      var off := address - base;
      if off >= |cache| || (guarded && cache[FromEnd(off, |cache|)].symbolized) {
        return;
      }
      cache := PutAt(cache, off, target, origin);
    }
  }

  // ----- List offsets, which count from the end when they are negative -----

  function FromEnd(off: int, n: nat): int {
    if off < 0 then off + n else off
  }

  /** Where a slice of a list of `n` cells starts or ends. */
  function Bound(off: int, n: nat): (r: nat)
    ensures r <= n
  {
    var i := FromEnd(off, n);
    if i < 0 then 0 else if i > n then n else i
  }

  /** The first of the four cells that an address below or inside the section is taken for; the
      end of the list if there are not four. */
  function CellAt(n: nat, base: nat, address: nat): nat {
    if address >= base then address - base
    else if 4 < base - address <= n then n - (base - address)
    else n
  }

  /** A slice of four cells starts there, and no other slice has four. */
  lemma FourCells(n: nat, base: nat, address: nat)
    ensures var i, lo, hi := CellAt(n, base, address), Bound(address - base, n), Bound(address - base + 4, n);
            && (i + 4 <= n ==> lo == i && hi == i + 4)
            && (i + 4 > n ==> hi < lo + 4)
  {
  }

  /** What the source does to its list of cells, for any offset. */
  function PutAt(cells: seq<Cell>, off: int, target: nat, origin: nat): (r: seq<Cell>)
    requires -|cells| <= off < |cells|
    ensures |r| == |cells|
  {
    var i, lo, hi := FromEnd(off, |cells|), Bound(off + 1, |cells|), Bound(off + 4, |cells|);
    seq(|cells|, k requires 0 <= k < |cells| =>
      if k == i then Cell(Difference(target, origin), 4, cells[i].ignored, true)
      else if lo <= k < hi then cells[k].(ignored := true)
      else cells[k])
  }

  /** Over four cells it puts a slot. */
  lemma PutAtIsPut(cells: seq<Cell>, base: nat, address: nat, target: nat, origin: nat)
    requires CellAt(|cells|, base, address) + 4 <= |cells|
    ensures -|cells| <= address - base < |cells| && FromEnd(address - base, |cells|) == CellAt(|cells|, base, address)
    ensures PutAt(cells, address - base, target, origin) == Put(cells, CellAt(|cells|, base, address), target, origin)
  {
  }

  function RawBytes(cells: seq<Cell>, i: nat): seq<Byte>
    requires AllRaw(cells, i)
  {
    [cells[i].value.b, cells[i + 1].value.b, cells[i + 2].value.b, cells[i + 3].value.b]
  }

  lemma RawIsOriginal(cells: seq<Cell>, base: nat, bytes: seq<Byte>, i: nat)
    requires |cells| == |bytes| && AllRaw(cells, i) && forall k :: 0 <= k < |cells| ==> CellOk(cells, base, bytes, k)
    ensures RawBytes(cells, i) == bytes[i..i + 4]
  {
    forall k | i <= k < i + 4 ensures cells[k].value == Raw(bytes[k]) {
      assert CellOk(cells, base, bytes, k);
    }
  }

  /** Reassembling the difference gives the value that was read. */
  lemma DifferenceIsValue(value: nat, origin: nat)
    requires value < WORD32
    ensures ((value + origin) % WORD32 - origin) % WORD32 == value
  {
    var q := (value + origin) / WORD32;
    assert (value + origin) % WORD32 - origin == value - WORD32 * q;
    Remainder(value, q);
  }

  lemma Remainder(value: nat, q: int)
    requires value < WORD32
    ensures (value - WORD32 * q) % WORD32 == value
  {
  }

  lemma WordBound(b: seq<Byte>)
    requires |b| == 4
    ensures Word(b) < WORD32
  {
    assert b[1..][1..] == b[2..] && b[2..][1..] == b[3..] && b[3..][1..] == b[4..];
    assert Word(b[4..]) == 0;
    assert Word(b[3..]) < 0x100;
    assert Word(b[2..]) < 0x1_0000;
    assert Word(b[1..]) < 0x100_0000;
  }

  /** Puts one slot of the table of `q` at address `s`, where the walk has arrived. */
  lemma NewSlot(cells: seq<Cell>, base: nat, bytes: seq<Byte>, all: set<nat>, done: set<nat>, q: nat, s: nat)
    requires Tiled(cells, base, bytes, all, done) && q in done && base <= q <= s
    requires AllRaw(cells, s - base) && !cells[s - base].ignored
    requires s == q || (Walked(cells, base, all, q, s) && NoBase(all, s, s + 4))
    ensures var target := (Word(RawBytes(cells, s - base)) + q) % WORD32;
            var r := Put(cells, s - base, target, q);
            Tiled(r, base, bytes, all, done) && Walked(r, base, all, q, s + 4)
  {
    var i := s - base;
    var value := Word(RawBytes(cells, i));
    RawIsOriginal(cells, base, bytes, i);
    WordBound(bytes[i..i + 4]);
    DifferenceIsValue(value, q);
    var target := (value + q) % WORD32;
    var r := Put(cells, i, target, q);
    PutLabels(cells, i, target, q, q - base);
    PutKeepsTiled(cells, base, bytes, all, done, i, target, q);
  }

  lemma MoreDone(cells: seq<Cell>, base: nat, bytes: seq<Byte>, all: set<nat>, done: set<nat>, more: set<nat>)
    requires Tiled(cells, base, bytes, all, done) && done <= more
    ensures Tiled(cells, base, bytes, all, more)
  {
    forall i | Labelled(cells, i) ensures InTable(cells, base, all, more, i, cells[i].value.origin) {
      assert InTable(cells, base, all, done, i, cells[i].value.origin);
    }
  }

  // ----- The pass as a function -----

  /** The four cells at address `s` are raw and hold a distance from `q` to a valid address. */
  predicate Recognised(cells: seq<Cell>, base: nat, valid: nat -> bool, q: nat, s: nat) {
    var i := CellAt(|cells|, base, s);
    && AllRaw(cells, i)
    && Word(RawBytes(cells, i)) != 0
    && valid((Word(RawBytes(cells, i)) + q) % WORD32)
  }

  predicate BaseIn(all: set<nat>, s: nat) {
    s in all || s + 1 in all || s + 2 in all || s + 3 in all
  }

  function PutSlot(cells: seq<Cell>, base: nat, q: nat, s: nat): (r: seq<Cell>)
    requires AllRaw(cells, CellAt(|cells|, base, s))
    ensures |r| == |cells|
  {
    var i := CellAt(|cells|, base, s);
    Put(cells, i, (Word(RawBytes(cells, i)) + q) % WORD32, q)
  }

  /** The table of `q` from address `s` on: slot after slot, up to a slot that holds a base or
      that leads to no valid address. */
  function Walk(cells: seq<Cell>, base: nat, all: set<nat>, valid: nat -> bool, q: nat, s: nat): (r: seq<Cell>)
    ensures |r| == |cells|
    decreases base + |cells| - s
  {
    if !Recognised(cells, base, valid, q, s) || (s != q && BaseIn(all, s)) then cells
    else Walk(PutSlot(cells, base, q, s), base, all, valid, q, s + 4)
  }

  /** Validity for base number `m` of the order: each function knows its own instructions. */
  function For(valid: (nat, nat) -> bool, m: nat): nat -> bool {
    (a: nat) => valid(m, a)
  }

  /** The first `n` bases of the order. */
  function Pass(cells: seq<Cell>, base: nat, order: seq<nat>, valid: (nat, nat) -> bool, n: nat): (r: seq<Cell>)
    requires n <= |order|
    ensures |r| == |cells|
  {
    if n == 0 then cells
    else
      var m := n - 1;
      Walk(Pass(cells, base, order, valid, m), base, Elements(order), For(valid, m), order[m], order[m])
  }

  function Elements(order: seq<nat>): (r: set<nat>)
    ensures forall x :: x in r <==> x in order
  {
    set x | x in order
  }

  /** Walking on from a slot in place keeps the tiling. */
  lemma {:induction false} WalkTiles(cells: seq<Cell>, base: nat, bytes: seq<Byte>, all: set<nat>, done: set<nat>, valid: nat -> bool, q: nat, s: nat)
    requires Tiled(cells, base, bytes, all, done) && done <= all && q in done
    requires if s == q then base <= q < base + |cells| && !cells[q - base].ignored else Walked(cells, base, all, q, s)
    ensures Tiled(Walk(cells, base, all, valid, q, s), base, bytes, all, done)
    decreases base + |cells| - s
  {
    if Recognised(cells, base, valid, q, s) && (s == q || !BaseIn(all, s)) {
      if s != q {
        assert NoBase(all, s, s + 4);
        SlotIsFree(cells, base, bytes, all, done, q, s);
      }
      NewSlot(cells, base, bytes, all, done, q, s);
      WalkTiles(PutSlot(cells, base, q, s), base, bytes, all, done, valid, q, s + 4);
    }
  }

  /** A table that starts inside a slot loses bytes for good. */
  ghost predicate Broken(cells: seq<Cell>, k: int) {
    Labelled(cells, k) && cells[k].ignored
  }

  lemma {:induction false} BrokenStays(cells: seq<Cell>, base: nat, all: set<nat>, valid: nat -> bool, q: nat, s: nat, k: int)
    requires Broken(cells, k)
    ensures Broken(Walk(cells, base, all, valid, q, s), k)
    decreases base + |cells| - s
  {
    if Recognised(cells, base, valid, q, s) && (s == q || !BaseIn(all, s)) {
      BrokenStays(PutSlot(cells, base, q, s), base, all, valid, q, s + 4, k);
    }
  }

  ghost predicate Intact(cells: seq<Cell>, base: nat, bytes: seq<Byte>) {
    |cells| == |bytes| && forall i :: 0 <= i < |cells| ==> CellOk(cells, base, bytes, i)
  }

  /** Base number `m` is found inside a slot, and is taken for a table all the same. */
  ghost predicate Collides(cells: seq<Cell>, base: nat, order: seq<nat>, valid: (nat, nat) -> bool, m: nat)
    requires m < |order| && base <= order[m] < base + |cells|
  {
    var now := Pass(cells, base, order, valid, m);
    now[order[m] - base].ignored && Recognised(now, base, For(valid, m), order[m], order[m])
  }

  ghost predicate InSection(base: nat, size: nat, order: seq<nat>) {
    forall m :: 0 <= m < |order| ==> base <= order[m] < base + size
  }

  lemma {:induction false} PassTiles(base: nat, bytes: seq<Byte>, order: seq<nat>, valid: (nat, nat) -> bool, n: nat)
    requires n <= |order| && InSection(base, |bytes|, order)
    requires forall m :: 0 <= m < n ==> !Collides(Loaded(bytes), base, order, valid, m)
    ensures Tiled(Pass(Loaded(bytes), base, order, valid, n), base, bytes, Elements(order), Elements(order[..n]))
  {
    var all := Elements(order);
    if n == 0 {
      LoadedIsTiled(base, bytes, all);
      assert Elements(order[..0]) == {};
    } else {
      var m := n - 1;
      PassTiles(base, bytes, order, valid, m);
      var now, q, v := Pass(Loaded(bytes), base, order, valid, m), order[m], For(valid, m);
      assert order[..n] == order[..m] + [q];
      MoreDone(now, base, bytes, all, Elements(order[..m]), Elements(order[..n]));
      assert !Collides(Loaded(bytes), base, order, valid, m);
      if Recognised(now, base, v, q, q) {
        WalkTiles(now, base, bytes, all, Elements(order[..n]), v, q, q);
      }
    }
  }

  /** Exactly when the pass over a freshly loaded section keeps the tiling, for any bases in
      any order. */
  lemma PassIntactIff(base: nat, bytes: seq<Byte>, order: seq<nat>, valid: (nat, nat) -> bool)
    requires InSection(base, |bytes|, order)
    ensures Intact(Pass(Loaded(bytes), base, order, valid, |order|), base, bytes) <==>
            forall m :: 0 <= m < |order| ==> !Collides(Loaded(bytes), base, order, valid, m)
  {
    if m :| 0 <= m < |order| && Collides(Loaded(bytes), base, order, valid, m) {
      CollisionBreaks(base, bytes, order, valid, m, |order|);
      var k := order[m] - base;
      assert !CellOk(Pass(Loaded(bytes), base, order, valid, |order|), base, bytes, k);
    } else {
      PassTiles(base, bytes, order, valid, |order|);
    }
  }

  lemma {:induction false} CollisionBreaks(base: nat, bytes: seq<Byte>, order: seq<nat>, valid: (nat, nat) -> bool, m: nat, n: nat)
    requires InSection(base, |bytes|, order) && m < n <= |order| && Collides(Loaded(bytes), base, order, valid, m)
    ensures Broken(Pass(Loaded(bytes), base, order, valid, n), order[m] - base)
  {
    var all, q := Elements(order), order[m];
    if n == m + 1 {
      var now, v := Pass(Loaded(bytes), base, order, valid, m), For(valid, m);
      BrokenStays(PutSlot(now, base, q, q), base, all, v, q, q + 4, q - base);
    } else {
      var k := n - 1;
      CollisionBreaks(base, bytes, order, valid, m, k);
      BrokenStays(Pass(Loaded(bytes), base, order, valid, k), base, all, For(valid, k), order[k], order[k], q - base);
    }
  }

  // ----- Orders without collisions -----

  /** No base comes after one that it follows by less than a slot. */
  ghost predicate Spaced(order: seq<nat>) {
    forall a, b :: 0 <= a < b < |order| ==> !(order[a] < order[b] < order[a] + 4)
  }

  /** The same, but for bases too near the end of the section to start a table. */
  ghost predicate Harmless(order: seq<nat>, end: int) {
    forall a, b :: 0 <= a < b < |order| ==> !(order[a] < order[b] < order[a] + 4 && order[b] + 4 <= end)
  }

  lemma {:induction false} HarmlessNeverCollides(base: nat, bytes: seq<Byte>, order: seq<nat>, valid: (nat, nat) -> bool, m: nat)
    requires Harmless(order, base + |bytes|) && InSection(base, |bytes|, order) && m < |order|
    ensures !Collides(Loaded(bytes), base, order, valid, m)
    decreases m
  {
    forall k | 0 <= k < m ensures !Collides(Loaded(bytes), base, order, valid, k) {
      HarmlessNeverCollides(base, bytes, order, valid, k);
    }
    PassTiles(base, bytes, order, valid, m);
    var now, q, done := Pass(Loaded(bytes), base, order, valid, m), order[m], Elements(order[..m]);
    if AllRaw(now, q - base) {
      forall p | p in done ensures !(p < q < p + 4) {
        var a :| 0 <= a < m && order[..m][a] == p;
        assert order[a] == p;
      }
      BaseIsFree(now, base, bytes, Elements(order), done, q);
    }
  }

  lemma HarmlessPassTiles(base: nat, bytes: seq<Byte>, order: seq<nat>, valid: (nat, nat) -> bool)
    requires Harmless(order, base + |bytes|) && InSection(base, |bytes|, order)
    ensures Tiled(Pass(Loaded(bytes), base, order, valid, |order|), base, bytes, Elements(order), Elements(order))
  {
    forall k | 0 <= k < |order| ensures !Collides(Loaded(bytes), base, order, valid, k) {
      HarmlessNeverCollides(base, bytes, order, valid, k);
    }
    PassTiles(base, bytes, order, valid, |order|);
    assert order[..|order|] == order;
  }

  lemma SpacedIsHarmless(order: seq<nat>, end: int)
    requires Spaced(order)
    ensures Harmless(order, end)
  {
  }

  /** One rewriter takes all bases in descending order. */
  lemma DescendingIsSpaced(order: seq<nat>)
    requires forall a, b :: 0 <= a < b < |order| ==> order[a] >= order[b]
    ensures Spaced(order)
  {
  }

  function Flatten(groups: seq<seq<nat>>): seq<nat> {
    if groups == [] then [] else groups[0] + Flatten(groups[1..])
  }

  /** The other one goes function by function, and is safe when the bases of different
      functions are equal or at least a slot apart. */
  ghost predicate Apart(p: nat, q: nat) {
    p == q || p + 4 <= q || q + 4 <= p
  }

  ghost predicate GroupsApart(groups: seq<seq<nat>>) {
    forall f, g, p, q :: 0 <= f < g < |groups| && p in groups[f] && q in groups[g] ==> Apart(p, q)
  }

  lemma {:induction false} GroupsAreSpaced(groups: seq<seq<nat>>)
    requires forall f, a, b :: 0 <= f < |groups| && 0 <= a < b < |groups[f]| ==> groups[f][a] >= groups[f][b]
    requires GroupsApart(groups)
    ensures Spaced(Flatten(groups))
  {
    if groups != [] {
      var first, rest := groups[0], groups[1..];
      GroupsAreSpaced(rest);
      var order := Flatten(groups);
      forall a, b | 0 <= a < b < |order| ensures !(order[a] < order[b] < order[a] + 4) {
        if b >= |first| {
          assert order[b] == Flatten(rest)[b - |first|];
          if a >= |first| {
            assert order[a] == Flatten(rest)[a - |first|];
          } else {
            var g := GroupOf(rest, order[b]);
            assert rest[g] == groups[g + 1];
            assert Apart(order[a], order[b]);
          }
        }
      }
    }
  }

  lemma {:induction false} GroupOf(groups: seq<seq<nat>>, x: nat) returns (g: nat)
    requires x in Flatten(groups)
    ensures g < |groups| && x in groups[g]
  {
    if x in groups[0] {
      g := 0;
    } else {
      g := GroupOf(groups[1..], x);
      g := g + 1;
    }
  }

  // ----- The pass as the rewriters run it -----

  /** Exactly the cells that hold a difference are symbolized, so that guarding against a second
      replacement makes no difference to this pass. */
  ghost predicate Marked(cells: seq<Cell>) {
    forall i :: 0 <= i < |cells| ==> (cells[i].symbolized <==> cells[i].value.Difference?)
  }

  /** Symbolizes one slot if its value is recognised. */
  method TrySlot(rodata: DataSection, q: nat, s: nat, valid: nat -> bool, guarded: bool) returns (ok: bool)
    requires Marked(rodata.cache)
    modifies rodata
    ensures ok <==> Recognised(old(rodata.cache), rodata.base, valid, q, s)
    ensures rodata.cache == if ok then PutSlot(old(rodata.cache), rodata.base, q, s) else old(rodata.cache)
    ensures Marked(rodata.cache)
  {
    var read := rodata.ReadAt(s);
    if read.None? || read.value == 0 || !valid((read.value + q) % WORD32) {
      return false;
    }
    PutAtIsPut(rodata.cache, rodata.base, s, (read.value + q) % WORD32, q);
    assert rodata.cache[CellAt(|rodata.cache|, rodata.base, s)].value.Raw?;
    rodata.Replace(s, (read.value + q) % WORD32, q, guarded);
    return true;
  }

  /** What is left of the walk ends in `end`. */
  ghost predicate WalksTo(cells: seq<Cell>, base: nat, all: set<nat>, valid: nat -> bool, q: nat, s: nat, end: seq<Cell>) {
    Walk(cells, base, all, valid, q, s) == end
  }

  lemma WalkOn(cells: seq<Cell>, base: nat, all: set<nat>, valid: nat -> bool, q: nat, s: nat, end: seq<Cell>)
    requires WalksTo(cells, base, all, valid, q, s, end)
    ensures if Recognised(cells, base, valid, q, s) && (s == q || !BaseIn(all, s))
            then WalksTo(PutSlot(cells, base, q, s), base, all, valid, q, s + 4, end)
            else cells == end
  {
  }

  /** One turn of the walk. */
  method NextSlot(rodata: DataSection, q: nat, s: nat, all: set<nat>, valid: nat -> bool, guarded: bool, ghost end: seq<Cell>)
    returns (ok: bool)
    requires Marked(rodata.cache) && WalksTo(rodata.cache, rodata.base, all, valid, q, s, end)
    modifies rodata
    ensures Marked(rodata.cache) && |rodata.cache| == |old(rodata.cache)|
    ensures ok ==> WalksTo(rodata.cache, rodata.base, all, valid, q, s + 4, end)
    ensures !ok ==> rodata.cache == end
  {
    WalkOn(rodata.cache, rodata.base, all, valid, q, s, end);
    if s != q && BaseIn(all, s) {
      return false;
    }
    ok := TrySlot(rodata, q, s, valid, guarded);
  }

  /** Works on one candidate base, wherever it lies. */
  method SymbolizeTable(rodata: DataSection, q: nat, all: set<nat>, valid: nat -> bool, guarded: bool)
    requires Marked(rodata.cache) && |rodata.cache| == |rodata.bytes|
    modifies rodata
    ensures rodata.cache == Walk(old(rodata.cache), rodata.base, all, valid, q, q) && Marked(rodata.cache)
  {
    ghost var end := Walk(rodata.cache, rodata.base, all, valid, q, q);
    var ok := NextSlot(rodata, q, q, all, valid, guarded, end);
    if !ok {
      return;
    }
    var slot := q + 4;
    while slot < rodata.base + |rodata.bytes|
      invariant q + 4 <= slot && |rodata.cache| == |rodata.bytes| && Marked(rodata.cache)
      invariant WalksTo(rodata.cache, rodata.base, all, valid, q, slot, end)
    {
      ok := NextSlot(rodata, q, slot, all, valid, guarded, end);
      if !ok {
        return;
      }
      slot := slot + 4;
    }
    WalkOn(rodata.cache, rodata.base, all, valid, q, slot, end);
  }

  /** The whole pass over a freshly loaded section, for any order of bases. The cells tile the
      section afterwards if the order is harmless. */
  method SymbolizeSwitchTables(rodata: DataSection, order: seq<nat>, valid: (nat, nat) -> bool, guarded: bool)
    requires rodata.cache == Loaded(rodata.bytes)
    modifies rodata
    ensures rodata.cache == Pass(Loaded(rodata.bytes), rodata.base, order, valid, |order|)
    ensures InSection(rodata.base, |rodata.bytes|, order) && Harmless(order, rodata.base + |rodata.bytes|) ==>
              Tiled(rodata.cache, rodata.base, rodata.bytes, Elements(order), Elements(order))
  {
    for n := 0 to |order|
      invariant rodata.cache == Pass(Loaded(rodata.bytes), rodata.base, order, valid, n) && Marked(rodata.cache)
    {
      SymbolizeTable(rodata, order[n], Elements(order), For(valid, n), guarded);
    }
    if InSection(rodata.base, |rodata.bytes|, order) && Harmless(order, rodata.base + |rodata.bytes|) {
      HarmlessPassTiles(rodata.base, rodata.bytes, order, valid);
    }
  }
}
