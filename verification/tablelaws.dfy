/** What symbolizing a table does to the cells, told from the bytes and without the walk. */
module TableLaws {
  import opened Bits
  import opened SwitchTables

  function LittleEndian(b0: int, b1: int, b2: int, b3: int): int {
    b0 + 0x100 * b1 + 0x1_0000 * b2 + 0x100_0000 * b3
  }

  /** The word in four cells, and in four bytes. */
  function WordOf(cells: seq<Cell>, i: nat): (w: nat)
    requires AllRaw(cells, i)
  {
    LittleEndian(cells[i].value.b, cells[i + 1].value.b, cells[i + 2].value.b, cells[i + 3].value.b)
  }

  function WordAt(bytes: seq<Byte>, i: nat): nat
    requires i + 4 <= |bytes|
  {
    LittleEndian(bytes[i], bytes[i + 1], bytes[i + 2], bytes[i + 3])
  }

  lemma WordOfFour(b: seq<Byte>)
    requires |b| == 4
    ensures Word(b) == WordAt(b, 0)
  {
    assert b[1..][1..] == b[2..] && b[2..][1..] == b[3..] && b[3..][1..] == b[4..];
    assert Word(b[4..]) == 0;
    assert Word(b[3..]) == b[3];
    assert Word(b[2..]) == LittleEndian(b[2], b[3], 0, 0);
    assert Word(b[1..]) == LittleEndian(b[1], b[2], b[3], 0);
  }

  lemma WordOfRaw(cells: seq<Cell>, i: nat)
    requires AllRaw(cells, i)
    ensures Word(RawBytes(cells, i)) == WordOf(cells, i)
  {
    WordOfFour(RawBytes(cells, i));
  }

  // ----- One table -----

  /** The slot at cell `i` holds the distance from `q` to a valid address. */
  predicate Leads(cells: seq<Cell>, valid: nat -> bool, q: nat, i: nat) {
    AllRaw(cells, i) && WordOf(cells, i) != 0 && valid((WordOf(cells, i) + q) % WORD32)
  }

  /** No base, but the table's own, lies in the slot at address `a`. */
  ghost predicate OwnSlot(all: set<nat>, q: nat, a: nat) {
    a != q ==> forall x :: x in all ==> !(a <= x < a + 4)
  }

  /** Exactly `n` slots, from address `s` on, belong to the table. */
  ghost predicate Extends(cells: seq<Cell>, base: nat, all: set<nat>, valid: nat -> bool, q: nat, s: nat, n: nat)
    requires base <= s
  {
    && (forall j: nat :: j < n ==> IsSlot(cells, base, all, valid, q, s, j))
    && !IsSlot(cells, base, all, valid, q, s, n)
  }

  ghost predicate IsSlot(cells: seq<Cell>, base: nat, all: set<nat>, valid: nat -> bool, q: nat, s: nat, j: nat)
    requires base <= s
  {
    Leads(cells, valid, q, s + 4 * j - base) && OwnSlot(all, q, s + 4 * j)
  }

  /** The first cell of each of the `n` slots becomes a difference, with its target read from the
      old cells; the others of the slots are ignored; all other cells stay as they are. */
  ghost predicate CellLaw(cells: seq<Cell>, r: seq<Cell>, q: nat, lo: nat, n: nat, k: nat)
    requires |r| == |cells| && k < |cells|
  {
    if !(lo <= k < lo + 4 * n) then r[k] == cells[k]
    else if (k - lo) % 4 == 0 then
      AllRaw(cells, k) && r[k] == Cell(Difference((WordOf(cells, k) + q) % WORD32, q), 4, cells[k].ignored, true)
    else r[k] == cells[k].(ignored := true)
  }

  ghost predicate CellsLaw(cells: seq<Cell>, r: seq<Cell>, q: nat, lo: nat, n: nat) {
    |r| == |cells| && forall k :: 0 <= k < |cells| ==> CellLaw(cells, r, q, lo, n, k)
  }

  ghost predicate TableLaw(cells: seq<Cell>, r: seq<Cell>, base: nat, all: set<nat>, valid: nat -> bool, q: nat, s: nat, n: nat)
    requires base <= s
  {
    Extends(cells, base, all, valid, q, s, n) && CellsLaw(cells, r, q, s - base, n)
  }

  lemma RecognisedLeads(cells: seq<Cell>, base: nat, all: set<nat>, valid: nat -> bool, q: nat, s: nat)
    requires base <= s
    ensures Recognised(cells, base, valid, q, s) <==> Leads(cells, valid, q, s - base)
    ensures (s != q && BaseIn(all, s)) <==> !OwnSlot(all, q, s)
  {
    if AllRaw(cells, s - base) {
      WordOfRaw(cells, s - base);
    }
    if s != q && !BaseIn(all, s) {
      forall x | x in all ensures !(s <= x < s + 4) {
        assert s <= x < s + 4 ==> x == s || x == s + 1 || x == s + 2 || x == s + 3;
      }
    }
  }

  lemma WalksOnIff(cells: seq<Cell>, base: nat, all: set<nat>, valid: nat -> bool, q: nat, s: nat)
    requires base <= s
    ensures IsSlot(cells, base, all, valid, q, s, 0) <==> Recognised(cells, base, valid, q, s) && (s == q || !BaseIn(all, s))
  {
    RecognisedLeads(cells, base, all, valid, q, s);
  }

  /** A slot in place leaves the words behind it as they are. */
  lemma LaterWords(cells: seq<Cell>, i: nat, target: nat, q: nat, k: nat)
    requires i + 4 <= k && i < |cells|
    ensures AllRaw(Put(cells, i, target, q), k) <==> AllRaw(cells, k)
    ensures AllRaw(cells, k) ==> WordOf(Put(cells, i, target, q), k) == WordOf(cells, k)
  {
    var r := Put(cells, i, target, q);
    if k + 4 <= |cells| {
      assert forall j :: k <= j < k + 4 ==> r[j].value == cells[j].value;
    }
  }

  lemma OneMoreSlot(cells: seq<Cell>, c: seq<Cell>, base: nat, all: set<nat>, valid: nat -> bool, q: nat, s: nat, n: nat)
    requires base <= s && IsSlot(cells, base, all, valid, q, s, 0)
    requires c == Put(cells, s - base, (WordOf(cells, s - base) + q) % WORD32, q) && Extends(c, base, all, valid, q, s + 4, n)
    ensures Extends(cells, base, all, valid, q, s, n + 1)
  {
    forall j: nat | j < n + 1 ensures IsSlot(cells, base, all, valid, q, s, j) {
      if j > 0 {
        assert IsSlot(c, base, all, valid, q, s + 4, j - 1);
        ShiftedSlot(cells, c, base, all, valid, q, s, j - 1);
      }
    }
    ShiftedSlot(cells, c, base, all, valid, q, s, n);
  }

  lemma ShiftedSlot(cells: seq<Cell>, c: seq<Cell>, base: nat, all: set<nat>, valid: nat -> bool, q: nat, s: nat, j: nat)
    requires base <= s && Leads(cells, valid, q, s - base)
    requires c == Put(cells, s - base, (WordOf(cells, s - base) + q) % WORD32, q)
    ensures IsSlot(c, base, all, valid, q, s + 4, j) <==> IsSlot(cells, base, all, valid, q, s, j + 1)
  {
    assert s + 4 + 4 * j == s + 4 * (j + 1);
    LaterWords(cells, s - base, (WordOf(cells, s - base) + q) % WORD32, q, s + 4 * (j + 1) - base);
  }

  lemma OneMoreCell(cells: seq<Cell>, c: seq<Cell>, r: seq<Cell>, q: nat, lo: nat, n: nat, k: nat)
    requires AllRaw(cells, lo) && c == Put(cells, lo, (WordOf(cells, lo) + q) % WORD32, q)
    requires |r| == |cells| && k < |cells| && CellLaw(c, r, q, lo + 4, n, k)
    ensures CellLaw(cells, r, q, lo, n + 1, k)
  {
    if k >= lo + 4 {
      assert (k - lo) % 4 == (k - (lo + 4)) % 4;
      LaterWords(cells, lo, (WordOf(cells, lo) + q) % WORD32, q, k);
    } else if lo < k {
      NotAligned(k - lo);
    }
  }

  lemma OneMoreInCells(cells: seq<Cell>, c: seq<Cell>, r: seq<Cell>, q: nat, lo: nat, n: nat, m: nat)
    requires AllRaw(cells, lo) && c == Put(cells, lo, (WordOf(cells, lo) + q) % WORD32, q)
    requires CellsLaw(c, r, q, lo + 4, n) && m == n + 1
    ensures CellsLaw(cells, r, q, lo, m)
  {
    var next := lo + 4;
    assert CellsLaw(c, r, q, next, n);
    forall k | 0 <= k < |cells| ensures CellLaw(cells, r, q, lo, m, k) {
      assert CellLaw(c, r, q, next, n, k);
      OneMoreCell(cells, c, r, q, lo, n, k);
    }
  }

  lemma NotAligned(d: nat)
    requires 0 < d < 4
    ensures d % 4 != 0
  {
  }

  lemma OneMore(cells: seq<Cell>, c: seq<Cell>, r: seq<Cell>, base: nat, all: set<nat>, valid: nat -> bool, q: nat, s: nat, n: nat)
    requires base <= s && IsSlot(cells, base, all, valid, q, s, 0)
    requires c == Put(cells, s - base, (WordOf(cells, s - base) + q) % WORD32, q) && TableLaw(c, r, base, all, valid, q, s + 4, n)
    ensures TableLaw(cells, r, base, all, valid, q, s, n + 1)
  {
    OneMoreSlot(cells, c, base, all, valid, q, s, n);
    var lo := s - base;
    assert CellsLaw(c, r, q, lo + 4, n);
    OneMoreInCells(cells, c, r, q, lo, n, n + 1);
  }

  lemma NoSlot(cells: seq<Cell>, base: nat, all: set<nat>, valid: nat -> bool, q: nat, s: nat)
    requires base <= s && !IsSlot(cells, base, all, valid, q, s, 0)
    ensures TableLaw(cells, cells, base, all, valid, q, s, 0)
  {
  }

  /** The slot at address `s` put in place. */
  function WithSlot(cells: seq<Cell>, base: nat, q: nat, s: nat): (r: seq<Cell>)
    requires base <= s && AllRaw(cells, s - base)
    ensures |r| == |cells|
  {
    Put(cells, s - base, (WordOf(cells, s - base) + q) % WORD32, q)
  }

  lemma SlotPut(cells: seq<Cell>, base: nat, q: nat, s: nat, r: seq<Cell>)
    requires base <= s && AllRaw(cells, s - base) && r == PutSlot(cells, base, q, s)
    ensures r == WithSlot(cells, base, q, s)
  {
    WordOfRaw(cells, s - base);
  }

  lemma WalkTurn(cells: seq<Cell>, base: nat, all: set<nat>, valid: nat -> bool, q: nat, s: nat, end: seq<Cell>)
    requires base <= s && WalksTo(cells, base, all, valid, q, s, end)
    ensures if IsSlot(cells, base, all, valid, q, s, 0) then WalksTo(WithSlot(cells, base, q, s), base, all, valid, q, s + 4, end)
            else cells == end
  {
    WalksOnIff(cells, base, all, valid, q, s);
    WalkOn(cells, base, all, valid, q, s, end);
    if Recognised(cells, base, valid, q, s) && (s == q || !BaseIn(all, s)) {
      SlotPut(cells, base, q, s, PutSlot(cells, base, q, s));
    }
  }

  /** The law, for some number of slots. */
  ghost predicate Lawful(cells: seq<Cell>, r: seq<Cell>, base: nat, all: set<nat>, valid: nat -> bool, q: nat, s: nat) {
    base <= s && exists n: nat :: TableLaw(cells, r, base, all, valid, q, s, n)
  }

  lemma LawfulBefore(cells: seq<Cell>, r: seq<Cell>, base: nat, all: set<nat>, valid: nat -> bool, q: nat, s: nat)
    requires base <= s && IsSlot(cells, base, all, valid, q, s, 0) && Lawful(WithSlot(cells, base, q, s), r, base, all, valid, q, s + 4)
    ensures Lawful(cells, r, base, all, valid, q, s)
  {
    var c := WithSlot(cells, base, q, s);
    var n: nat :| TableLaw(c, r, base, all, valid, q, s + 4, n);
    OneMore(cells, c, r, base, all, valid, q, s, n);
  }

  lemma {:induction false} WalkLaw(cells: seq<Cell>, base: nat, all: set<nat>, valid: nat -> bool, q: nat, s: nat, end: seq<Cell>)
    requires base <= s && WalksTo(cells, base, all, valid, q, s, end)
    ensures Lawful(cells, end, base, all, valid, q, s)
    decreases base + |cells| - s
  {
    WalkTurn(cells, base, all, valid, q, s, end);
    if IsSlot(cells, base, all, valid, q, s, 0) {
      WalkLaw(WithSlot(cells, base, q, s), base, all, valid, q, s + 4, end);
      LawfulBefore(cells, end, base, all, valid, q, s);
    } else {
      NoSlot(cells, base, all, valid, q, s);
    }
  }

  /** For every base, in any state of the section: the table is symbolized slot by slot up to the
      first slot that is cut off, not raw, zero or without a valid target, or that holds another
      base; and nothing else is touched. */
  lemma TableIsLawful(cells: seq<Cell>, base: nat, all: set<nat>, valid: nat -> bool, q: nat) returns (n: nat)
    requires base <= q
    ensures TableLaw(cells, Walk(cells, base, all, valid, q, q), base, all, valid, q, q, n)
  {
    var r := Walk(cells, base, all, valid, q, q);
    WalkLaw(cells, base, all, valid, q, q, r);
    n :| TableLaw(cells, r, base, all, valid, q, q, n);
  }

  // ----- The same on a section just loaded, in its bytes -----

  predicate LeadsAt(bytes: seq<Byte>, valid: nat -> bool, q: nat, i: nat) {
    i + 4 <= |bytes| && WordAt(bytes, i) != 0 && valid((WordAt(bytes, i) + q) % WORD32)
  }

  ghost predicate InTableAt(bytes: seq<Byte>, base: nat, all: set<nat>, valid: nat -> bool, q: nat, j: nat)
    requires base <= q
  {
    LeadsAt(bytes, valid, q, q + 4 * j - base) && (j > 0 ==> forall x :: x in all ==> !(q + 4 * j <= x < q + 4 * j + 4))
  }

  ghost predicate ValueLaw(bytes: seq<Byte>, r: seq<Cell>, q: nat, lo: nat, n: nat, k: nat)
    requires |r| == |bytes| && k < |bytes|
  {
    r[k].value == if lo <= k < lo + 4 * n && (k - lo) % 4 == 0 && k + 4 <= |bytes|
                  then Difference((WordAt(bytes, k) + q) % WORD32, q) else Raw(bytes[k])
  }

  ghost predicate ValuesLaw(bytes: seq<Byte>, r: seq<Cell>, q: nat, lo: nat, n: nat) {
    |r| == |bytes| && forall k :: 0 <= k < |bytes| ==> ValueLaw(bytes, r, q, lo, n, k)
  }

  lemma LoadedLeads(bytes: seq<Byte>, valid: nat -> bool, q: nat, i: nat)
    ensures Leads(Loaded(bytes), valid, q, i) <==> LeadsAt(bytes, valid, q, i)
  {
    assert AllRaw(Loaded(bytes), i) <==> i + 4 <= |bytes|;
  }

  lemma LoadedSlot(bytes: seq<Byte>, base: nat, all: set<nat>, valid: nat -> bool, q: nat, j: nat)
    requires base <= q
    ensures IsSlot(Loaded(bytes), base, all, valid, q, q, j) <==> InTableAt(bytes, base, all, valid, q, j)
  {
    LoadedLeads(bytes, valid, q, q + 4 * j - base);
  }

  /** For every base, section and set of bases: how many entries the table has, and the value of
      every cell afterwards. */
  lemma LoadedTableIsLawful(base: nat, bytes: seq<Byte>, all: set<nat>, valid: nat -> bool, q: nat) returns (n: nat)
    requires base <= q
    ensures (forall j: nat :: j < n ==> InTableAt(bytes, base, all, valid, q, j)) && !InTableAt(bytes, base, all, valid, q, n)
    ensures ValuesLaw(bytes, Walk(Loaded(bytes), base, all, valid, q, q), q, q - base, n)
  {
    var cells := Loaded(bytes);
    n := TableIsLawful(cells, base, all, valid, q);
    forall j: nat | j < n ensures InTableAt(bytes, base, all, valid, q, j) {
      assert IsSlot(cells, base, all, valid, q, q, j);
      LoadedSlot(bytes, base, all, valid, q, j);
    }
    LoadedSlot(bytes, base, all, valid, q, n);
    LoadedValues(bytes, Walk(cells, base, all, valid, q, q), q, q - base, n);
  }

  lemma LoadedValues(bytes: seq<Byte>, r: seq<Cell>, q: nat, lo: nat, n: nat)
    requires CellsLaw(Loaded(bytes), r, q, lo, n)
    ensures ValuesLaw(bytes, r, q, lo, n)
  {
    forall k | 0 <= k < |bytes| ensures ValueLaw(bytes, r, q, lo, n, k) {
      assert CellLaw(Loaded(bytes), r, q, lo, n, k);
    }
  }

  // ----- The whole pass -----

  ghost predicate FromBase(bytes: seq<Byte>, order: seq<nat>, valid: (nat, nat) -> bool, m: nat, k: nat, v: Value)
    requires m < |order|
  {
    && k + 4 <= |bytes| && v == Difference((WordAt(bytes, k) + order[m]) % WORD32, order[m])
    && WordAt(bytes, k) != 0 && valid(m, (WordAt(bytes, k) + order[m]) % WORD32)
  }

  /** A cell holds its byte, or the distance that its four bytes hold from base number `m` to
      an address that is valid for that base. */
  ghost predicate CellFrom(bytes: seq<Byte>, order: seq<nat>, valid: (nat, nat) -> bool, n: nat, cells: seq<Cell>, k: nat)
    requires k < |bytes| == |cells| && n <= |order|
  {
    cells[k].value == Raw(bytes[k]) || exists m: nat :: m < n && FromBase(bytes, order, valid, m, k, cells[k].value)
  }

  ghost predicate AllFrom(bytes: seq<Byte>, order: seq<nat>, valid: (nat, nat) -> bool, n: nat, cells: seq<Cell>)
    requires n <= |order|
  {
    |cells| == |bytes| && forall k :: 0 <= k < |bytes| ==> CellFrom(bytes, order, valid, n, cells, k)
  }

  lemma SlotFrom(base: nat, bytes: seq<Byte>, order: seq<nat>, valid: (nat, nat) -> bool, m: nat, s: nat, cells: seq<Cell>)
    requires m < |order| && AllFrom(bytes, order, valid, m + 1, cells) && Recognised(cells, base, For(valid, m), order[m], s)
    ensures AllFrom(bytes, order, valid, m + 1, PutSlot(cells, base, order[m], s))
  {
    var i, n := CellAt(|cells|, base, s), m + 1;
    forall k | i <= k < i + 4 ensures cells[k].value == Raw(bytes[k]) {
      assert CellFrom(bytes, order, valid, n, cells, k);
    }
    WordOfRaw(cells, i);
    var r := PutSlot(cells, base, order[m], s);
    assert FromBase(bytes, order, valid, m, i, r[i].value);
    forall k | 0 <= k < |bytes| ensures CellFrom(bytes, order, valid, n, r, k) {
      assert CellFrom(bytes, order, valid, n, cells, k);
    }
  }

  lemma {:induction false} WalkFrom(base: nat, bytes: seq<Byte>, order: seq<nat>, valid: (nat, nat) -> bool, m: nat, s: nat, cells: seq<Cell>, end: seq<Cell>,
                                    all: set<nat>, v: nat -> bool, q: nat)
    requires m < |order| && AllFrom(bytes, order, valid, m + 1, cells)
    requires all == Elements(order) && v == For(valid, m) && q == order[m] && WalksTo(cells, base, all, v, q, s, end)
    ensures AllFrom(bytes, order, valid, m + 1, end)
    decreases base + |cells| - s
  {
    WalkOn(cells, base, all, v, q, s, end);
    if Recognised(cells, base, v, q, s) && (s == q || !BaseIn(all, s)) {
      SlotFrom(base, bytes, order, valid, m, s, cells);
      WalkFrom(base, bytes, order, valid, m, s + 4, PutSlot(cells, base, q, s), end, all, v, q);
    }
  }

  /** For any bases anywhere in any order: every difference that the pass leaves has the base of
      its own table as origin, a target that is valid for that base, and is the distance that
      the bytes under it hold. */
  lemma {:induction false} EveryTargetIsValid(base: nat, bytes: seq<Byte>, order: seq<nat>, valid: (nat, nat) -> bool, n: nat)
    requires n <= |order|
    ensures AllFrom(bytes, order, valid, n, Pass(Loaded(bytes), base, order, valid, n))
  {
    if n > 0 {
      var m := n - 1;
      EveryTargetIsValid(base, bytes, order, valid, m);
      var cells, end := Pass(Loaded(bytes), base, order, valid, m), Pass(Loaded(bytes), base, order, valid, n);
      forall k | 0 <= k < |bytes| ensures CellFrom(bytes, order, valid, n, cells, k) {
        assert CellFrom(bytes, order, valid, m, cells, k);
      }
      WalkFrom(base, bytes, order, valid, m, order[m], cells, end, Elements(order), For(valid, m), order[m]);
    }
  }
}
