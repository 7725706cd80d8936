/** Printing a section as assembly, and what the assembler makes of it. */
module SectionPrint {
  import opened Bits
  import opened SwitchTables

  /** A line of output: the address that its label names, and the cell. */
  datatype Line = Line(address: nat, cell: Cell)

  function Printed(cells: seq<Cell>, i: nat, location: nat): seq<Line>
    requires i <= |cells|
    decreases |cells| - i
  {
    if i == |cells| then []
    else if cells[i].ignored then Printed(cells, i + 1, location)
    else [Line(location, cells[i])] + Printed(cells, i + 1, location + cells[i].sz)
  }

  /** The printing loop, with its running location. */
  method PrintSection(rodata: DataSection) returns (lines: seq<Line>)
    ensures lines == Printed(rodata.cache, 0, rodata.base)
  {
    lines := [];
    var location: nat := rodata.base;
    for i := 0 to |rodata.cache|
      invariant lines + Printed(rodata.cache, i, location) == Printed(rodata.cache, 0, rodata.base)
    {
      if !rodata.cache[i].ignored {
        lines := lines + [Line(location, rodata.cache[i])];
        location := location + rodata.cache[i].sz;
      }
    }
  }

  /** A byte stays a byte; a difference becomes a little-endian 32-bit word. */
  function Emit(c: Cell): seq<Byte> {
    match c.value
    case Raw(b) => [b]
    case Difference(target, origin) => ToBytes((target - origin) % WORD32, 4)
  }

  function Assemble(lines: seq<Line>): seq<Byte> {
    if lines == [] then [] else Emit(lines[0].cell) + Assemble(lines[1..])
  }

  /** How many cells the line of cell `i` takes up. */
  function Width(cells: seq<Cell>, i: nat): nat {
    if Labelled(cells, i) then 4 else 1
  }

  /** One line, from a cell that is no part of an earlier slot. */
  lemma LinePrints(cells: seq<Cell>, base: nat, bytes: seq<Byte>, i: nat, next: nat)
    requires Intact(cells, base, bytes) && i < |cells| && !Covered(cells, i) && next == i + Width(cells, i)
    ensures next <= |cells| && !Covered(cells, next) && !cells[i].ignored
    ensures Printed(cells, i, base + i) == [Line(base + i, cells[i])] + Printed(cells, next, base + next)
    ensures Emit(cells[i]) == bytes[i..next]
  {
    assert CellOk(cells, base, bytes, i);
    if Labelled(cells, i) {
      SlotRest(cells, base, bytes, i, base + next);
      BytesOfWord(bytes[i..i + 4]);
    }
  }

  lemma SlotRest(cells: seq<Cell>, base: nat, bytes: seq<Byte>, i: nat, location: nat)
    requires Intact(cells, base, bytes) && Labelled(cells, i)
    ensures i + 4 <= |cells| && Printed(cells, i + 1, location) == Printed(cells, i + 4, location)
  {
    assert CellOk(cells, base, bytes, i);
    assert CellOk(cells, base, bytes, i + 1) && CellOk(cells, base, bytes, i + 2) && CellOk(cells, base, bytes, i + 3);
    assert Printed(cells, i + 2, location) == Printed(cells, i + 3, location);
  }

  /** From any cell that is no part of an earlier slot, the rest of the section assembles to
      the rest of the bytes. */
  lemma {:induction false} AssemblesFrom(cells: seq<Cell>, base: nat, bytes: seq<Byte>, i: nat)
    requires Intact(cells, base, bytes) && i <= |cells| && (i < |cells| ==> !Covered(cells, i))
    ensures Assemble(Printed(cells, i, base + i)) == bytes[i..]
    decreases |cells| - i
  {
    if i < |cells| {
      var next := i + Width(cells, i);
      LinePrints(cells, base, bytes, i, next);
      AssemblesFrom(cells, base, bytes, next);
      AssembleCons(Line(base + i, cells[i]), Printed(cells, next, base + next));
      SplitAt(bytes, i, next);
    }
  }

  lemma AssembleCons(line: Line, rest: seq<Line>)
    ensures Assemble([line] + rest) == Emit(line.cell) + Assemble(rest)
  {
    assert ([line] + rest)[1..] == rest;
  }

  lemma SplitAt(bytes: seq<Byte>, i: nat, j: nat)
    requires i <= j <= |bytes|
    ensures bytes[i..] == bytes[i..j] + bytes[j..]
  {
  }

  /** The label of line `j` is the address where the assembler puts that line, and the cell
      printed there is the cell of that address. */
  ghost predicate Sits(cells: seq<Cell>, base: nat, at: nat, lines: seq<Line>, j: nat)
    requires j < |lines|
  {
    var address := lines[j].address;
    address == at + |Assemble(lines[..j])| && base <= address < base + |cells| && lines[j].cell == cells[address - base]
  }

  lemma {:induction false} LabelsSitFrom(cells: seq<Cell>, base: nat, bytes: seq<Byte>, i: nat, j: nat)
    requires Intact(cells, base, bytes) && i <= |cells| && (i < |cells| ==> !Covered(cells, i))
    requires j < |Printed(cells, i, base + i)|
    ensures Sits(cells, base, base + i, Printed(cells, i, base + i), j)
    decreases |cells| - i
  {
    var next := i + Width(cells, i);
    LinePrints(cells, base, bytes, i, next);
    var line, rest := Line(base + i, cells[i]), Printed(cells, next, base + next);
    if j > 0 {
      LabelsSitFrom(cells, base, bytes, next, j - 1);
    }
    SitsCons(cells, base, base + i, next - i, line, rest, j);
  }

  lemma SitsCons(cells: seq<Cell>, base: nat, at: nat, width: nat, line: Line, rest: seq<Line>, j: nat)
    requires base <= at < base + |cells| && line == Line(at, cells[at - base]) && |Emit(line.cell)| == width
    requires j <= |rest| && (j > 0 ==> Sits(cells, base, at + width, rest, j - 1))
    ensures Sits(cells, base, at, [line] + rest, j)
  {
    var lines := [line] + rest;
    if j == 0 {
      assert Assemble(lines[..0]) == [];
    } else {
      assert lines[..j] == [line] + rest[..j - 1];
      AssembleCons(line, rest[..j - 1]);
    }
  }

  /** A cell that is not ignored is printed with the label of its address. */
  lemma {:induction false} PrintedAt(cells: seq<Cell>, base: nat, bytes: seq<Byte>, i: nat, k: nat) returns (j: nat)
    requires Intact(cells, base, bytes) && i <= k < |cells| && !Covered(cells, i) && !cells[k].ignored
    ensures j < |Printed(cells, i, base + i)| && Printed(cells, i, base + i)[j] == Line(base + k, cells[k])
    decreases |cells| - i
  {
    var next := i + Width(cells, i);
    LinePrints(cells, base, bytes, i, next);
    if i == k {
      j := 0;
    } else {
      NotInside(cells, base, bytes, i, k);
      var rest := Printed(cells, next, base + next);
      var r := PrintedAt(cells, base, bytes, next, k);
      j := r + 1;
      assert ([Line(base + i, cells[i])] + rest)[j] == rest[r];
    }
  }

  lemma NotInside(cells: seq<Cell>, base: nat, bytes: seq<Byte>, i: nat, k: nat)
    requires Intact(cells, base, bytes) && i < k < |cells| && !cells[k].ignored
    ensures i + Width(cells, i) <= k
  {
    assert CellOk(cells, base, bytes, i) && CellOk(cells, base, bytes, k);
  }

  /** Layout is preserved: the section assembles to its original bytes, each label at its
      original address, and the label of each table's base is defined. */
  ghost predicate Faithful(cells: seq<Cell>, base: nat, bytes: seq<Byte>) {
    var lines := Printed(cells, 0, base);
    && Assemble(lines) == bytes
    && (forall j :: 0 <= j < |lines| ==> Sits(cells, base, base, lines, j))
    && (forall j :: 0 <= j < |lines| && lines[j].cell.value.Difference? ==> Defined(lines, lines[j].cell.value.origin))
  }

  ghost predicate Defined(lines: seq<Line>, address: nat) {
    exists j :: 0 <= j < |lines| && lines[j].address == address
  }

  lemma TiledIsFaithful(cells: seq<Cell>, base: nat, bytes: seq<Byte>, all: set<nat>, done: set<nat>)
    requires Tiled(cells, base, bytes, all, done)
    ensures Faithful(cells, base, bytes)
  {
    var lines := Printed(cells, 0, base);
    assert base + 0 == base;
    AssemblesFrom(cells, base, bytes, 0);
    forall j | 0 <= j < |lines| ensures Sits(cells, base, base, lines, j) {
      LabelsSitFrom(cells, base, bytes, 0, j);
    }
    forall j | 0 <= j < |lines| && lines[j].cell.value.Difference?
      ensures Defined(lines, lines[j].cell.value.origin)
    {
      assert Sits(cells, base, base, lines, j);
      OriginDefined(cells, base, bytes, all, done, lines[j].address - base);
    }
  }

  lemma OriginDefined(cells: seq<Cell>, base: nat, bytes: seq<Byte>, all: set<nat>, done: set<nat>, i: nat)
    requires Tiled(cells, base, bytes, all, done) && Labelled(cells, i)
    ensures Defined(Printed(cells, 0, base), cells[i].value.origin)
  {
    var p := cells[i].value.origin;
    assert InTable(cells, base, all, done, i, p);
    assert CellOk(cells, base, bytes, p - base);
    var j := PrintedAt(cells, base, bytes, 0, p - base);
  }

  /** The pass with all bases in descending order keeps the layout of every section, for any
      set of bases in it. */
  lemma DescendingPassIsFaithful(base: nat, bytes: seq<Byte>, order: seq<nat>, valid: (nat, nat) -> bool)
    requires InSection(base, |bytes|, order) && forall a, b :: 0 <= a < b < |order| ==> order[a] >= order[b]
    ensures Faithful(Pass(Loaded(bytes), base, order, valid, |order|), base, bytes)
  {
    DescendingIsSpaced(order);
    SpacedIsHarmless(order, base + |bytes|);
    HarmlessPassTiles(base, bytes, order, valid);
    TiledIsFaithful(Pass(Loaded(bytes), base, order, valid, |order|), base, bytes, Elements(order), Elements(order));
  }

  /** So does the pass function by function, when the bases of different functions are equal or
      at least four bytes apart. */
  lemma GroupedPassIsFaithful(base: nat, bytes: seq<Byte>, groups: seq<seq<nat>>, valid: (nat, nat) -> bool)
    requires forall f, a, b :: 0 <= f < |groups| && 0 <= a < b < |groups[f]| ==> groups[f][a] >= groups[f][b]
    requires GroupsApart(groups) && InSection(base, |bytes|, Flatten(groups))
    ensures Faithful(Pass(Loaded(bytes), base, Flatten(groups), valid, |Flatten(groups)|), base, bytes)
  {
    var order := Flatten(groups);
    GroupsAreSpaced(groups);
    SpacedIsHarmless(order, base + |bytes|);
    HarmlessPassTiles(base, bytes, order, valid);
    TiledIsFaithful(Pass(Loaded(bytes), base, order, valid, |order|), base, bytes, Elements(order), Elements(order));
  }


  /** Two bases two bytes apart, the lower one first: the second table starts inside the first
      slot, and of six bytes only four come back. */
  lemma OverlapLosesBytes(bytes: seq<Byte>, order: seq<nat>, valid: (nat, nat) -> bool)
    requires bytes == [1, 0, 1, 0, 1, 0] && order == [0, 2] && forall m, a :: valid(m, a)
    ensures |Assemble(Printed(Pass(Loaded(bytes), 0, order, valid, |order|), 0, 0))| == 4
  {
    var n := |order| - 1;
    var loaded, all, v, w := Loaded(bytes), Elements(order), For(valid, n - 1), For(valid, n);
    WordZero(RawBytes(loaded, 0));
    var once := PutSlot(loaded, 0, 0, 0);
    assert Walk(loaded, 0, all, v, 0, 0) == Walk(once, 0, all, v, 0, 4) == once;
    assert Pass(loaded, 0, order, valid, 0) == loaded;
    assert Pass(loaded, 0, order, valid, n) == once;
    assert RawBytes(once, 2)[0] == 1;
    WordZero(RawBytes(once, 2));
    var twice := PutSlot(once, 0, 2, 2);
    assert Walk(once, 0, all, w, 2, 2) == Walk(twice, 0, all, w, 2, 6) == twice;
    OnlyFirst(twice, 1, 4);
    assert Printed(twice, 0, 0) == [Line(0, twice[0])];
    AssembleCons(Line(0, twice[0]), []);
  }

  lemma {:induction false} OnlyFirst(cells: seq<Cell>, i: nat, location: nat)
    requires i <= |cells| && forall k :: i <= k < |cells| ==> cells[k].ignored
    ensures Printed(cells, i, location) == []
    decreases |cells| - i
  {
    if i < |cells| {
      OnlyFirst(cells, i + 1, location);
    }
  }
}
