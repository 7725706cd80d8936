/** What each stage of the minimizer decides, byte by byte, block by block and symbol by symbol,
    told without the loops: the data and the result determine each other. */
module MinimizerLaws {
  import opened Bits
  import opened Minimizer

  // ----- Block normalization -----

  /** The block length of the first stage. */
  ghost predicate SetLength(n: nat, len: nat) {
    && PowerOfTwo(n) && n >= TMIN_SET_MIN_SIZE && len / TMIN_SET_STEPS <= n
    && (n == TMIN_SET_MIN_SIZE || n / 2 < len / TMIN_SET_STEPS)
  }

  /** The result up to `pos`, and the input from there on. */
  function Spliced(y: Data, x: Data, pos: nat): Data
    requires |y| == |x| && pos <= |x|
  {
    y[..pos] + x[pos..]
  }

  /** The block at `pos` is all '0' if the target accepts that, and else as it was. */
  ghost predicate BlockLaw(accept: Data -> bool, x: Data, y: Data, pos: nat, n: nat)
    requires |y| == |x| && pos <= |x|
  {
    forall i :: pos <= i < pos + n && i < |x| ==>
      y[i] == if accept(ZeroBlock(Spliced(y, x, pos), pos, n)) then ZERO else x[i]
  }

  ghost predicate NormalLaw(accept: Data -> bool, x: Data, y: Data, n: nat) {
    && |y| == |x| && n > 0
    && forall pos :: 0 <= pos < |x| && AtBlock(pos, n) ==> BlockLaw(accept, x, y, pos, n)
  }

  lemma {:induction false} NormalizedFromBlocks(accept: Data -> bool, x: Data, pos: nat, n: nat)
    requires n > 0 && AtBlock(pos, n)
    ensures var y := NormalizedFrom(accept, x, pos, n);
            && |y| == |x| && (forall i :: 0 <= i < pos && i < |x| ==> y[i] == x[i])
            && (forall q :: pos <= q < |x| && AtBlock(q, n) ==> BlockLaw(accept, x, y, q, n))
    decreases |x| - pos
  {
    if pos < |x| {
      var x' := KeepIf(accept, ZeroBlock(x, pos, n), x);
      var y := NormalizedFrom(accept, x, pos, n);
      NormalizedFromBlocks(accept, x', pos + n, n);
      FirstBlock(accept, x, y, pos, n);
      forall q | pos <= q < |x| && AtBlock(q, n) ensures BlockLaw(accept, x, y, q, n) {
        if q > pos {
          NextMultiple(pos, q, n);
          assert BlockLaw(accept, x', y, q, n);
          LaterBlock(accept, x, x', y, q, n);
        }
      }
    }
  }

  lemma FirstBlock(accept: Data -> bool, x: Data, y: Data, pos: nat, n: nat)
    requires |y| == |x| && pos < |x|
    requires var x' := KeepIf(accept, ZeroBlock(x, pos, n), x); forall i :: 0 <= i < pos + n && i < |x| ==> y[i] == x'[i]
    ensures BlockLaw(accept, x, y, pos, n)
  {
    assert Spliced(y, x, pos) == x;
  }

  lemma LaterBlock(accept: Data -> bool, x: Data, x': Data, y: Data, q: nat, n: nat)
    requires |y| == |x| == |x'| && q <= |x| && x'[q..] == x[q..] && BlockLaw(accept, x', y, q, n)
    ensures BlockLaw(accept, x, y, q, n)
  {
    assert Spliced(y, x, q) == Spliced(y, x', q);
    forall i | q <= i < |x| ensures x'[i] == x[i] {
      assert x'[q..][i - q] == x[q..][i - q];
    }
  }

  lemma {:induction false} NextMultiple(p: nat, q: nat, n: nat)
    requires n > 0 && AtBlock(p, n) && AtBlock(q, n) && p < q
    ensures p + n <= q
    decreases q
  {
    if p > 0 {
      NextMultiple(p - n, q - n, n);
    }
  }

  /** The first stage, for every target and every input. */
  lemma NormalizedIsLawful(accept: Data -> bool, x: Data) returns (n: nat)
    ensures SetLength(n, |x|) && NormalLaw(accept, x, Normalized(accept, x), n)
  {
    var p := DoubledTo(|x| / TMIN_SET_STEPS, 1);
    LeastPower(|x| / TMIN_SET_STEPS, 1);
    n := if p < TMIN_SET_MIN_SIZE then TMIN_SET_MIN_SIZE else p;
    assert PowerOfTwo(2) && PowerOfTwo(4);
    if p > 1 {
      assert PowerOfTwo(p / 2);
      assert !(|x| / TMIN_SET_STEPS <= p / 2);
    }
    NormalizedFromBlocks(accept, x, 0, n);
  }

  // ----- Characters -----

  /** Byte `i` becomes '0' exactly if the target accepts that, with the result before it and
      the input behind it. */
  ghost predicate CharacterLaw(accept: Data -> bool, x: Data, y: Data) {
    && |y| == |x|
    && forall i :: 0 <= i < |x| ==> y[i] == if x[i] != ZERO && accept(Spliced(y, x, i)[i := ZERO]) then ZERO else x[i]
  }

  lemma {:induction false} CharactersFromLaw(accept: Data -> bool, x: Data, i: nat)
    ensures var y := CharactersFrom(accept, x, i);
            && |y| == |x| && (forall k :: 0 <= k < i && k < |x| ==> y[k] == x[k])
            && (forall k :: i <= k < |x| ==> y[k] == if x[k] != ZERO && accept(Spliced(y, x, k)[k := ZERO]) then ZERO else x[k])
    decreases |x| - i
  {
    if i < |x| {
      var x' := if x[i] != ZERO then KeepIf(accept, x[i := ZERO], x) else x;
      var y := CharactersFrom(accept, x, i);
      CharactersFromLaw(accept, x', i + 1);
      assert Spliced(y, x, i) == x;
      forall k | i < k < |x| ensures Spliced(y, x, k) == Spliced(y, x', k) {
      }
    }
  }

  lemma CharactersAreLawful(accept: Data -> bool, x: Data)
    ensures CharacterLaw(accept, x, CharactersFrom(accept, x, 0))
  {
    CharactersFromLaw(accept, x, 0);
  }

  // ----- Symbols -----

  /** Symbols below `c` as in the result, the others as in the input. */
  function MixedBy(y: Data, x: Data, c: nat): Data
    requires |y| == |x|
  {
    seq(|x|, i requires 0 <= i < |x| => if x[i] < c then y[i] else x[i])
  }

  /** A symbol becomes '0' throughout exactly if the target accepts that, with lower symbols as
      in the result. */
  ghost predicate SymbolLaw(accept: Data -> bool, x: Data, y: Data) {
    && |y| == |x|
    && forall i :: 0 <= i < |x| ==>
         y[i] == if x[i] != ZERO && accept(Replaced(MixedBy(y, x, x[i]), x[i])) then ZERO else x[i]
  }

  lemma {:induction false} SymbolsFromLaw(accept: Data -> bool, x0: Data, x: Data, c: nat)
    requires |x| == |x0| && forall i :: 0 <= i < |x| ==> x[i] == x0[i] || (x[i] == ZERO && x0[i] < c && x0[i] != ZERO)
    ensures var y := SymbolsFrom(accept, x, c);
            && |y| == |x0| && (forall i :: 0 <= i < |x0| && x0[i] < c ==> y[i] == x[i])
            && (forall i :: 0 <= i < |x0| && x0[i] >= c ==>
                  y[i] == if x0[i] != ZERO && accept(Replaced(MixedBy(y, x0, x0[i]), x0[i])) then ZERO else x0[i])
    decreases 256 - c
  {
    if c < 256 {
      var x' := if c != ZERO && c in x then KeepIf(accept, Replaced(x, c), x) else x;
      var y := SymbolsFrom(accept, x, c);
      SymbolsFromLaw(accept, x0, x', c + 1);
      forall i | 0 <= i < |x0| && x0[i] == c
        ensures y[i] == if c != ZERO && accept(Replaced(MixedBy(y, x0, c), c)) then ZERO else c
      {
        assert x[i] == c;
        assert MixedBy(y, x0, c) == x;
      }
    }
  }

  lemma SymbolsAreLawful(accept: Data -> bool, x: Data)
    ensures SymbolLaw(accept, x, SymbolsFrom(accept, x, 0))
  {
    SymbolsFromLaw(accept, x, x, 0);
  }

  // ----- Block deletion -----

  /** Where block `j` starts. */
  function At(j: nat, d: nat): nat {
    if j == 0 then 0 else At(j - 1, d) + d
  }

  /** The data from block `j` on, and block `j` itself; the last one may be short. */
  function From(x: Data, d: nat, j: nat): Data {
    if At(j, d) <= |x| then x[At(j, d)..] else []
  }

  function Block(x: Data, d: nat, j: nat): Data {
    var y := From(x, d, j);
    if d <= |y| then y[..d] else y
  }

  /** The blocks that are kept, one after another. */
  function Kept(x: Data, d: nat, keep: seq<bool>): Data {
    if keep == [] then []
    else
      var j := |keep| - 1;
      Kept(x, d, keep[..j]) + (if keep[j] then Block(x, d, j) else [])
  }

  /** Block `j` is kept exactly if the target rejects the data without it, that is the blocks
      kept so far and all blocks behind it. */
  ghost predicate Decided(accept: Data -> bool, x: Data, d: nat, keep: seq<bool>, j: nat)
    requires j < |keep|
  {
    keep[j] <==> !accept(Kept(x, d, keep[..j]) + From(x, d, j + 1))
  }

  ghost predicate AllDecided(accept: Data -> bool, x: Data, d: nat, keep: seq<bool>) {
    forall j :: 0 <= j < |keep| ==> Decided(accept, x, d, keep, j)
  }

  /** A sweep tries every block once, from front to back. Nothing is said of skipping. */
  ghost predicate SweepLaw(accept: Data -> bool, x: Data, d: nat, y: Data, keep: seq<bool>) {
    && |x| <= At(|keep|, d) && (keep != [] ==> At(|keep| - 1, d) < |x|)
    && AllDecided(accept, x, d, keep)
    && y == Kept(x, d, keep)
  }

  /** The state of a sweep before block |keep|. */
  ghost predicate SweptTo(accept: Data -> bool, x: Data, d: nat, keep: seq<bool>, c: Data, pos: nat, prevDel: bool) {
    && d > 0 && (keep != [] ==> At(|keep| - 1, d) < |x|)
    && AllDecided(accept, x, d, keep)
    && c == Kept(x, d, keep) + From(x, d, |keep|)
    && (At(|keep|, d) <= |x| ==> pos == |Kept(x, d, keep)|)
    && (At(|keep|, d) > |x| ==> pos >= |c|)
    && (!prevDel ==> pos >= d && pos - d <= |c| && !accept(Without(c, pos - d, d)))
  }

  lemma KeptMore(x: Data, d: nat, keep: seq<bool>, b: bool)
    ensures Kept(x, d, keep + [b]) == Kept(x, d, keep) + (if b then Block(x, d, |keep|) else [])
  {
    assert (keep + [b])[..|keep|] == keep;
  }

  lemma DecidedMore(accept: Data -> bool, x: Data, d: nat, keep: seq<bool>, b: bool)
    requires AllDecided(accept, x, d, keep)
    requires b <==> !accept(Kept(x, d, keep) + From(x, d, |keep| + 1))
    ensures AllDecided(accept, x, d, keep + [b])
  {
    forall j | 0 <= j < |keep + [b]| ensures Decided(accept, x, d, keep + [b], j) {
      if j < |keep| {
        assert Decided(accept, x, d, keep, j);
        assert (keep + [b])[..j] == keep[..j];
      } else {
        assert (keep + [b])[..j] == keep;
      }
    }
  }

  /** Deleting the block at hand leaves what was kept and what is behind it. */
  lemma WithoutBlock(x: Data, d: nat, keep: seq<bool>, c: Data)
    requires d > 0 && At(|keep|, d) < |x| && c == Kept(x, d, keep) + From(x, d, |keep|)
    ensures |Kept(x, d, keep)| < |c|
    ensures Without(c, |Kept(x, d, keep)|, d) == Kept(x, d, keep) + From(x, d, |keep| + 1)
    ensures c == Kept(x, d, keep) + Block(x, d, |keep|) + From(x, d, |keep| + 1)
  {
    var k, j := Kept(x, d, keep), |keep|;
    var p := |k|;
    assert c[..p] == k;
    if p + d <= |c| {
      assert c[p + d..] == From(x, d, j)[d..] == From(x, d, j + 1);
    }
  }

  lemma SweepKeepsBlock(accept: Data -> bool, x: Data, d: nat, keep: seq<bool>, c: Data, pos: nat, prevDel: bool)
    requires SweptTo(accept, x, d, keep, c, pos, prevDel) && pos < |c| && !accept(Without(c, pos, d))
    ensures SweptTo(accept, x, d, keep + [true], c, pos + d, false)
  {
    WithoutBlock(x, d, keep, c);
    KeptMore(x, d, keep, true);
    DecidedMore(accept, x, d, keep, true);
  }

  lemma SweepDropsBlock(accept: Data -> bool, x: Data, d: nat, keep: seq<bool>, c: Data, pos: nat, prevDel: bool)
    requires SweptTo(accept, x, d, keep, c, pos, prevDel) && pos < |c| && accept(Without(c, pos, d))
    ensures SweptTo(accept, x, d, keep + [false], Without(c, pos, d), pos, true)
  {
    WithoutBlock(x, d, keep, c);
    DropsTo(x, d, keep, c, pos, Without(c, pos, d));
    DecidedMore(accept, x, d, keep, false);
  }

  lemma DropsTo(x: Data, d: nat, keep: seq<bool>, c: Data, pos: nat, w: Data)
    requires d > 0 && At(|keep|, d) < |x| && pos == |Kept(x, d, keep)|
    requires w == Kept(x, d, keep) + From(x, d, |keep| + 1)
    ensures w == Kept(x, d, keep + [false]) + From(x, d, |keep + [false]|) && pos == |Kept(x, d, keep + [false])|
    ensures At(|keep + [false]|, d) > |x| ==> pos >= |w|
  {
    KeptMore(x, d, keep, false);
  }

  /** The rest of the sweep ends in `end`. */
  ghost predicate SweepsTo(accept: Data -> bool, c: Data, pos: nat, d: nat, prevDel: bool, end: Data) {
    d > 0 && (!prevDel ==> pos >= d) && SweepFrom(accept, c, pos, d, prevDel) == end
  }

  lemma SweepsOn(accept: Data -> bool, c: Data, pos: nat, d: nat, prevDel: bool, end: Data)
    requires SweepsTo(accept, c, pos, d, prevDel, end)
    ensures if pos >= |c| then c == end
            else if Skips(c, pos, d, prevDel) || !accept(Without(c, pos, d)) then SweepsTo(accept, c, pos + d, d, false, end)
            else SweepsTo(accept, Without(c, pos, d), pos, d, true, end)
  {
  }

  /** A skipped block would have been rejected: deleting it is deleting the one before it. */
  lemma SkippedIsRejected(accept: Data -> bool, x: Data, d: nat, keep: seq<bool>, c: Data, pos: nat, prevDel: bool)
    requires SweptTo(accept, x, d, keep, c, pos, prevDel) && Skips(c, pos, d, prevDel)
    ensures !accept(Without(c, pos, d))
  {
    SameBlockSameDeletion(c, pos, d);
  }

  /** The state of a sweep over `x` that will end in `end`. */
  datatype Spot = Spot(keep: seq<bool>, c: Data, pos: nat, prevDel: bool)

  ghost predicate Swept(accept: Data -> bool, x: Data, d: nat, s: Spot) {
    SweptTo(accept, x, d, s.keep, s.c, s.pos, s.prevDel)
  }

  ghost predicate WillEnd(accept: Data -> bool, d: nat, end: Data, s: Spot) {
    SweepsTo(accept, s.c, s.pos, d, s.prevDel, end)
  }

  function NextSpot(accept: Data -> bool, d: nat, s: Spot): Spot
    requires s.pos < |s.c|
  {
    if accept(Without(s.c, s.pos, d)) then Spot(s.keep + [false], Without(s.c, s.pos, d), s.pos, true)
    else Spot(s.keep + [true], s.c, s.pos + d, false)
  }

  lemma SweptOn(accept: Data -> bool, x: Data, d: nat, s: Spot)
    requires Swept(accept, x, d, s) && s.pos < |s.c|
    ensures Swept(accept, x, d, NextSpot(accept, d, s))
    ensures !s.prevDel ==> s.pos >= d
    ensures (!s.prevDel ==> s.pos >= d) && Skips(s.c, s.pos, d, s.prevDel) ==> !accept(Without(s.c, s.pos, d))
  {
    if accept(Without(s.c, s.pos, d)) {
      SweepDropsBlock(accept, x, d, s.keep, s.c, s.pos, s.prevDel);
    } else {
      SweepKeepsBlock(accept, x, d, s.keep, s.c, s.pos, s.prevDel);
    }
    if Skips(s.c, s.pos, d, s.prevDel) {
      SkippedIsRejected(accept, x, d, s.keep, s.c, s.pos, s.prevDel);
    }
  }

  lemma WillEndOn(accept: Data -> bool, d: nat, end: Data, s: Spot)
    requires WillEnd(accept, d, end, s) && s.pos < |s.c| && (!s.prevDel ==> s.pos >= d)
    requires Skips(s.c, s.pos, d, s.prevDel) ==> !accept(Without(s.c, s.pos, d))
    ensures WillEnd(accept, d, end, NextSpot(accept, d, s))
  {
    SweepsOn(accept, s.c, s.pos, d, s.prevDel, end);
  }

  lemma {:induction false} SweepFromLaw(accept: Data -> bool, x: Data, d: nat, end: Data, s: Spot) returns (keep: seq<bool>)
    requires d > 0 && Swept(accept, x, d, s) && WillEnd(accept, d, end, s)
    ensures SweepLaw(accept, x, d, end, keep)
    decreases |s.c| - s.pos, |s.c|
  {
    if s.pos >= |s.c| {
      SweepsOn(accept, s.c, s.pos, d, s.prevDel, end);
      SweepStops(accept, x, d, s.keep, s.c, s.pos, s.prevDel);
      keep := s.keep;
    } else {
      SweptOn(accept, x, d, s);
      WillEndOn(accept, d, end, s);
      keep := SweepFromLaw(accept, x, d, end, NextSpot(accept, d, s));
    }
  }

  lemma SweepStops(accept: Data -> bool, x: Data, d: nat, keep: seq<bool>, c: Data, pos: nat, prevDel: bool)
    requires SweptTo(accept, x, d, keep, c, pos, prevDel) && pos >= |c|
    ensures SweepLaw(accept, x, d, c, keep)
  {
    if At(|keep|, d) < |x| {
      WithoutBlock(x, d, keep, c);
    }
  }

  /** For every target, input and block length: the sweep with its skipping decides each block
      as the plain greedy rule does. */
  lemma SweepIsGreedy(accept: Data -> bool, x: Data, d: nat) returns (keep: seq<bool>)
    requires d > 0
    ensures SweepLaw(accept, x, d, SweepFrom(accept, x, 0, d, true), keep)
  {
    assert Kept(x, d, []) + From(x, d, 0) == x;
    keep := SweepFromLaw(accept, x, d, SweepFrom(accept, x, 0, d, true), Spot([], x, 0, true));
  }

  // ----- Passes and the whole run -----

  /** Some choice of blocks makes a lawful sweep. */
  ghost predicate SweptInto(accept: Data -> bool, x: Data, d: nat, y: Data) {
    exists keep :: SweepLaw(accept, x, d, y, keep)
  }

  /** The data before the first sweep and after each one. Sweep `k` has blocks of half the length
      of the sweep before; the last has blocks of one byte, or leaves nothing. */
  ghost predicate DeletionLaw(accept: Data -> bool, d: nat, data: seq<Data>)
    decreases |data|
  {
    && |data| > 1 && d > 0 && SweptInto(accept, data[0], d, data[1])
    && if d > 1 && data[1] != [] then DeletionLaw(accept, d / 2, data[1..]) else |data| == 2
  }

  lemma {:induction false} DeletionsFromLaw(accept: Data -> bool, x: Data, d: nat) returns (data: seq<Data>)
    requires d > 0
    ensures DeletionLaw(accept, d, data) && data[0] == x && data[|data| - 1] == DeletedFrom(accept, x, d)
    decreases d
  {
    var y := SweepFrom(accept, x, 0, d, true);
    var keep := SweepIsGreedy(accept, x, d);
    assert SweptInto(accept, x, d, y);
    if d > 1 && y != [] {
      var rest := DeletionsFromLaw(accept, y, d / 2);
      data := [x] + rest;
      assert data[1..] == rest;
    } else {
      data := [x, y];
    }
  }

  /** The first block length: the least power of two that is at least a sixteenth of the length. */
  ghost predicate FirstLength(d: nat, len: nat) {
    PowerOfTwo(d) && len / TRIM_START_STEPS <= d && forall q: nat :: PowerOfTwo(q) && len / TRIM_START_STEPS <= q ==> d <= q
  }

  /** `y` is what the deletion stage leaves of `x`. */
  ghost predicate DeletesTo(accept: Data -> bool, x: Data, y: Data) {
    exists d: nat, data: seq<Data> :: FirstLength(d, |x|) && DeletionLaw(accept, d, data) && data[0] == x && data[|data| - 1] == y
  }

  lemma DeletionIsLawful(accept: Data -> bool, x: Data)
    ensures DeletesTo(accept, x, Deleted(accept, x))
  {
    DoubledPositive(|x| / TRIM_START_STEPS, 1);
    LeastPower(|x| / TRIM_START_STEPS, 1);
    var d := DoubledTo(|x| / TRIM_START_STEPS, 1);
    var data := DeletionsFromLaw(accept, x, d);
    assert FirstLength(d, |x|);
  }

  /** The stages of a pass that does not stop after deleting. */
  datatype Turn = Turn(before: Data, deleted: Data, symbols: Data, after: Data)

  ghost predicate TurnLaw(accept: Data -> bool, t: Turn) {
    && DeletesTo(accept, t.before, t.deleted) && SymbolLaw(accept, t.deleted, t.symbols)
    && CharacterLaw(accept, t.symbols, t.after)
  }

  /** A run of passes from `x` to `y`. A pass behind the first ends the run if it deletes nothing;
      any pass ends it if it changes nothing at all; otherwise another pass follows. */
  ghost predicate RunLaw(accept: Data -> bool, x: Data, first: bool, turns: seq<Turn>, y: Data)
    decreases |turns|
  {
    if turns == [] then !first && y == x && DeletesTo(accept, x, x)
    else
      var t := turns[0];
      && t.before == x && TurnLaw(accept, t) && (first || t.deleted != x)
      && if t.after == x then |turns| == 1 && y == x else RunLaw(accept, t.after, false, turns[1..], y)
  }

  lemma {:induction false} PassesAreLawful(accept: Data -> bool, x: Data, first: bool) returns (turns: seq<Turn>)
    ensures RunLaw(accept, x, first, turns, Passes(accept, x, first))
    decreases |x|, NonZero(x)
  {
    var end := Passes(accept, x, first);
    PassOn(accept, x, first, end);
    var y := Deleted(accept, x);
    DeletionIsLawful(accept, x);
    if !first && y == x {
      return [];
    }
    var w, z := SymbolsFrom(accept, y, 0), Simplified(accept, y);
    SymbolsAreLawful(accept, y);
    CharactersAreLawful(accept, w);
    PassShrinks(accept, x);
    var t := Turn(x, y, w, z);
    assert TurnLaw(accept, t);
    if z == x {
      return [t];
    }
    var rest := PassesAreLawful(accept, z, false);
    turns := [t] + rest;
    assert turns[1..] == rest;
  }

  /** The whole run, for every target and every input: one normalization and then passes. */
  lemma MinimizedIsLawful(accept: Data -> bool, x: Data) returns (n: nat, y: Data, turns: seq<Turn>)
    ensures SetLength(n, |x|) && NormalLaw(accept, x, y, n) && RunLaw(accept, y, true, turns, Minimized(accept, x))
  {
    y := Normalized(accept, x);
    n := NormalizedIsLawful(accept, x);
    turns := PassesAreLawful(accept, y, true);
  }
}
