/** What a trim runs and what it decides, execution by execution, told without the loops. */
module TrimLaws {
  import opened Bits
  import opened Buffers
  import Minimizer
  import opened MinimizerLaws
  import opened Trim

  // ----- One pass -----

  /** Block `j` is tried by execution number n0 + j - 1, on the blocks kept so far and all blocks
      behind it, and is deleted exactly if that execution matches. */
  ghost predicate TriedRightly(x: Data, n0: nat, d: nat, cksum: int, run: Target, keep: seq<bool>, tried: seq<Data>, j: nat)
    requires 0 < j < |keep| && |tried| >= n0 + |keep| - 1
  {
    && tried[n0 + j - 1] == Kept(x, d, keep[..j]) + From(x, d, j + 1)
    && (keep[j] <==> !MatchedAt(tried, run, cksum, n0 + j - 1))
  }

  ghost predicate AllTried(x: Data, n0: nat, d: nat, cksum: int, run: Target, keep: seq<bool>, tried: seq<Data>) {
    && |keep| > 0 && keep[0] && |tried| == n0 + |keep| - 1
    && forall j :: 0 < j < |keep| ==> TriedRightly(x, n0, d, cksum, run, keep, tried, j)
  }

  /** Only the last execution may have given up. */
  ghost predicate GaveUpLast(n0: nat, run: Target, tried: seq<Data>, gaveUp: bool) {
    && (forall k :: n0 <= k < |tried| - 1 ==> !GaveUpAt(tried, run, k))
    && (gaveUp <==> |tried| > n0 && GaveUpAt(tried, run, |tried| - 1))
  }

  /** A pass over `t` with blocks of `d` bytes. The first block is never tried; every other one is
      tried exactly once, from front to back, unless an execution gives up. */
  ghost predicate PassLaw(t: Trial, r: Trial, d: nat, cksum: int, run: Target, keep: seq<bool>) {
    && t.tried <= r.tried
    && AllTried(t.data, |t.tried|, d, cksum, run, keep, r.tried) && GaveUpLast(|t.tried|, run, r.tried, r.gaveUp)
    && r.data == Kept(t.data, d, keep) + From(t.data, d, |keep|)
    && (|keep| > 1 ==> At(|keep| - 1, d) < |t.data|)
    && (!r.gaveUp ==> |t.data| <= At(|keep|, d))
  }

  /** Where a pass over `x` stands, before block |keep|. */
  ghost predicate Passing(x: Data, n0: nat, d: nat, cksum: int, run: Target, keep: seq<bool>, t: Trial, pos: nat) {
    && d > 0 && AllTried(x, n0, d, cksum, run, keep, t.tried) && GaveUpLast(n0, run, t.tried, t.gaveUp)
    && Placed(x, d, keep, t.data, pos)
  }

  ghost predicate Placed(x: Data, d: nat, keep: seq<bool>, data: Data, pos: nat) {
    && data == Kept(x, d, keep) + From(x, d, |keep|)
    && (|keep| > 1 ==> At(|keep| - 1, d) < |x|)
    && (if At(|keep|, d) <= |x| then pos == |Kept(x, d, keep)| else pos >= |data|)
  }

  lemma TriedOneMore(x: Data, n0: nat, d: nat, cksum: int, run: Target, keep: seq<bool>, tried: seq<Data>, file: Data, b: bool)
    requires AllTried(x, n0, d, cksum, run, keep, tried) && file == Kept(x, d, keep) + From(x, d, |keep| + 1)
    requires b <==> run(|tried|, file).gaveUp || run(|tried|, file).cksum != cksum
    ensures AllTried(x, n0, d, cksum, run, keep + [b], tried + [file])
  {
    var keep', tried' := keep + [b], tried + [file];
    forall j | 0 < j < |keep'| ensures TriedRightly(x, n0, d, cksum, run, keep', tried', j) {
      if j < |keep| {
        assert TriedRightly(x, n0, d, cksum, run, keep, tried, j);
        assert keep'[..j] == keep[..j];
      } else {
        assert keep'[..j] == keep;
      }
    }
  }

  lemma GaveUpNext(n0: nat, run: Target, tried: seq<Data>, file: Data)
    requires GaveUpLast(n0, run, tried, false) && |tried| >= n0
    ensures GaveUpLast(n0, run, tried + [file], run(|tried|, file).gaveUp)
  {
    forall k | n0 <= k < |tried| ensures !GaveUpAt(tried + [file], run, k) {
      assert !GaveUpAt(tried, run, k);
    }
  }

  lemma PlacedDrops(x: Data, d: nat, keep: seq<bool>, data: Data, pos: nat)
    requires d > 0 && |keep| > 0 && Placed(x, d, keep, data, pos) && pos < |data|
    ensures Minimizer.Without(data, pos, d) == Kept(x, d, keep) + From(x, d, |keep| + 1)
    ensures Placed(x, d, keep + [false], Minimizer.Without(data, pos, d), pos)
  {
    WithoutBlock(x, d, keep, data);
    DropsTo(x, d, keep, data, pos, Minimizer.Without(data, pos, d));
  }

  lemma PlacedKeeps(x: Data, d: nat, keep: seq<bool>, data: Data, pos: nat)
    requires d > 0 && |keep| > 0 && Placed(x, d, keep, data, pos) && pos < |data|
    ensures Placed(x, d, keep + [true], data, pos + d)
  {
    WithoutBlock(x, d, keep, data);
    KeptMore(x, d, keep, true);
  }

  lemma ShortGap(data: Data, pos: nat, d: nat)
    requires pos < |data|
    ensures Minimizer.Without(data, pos, Min(d, |data| - pos)) == Minimizer.Without(data, pos, d)
  {
  }

  /** Some choice of blocks makes a lawful pass. */
  ghost predicate Passed(t: Trial, r: Trial, d: nat, cksum: int, run: Target) {
    exists keep :: PassLaw(t, r, d, cksum, run, keep)
  }

  lemma PassEnds(t: Trial, r: Trial, d: nat, cksum: int, run: Target, keep: seq<bool>, pos: nat)
    requires Passing(t.data, |t.tried|, d, cksum, run, keep, r, pos) && (r.gaveUp || pos >= |r.data|)
    requires t.tried <= r.tried
    ensures Passed(t, r, d, cksum, run)
  {
    if At(|keep|, d) < |t.data| {
      WithoutBlock(t.data, d, keep, r.data);
    }
    assert PassLaw(t, r, d, cksum, run, keep);
  }

  function Tried(u: Trial, pos: nat, d: nat): Data
    requires pos < |u.data|
  {
    Minimizer.Without(u.data, pos, Min(d, |u.data| - pos))
  }

  ghost function NextTrial(u: Trial, pos: nat, d: nat, cksum: int, run: Target): Trial
    requires pos < |u.data|
  {
    var file := Tried(u, pos, d);
    Trial(if Hit(u, cksum, run, file) then file else u.data, u.tried + [file], run(|u.tried|, file).gaveUp)
  }

  ghost function NextPos(u: Trial, pos: nat, d: nat, cksum: int, run: Target): nat
    requires pos < |u.data|
  {
    if Hit(u, cksum, run, Tried(u, pos, d)) then pos else pos + d
  }

  /** One turn of a pass. */
  lemma PassTurn(x: Data, n0: nat, d: nat, cksum: int, run: Target, keep: seq<bool>, u: Trial, pos: nat, hit: bool)
    requires Passing(x, n0, d, cksum, run, keep, u, pos) && !u.gaveUp && pos < |u.data| && hit == Hit(u, cksum, run, Tried(u, pos, d))
    ensures Passing(x, n0, d, cksum, run, keep + [!hit], NextTrial(u, pos, d, cksum, run), NextPos(u, pos, d, cksum, run))
  {
    var file := Tried(u, pos, d);
    ShortGap(u.data, pos, d);
    PlacedDrops(x, d, keep, u.data, pos);
    if !hit {
      PlacedKeeps(x, d, keep, u.data, pos);
    }
    TriedOneMore(x, n0, d, cksum, run, keep, u.tried, file, !hit);
    GaveUpNext(n0, run, u.tried, file);
  }

  /** A pass that started at `t` has come to `u`. */
  ghost predicate Reaches(t: Trial, d: nat, cksum: int, run: Target, u: Trial, pos: nat) {
    t.tried <= u.tried && exists keep :: Passing(t.data, |t.tried|, d, cksum, run, keep, u, pos)
  }

  lemma StillBegins(a: seq<Data>, b: seq<Data>, file: Data)
    requires a <= b
    ensures a <= b + [file]
  {
  }

  lemma ReachedBy(t: Trial, d: nat, cksum: int, run: Target, u: Trial, pos: nat, keep: seq<bool>)
    requires t.tried <= u.tried && Passing(t.data, |t.tried|, d, cksum, run, keep, u, pos)
    ensures Reaches(t, d, cksum, run, u, pos)
  {
  }

  lemma ReachesNext(t: Trial, d: nat, cksum: int, run: Target, u: Trial, pos: nat)
    requires Reaches(t, d, cksum, run, u, pos) && !u.gaveUp && pos < |u.data|
    ensures Reaches(t, d, cksum, run, NextTrial(u, pos, d, cksum, run), NextPos(u, pos, d, cksum, run))
  {
    var keep :| Passing(t.data, |t.tried|, d, cksum, run, keep, u, pos);
    var hit := Hit(u, cksum, run, Tried(u, pos, d));
    PassTurn(t.data, |t.tried|, d, cksum, run, keep, u, pos, hit);
    StillBegins(t.tried, u.tried, Tried(u, pos, d));
    ReachedBy(t, d, cksum, run, NextTrial(u, pos, d, cksum, run), NextPos(u, pos, d, cksum, run), keep + [!hit]);
  }

  lemma {:induction false} PassFromLaw(t: Trial, d: nat, cksum: int, run: Target, u: Trial, pos: nat, end: Trial)
    requires d > 0 && Reaches(t, d, cksum, run, u, pos) && LeadsTo(u, pos, d, cksum, run, end)
    ensures Passed(t, end, d, cksum, run)
    decreases |u.data| - pos, !u.gaveUp
  {
    if u.gaveUp || pos >= |u.data| {
      var keep :| Passing(t.data, |t.tried|, d, cksum, run, keep, u, pos);
      PassEnds(t, u, d, cksum, run, keep, pos);
    } else {
      PassGoesOn(u, pos, d, cksum, run, Tried(u, pos, d), end);
      ReachesNext(t, d, cksum, run, u, pos);
      PassFromLaw(t, d, cksum, run, NextTrial(u, pos, d, cksum, run), NextPos(u, pos, d, cksum, run), end);
    }
  }

  lemma PassStarts(x: Data, d: nat)
    requires d > 0
    ensures Placed(x, d, [true], x, d)
  {
    assert [true][..0] == [];
    assert Kept(x, d, []) == [];
    assert At(1, d) == At(0, d) + d;
    assert Kept(x, d, [true]) == Block(x, d, 0);
  }

  /** For every target, also one that varies, every entry and block length. */
  lemma PassIsLawful(t: Trial, d: nat, cksum: int, run: Target)
    requires d > 0 && !t.gaveUp
    ensures Passed(t, PassFrom(t, d, d, cksum, run), d, cksum, run)
  {
    PassStarts(t.data, d);
    assert Passing(t.data, |t.tried|, d, cksum, run, [true], t, d);
    PassFromLaw(t, d, cksum, run, t, d, PassFrom(t, d, d, cksum, run));
  }

  // ----- The passes -----

  ghost predicate LeastPowerOf(p: nat, len: nat) {
    Minimizer.PowerOfTwo(p) && len <= p && forall q: nat :: Minimizer.PowerOfTwo(q) && len <= q ==> p <= q
  }

  /** Blocks below a 1024th of the data, or below four bytes, are not tried. */
  ghost predicate TooShort(d: nat, len: nat) {
    d < TRIM_MIN_BYTES || exists p: nat :: LeastPowerOf(p, len) && d < p / TRIM_END_STEPS
  }

  /** The trials between the passes: each pass halves the block length, and a pass follows unless
      an execution gave up or the blocks are too short for what is left. */
  ghost predicate PassesLaw(ts: seq<Trial>, d: nat, cksum: int, run: Target)
    decreases |ts|
  {
    && ts != []
    && if ts[0].gaveUp || TooShort(d, |ts[0].data|) then |ts| == 1
       else |ts| > 1 && Passed(ts[0], ts[1], d, cksum, run) && PassesLaw(ts[1..], d / 2, cksum, run)
  }

  lemma TooShortIff(d: nat, len: nat)
    ensures TooShort(d, len) <==> d < Max(Minimizer.DoubledTo(len, 1) / TRIM_END_STEPS, TRIM_MIN_BYTES)
  {
    var p := Minimizer.DoubledTo(len, 1);
    Minimizer.LeastPower(len, 1);
    assert LeastPowerOf(p, len);
    if TooShort(d, len) && d >= TRIM_MIN_BYTES {
      var q: nat :| LeastPowerOf(q, len) && d < q / TRIM_END_STEPS;
      assert q == p;
    }
  }

  lemma {:induction false} PassesAreLawful(t: Trial, d: nat, cksum: int, run: Target) returns (ts: seq<Trial>)
    ensures PassesLaw(ts, d, cksum, run) && ts[0] == t && ts[|ts| - 1] == Passes(t, d, cksum, run)
    decreases d
  {
    TooShortIff(d, |t.data|);
    if t.gaveUp || TooShort(d, |t.data|) {
      return [t];
    }
    PassIsLawful(t, d, cksum, run);
    var rest := PassesAreLawful(PassFrom(t, d, d, cksum, run), d / 2, cksum, run);
    ts := [t] + rest;
    assert ts[1..] == rest;
  }

  /** The first block length: a sixteenth of the least power of two that is not below the length,
      but at least four. */
  ghost predicate FirstBlocks(d: nat, len: nat) {
    exists p: nat :: LeastPowerOf(p, len) && d == Max(p / Minimizer.TRIM_START_STEPS, TRIM_MIN_BYTES)
  }

  /** The whole trim, for every entry of at least five bytes and every target. */
  lemma TrimmingIsLawful(x: Data, cksum: int, run: Target) returns (d: nat, ts: seq<Trial>)
    requires |x| >= 5
    ensures FirstBlocks(d, |x|) && PassesLaw(ts, d, cksum, run)
    ensures ts[0] == Trial(x, [], false) && ts[|ts| - 1] == Trimming(x, cksum, run)
  {
    var p := Minimizer.DoubledTo(|x|, 1);
    Minimizer.LeastPower(|x|, 1);
    assert LeastPowerOf(p, |x|);
    d := Max(p / Minimizer.TRIM_START_STEPS, TRIM_MIN_BYTES);
    ts := PassesAreLawful(Trial(x, [], false), d, cksum, run);
  }
}
