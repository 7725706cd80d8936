/** The test case minimizer: deletes blocks and normalizes bytes while the target accepts. */
module Minimizer {
  import opened Bits
  import opened Buffers

  /** The character '0', which bytes are normalized to. */
  const ZERO: Byte := 48

  const TMIN_SET_MIN_SIZE := 4
  const TMIN_SET_STEPS := 128
  const TRIM_START_STEPS := 16

  // ----- Accepting a run -----

  /** How a run of the target ended: a timeout, a crash (a signal, or an exit status that
      counts as one), and the checksum of its classified trace. */
  datatype Outcome = Outcome(timedOut: bool, crashed: bool, cksum: int)

  datatype Settings = Settings(crashMode: bool, exactMode: bool, origCksum: int)

  /** What the first run, on the unmodified input, fixes for all later ones. */
  function FirstRun(o: Outcome, exactMode: bool): Settings {
    Settings(o.crashed, exactMode, o.cksum)
  }

  predicate Accepts(cfg: Settings, o: Outcome) {
    if o.timedOut then false
    else if o.crashed then cfg.crashMode && (!cfg.exactMode || o.cksum == cfg.origCksum)
    else !cfg.crashMode && o.cksum == cfg.origCksum
  }

  /** Later runs are accepted when they do what the first run did: crash when it crashed (on
      the same trace, in exact mode), or else run to the end on the same trace. */
  lemma AcceptsMeans(first: Outcome, exactMode: bool, o: Outcome)
    requires !first.timedOut
    ensures Accepts(FirstRun(first, exactMode), o) <==>
            !o.timedOut && o.crashed == first.crashed && ((first.crashed && !exactMode) || o.cksum == first.cksum)
    ensures Accepts(FirstRun(first, exactMode), first)
  {
  }

  // ----- What is deleted and kept -----

  /** The data without the block of `d` bytes at `p`; the last block may be short. */
  function Without(x: Data, p: nat, d: nat): Data
    requires p <= |x|
  {
    x[..p] + (if p + d <= |x| then x[p + d..] else [])
  }

  /** A block equal to the block before it deletes to the same data as that block does. */
  lemma SameBlockSameDeletion(x: Data, p: nat, d: nat)
    requires d <= p && p + d <= |x| && x[p - d..p] == x[p..p + d]
    ensures Without(x, p, d) == Without(x, p - d, d)
  {
    assert x[..p] == x[..p - d] + x[p - d..p];
    assert x[p..] == x[p..p + d] + x[p + d..];
  }

  /** Deleting any of the blocks of length `d` that start at p - d, p - 2d, ... is rejected. */
  ghost predicate RejectedBelow(accept: Data -> bool, x: Data, p: int, d: nat)
    requires d > 0
    decreases p
  {
    p > 0 ==> p >= d && p - d <= |x| && !accept(Without(x, p - d, d)) && RejectedBelow(accept, x, p - d, d)
  }

  /** `p` is a multiple of the block length. */
  ghost predicate AtBlock(p: nat, d: nat)
    requires d > 0
  {
    p == 0 || (p >= d && AtBlock(p - d, d))
  }

  ghost function BlocksBefore(p: nat, d: nat): (n: nat)
    requires d > 0 && AtBlock(p, d)
    ensures n * d == p
  {
    if p == 0 then 0
    else
      var n := BlocksBefore(p - d, d);
      assert (n + 1) * d == n * d + d;
      n + 1
  }

  /** No block of `d` bytes, at a multiple of `d`, can be deleted. */
  ghost predicate BlockMinimal(accept: Data -> bool, x: Data, d: nat) {
    forall k: nat :: k * d < |x| ==> !accept(Without(x, k * d, d))
  }

  /** No single byte can be deleted. */
  ghost predicate OneMinimal(accept: Data -> bool, x: Data) {
    forall i :: 0 <= i < |x| ==> !accept(x[..i] + x[i + 1..])
  }

  lemma {:induction false} RejectedBelowHas(accept: Data -> bool, x: Data, n: nat, d: nat, k: nat)
    requires d > 0 && RejectedBelow(accept, x, n * d, d) && k < n
    ensures k * d <= |x| && !accept(Without(x, k * d, d))
    decreases n
  {
    assert n * d > 0 && (n - 1) * d == n * d - d;
    if k < n - 1 {
      RejectedBelowHas(accept, x, n - 1, d, k);
    }
  }

  lemma RejectedToTheEnd(accept: Data -> bool, x: Data, n: nat, d: nat)
    requires d > 0 && RejectedBelow(accept, x, n * d, d) && n * d >= |x|
    ensures BlockMinimal(accept, x, d)
  {
    forall k: nat | k * d < |x|
      ensures !accept(Without(x, k * d, d))
    {
      RejectedAt(accept, x, n, d, k);
    }
  }

  lemma RejectedAt(accept: Data -> bool, x: Data, n: nat, d: nat, k: nat)
    requires d > 0 && RejectedBelow(accept, x, n * d, d) && n * d >= |x| && k * d < |x|
    ensures !accept(Without(x, k * d, d))
  {
    NotBeyond(n, k, d, |x|);
    RejectedBelowHas(accept, x, n, d, k);
  }

  lemma NotBeyond(n: nat, k: nat, d: nat, len: nat)
    requires n * d >= len && k * d < len
    ensures k < n
  {
    if k >= n {
      assert k * d == n * d + (k - n) * d;
    }
  }

  lemma BlocksOfOne(accept: Data -> bool, x: Data)
    requires BlockMinimal(accept, x, 1)
    ensures OneMinimal(accept, x)
  {
    forall i | 0 <= i < |x|
      ensures !accept(x[..i] + x[i + 1..])
    {
      assert i * 1 == i;
      assert Without(x, i, 1) == x[..i] + x[i + 1..];
    }
  }

  /** `y` comes from `x` by deleting bytes and setting others to '0': `f` says which byte of
      `x` each byte of `y` was. */
  ghost predicate Via(x: Data, y: Data, f: seq<nat>) {
    && |f| == |y|
    && (forall i :: 0 <= i < |f| ==> f[i] < |x| && (y[i] == x[f[i]] || y[i] == ZERO))
    && (forall i, j :: 0 <= i < j < |f| ==> f[i] < f[j])
  }

  ghost predicate Reduces(x: Data, y: Data) {
    exists f :: Via(x, y, f)
  }

  lemma ReducesSelf(x: Data)
    ensures Reduces(x, x)
  {
    assert Via(x, x, seq(|x|, i => i));
  }

  lemma ReducesByDeleting(x: Data, y: Data, p: nat, d: nat)
    requires Reduces(x, y) && p <= |y|
    ensures Reduces(x, Without(y, p, d))
  {
    var f :| Via(x, y, f);
    var g := f[..p] + (if p + d <= |y| then f[p + d..] else []);
    assert Via(x, Without(y, p, d), g);
  }

  lemma ReducesByZeroing(x: Data, y: Data, z: Data)
    requires Reduces(x, y) && |z| == |y| && forall i :: 0 <= i < |y| ==> z[i] == y[i] || z[i] == ZERO
    ensures Reduces(x, z)
  {
    var f :| Via(x, y, f);
    assert Via(x, z, f);
  }

  /** How many bytes are not '0' yet. */
  function NonZero(x: Data): nat {
    if x == [] then 0 else (if x[|x| - 1] == ZERO then 0 else 1) + NonZero(x[..|x| - 1])
  }

  lemma {:induction false} NonZeroDrops(x: Data, y: Data)
    requires |x| == |y| && forall i :: 0 <= i < |x| ==> y[i] == x[i] || y[i] == ZERO
    ensures NonZero(y) <= NonZero(x)
    ensures y != x ==> NonZero(y) < NonZero(x)
  {
    if x != [] {
      var n := |x| - 1;
      NonZeroDrops(x[..n], y[..n]);
      assert x == x[..n] + [x[n]] && y == y[..n] + [y[n]];
    }
  }

  // ----- Powers of two -----

  predicate PowerOfTwo(n: nat) {
    n == 1 || (n > 1 && n % 2 == 0 && PowerOfTwo(n / 2))
  }

  lemma {:induction false} NextSmallerPower(a: nat, b: nat)
    requires PowerOfTwo(a) && PowerOfTwo(b) && a < b
    ensures a <= b / 2
    decreases b
  {
    if a > 1 {
      NextSmallerPower(a / 2, b / 2);
    }
  }

  /** Doubles `p` until it reaches `val`. */
  function DoubledTo(val: nat, p: nat): nat
    requires p > 0
    decreases val - p
  {
    if val <= p then p else DoubledTo(val, 2 * p)
  }

  method NextP2(val: nat) returns (ret: nat)
    ensures ret == DoubledTo(val, 1)
    ensures PowerOfTwo(ret) && val <= ret
    ensures forall q: nat :: PowerOfTwo(q) && val <= q ==> ret <= q
  {
    ret := 1;
    while val > ret
      invariant ret > 0 && DoubledTo(val, ret) == DoubledTo(val, 1)
      decreases val - ret
    {
      ret := ret * 2;
    }
    LeastPower(val, 1);
  }

  /** The power that doubling ends with is the least that is large enough. */
  lemma {:induction false} LeastPower(val: nat, p: nat)
    requires PowerOfTwo(p) && (p == 1 || p / 2 < val)
    ensures PowerOfTwo(DoubledTo(val, p)) && val <= DoubledTo(val, p)
    ensures forall q: nat :: PowerOfTwo(q) && val <= q ==> DoubledTo(val, p) <= q
    decreases val - p
  {
    if val > p {
      assert 2 * p / 2 == p;
      LeastPower(val, 2 * p);
    } else {
      forall q: nat | PowerOfTwo(q) && val <= q ensures p <= q {
        if q < p {
          NextSmallerPower(q, p);
        }
      }
    }
  }

  // ----- The stages as functions -----

  /** A sweep with blocks of length `d` from position `pos` on. `prevDel` tells that the block
      before was deleted, or that there is none. */
  function SweepFrom(accept: Data -> bool, x: Data, pos: nat, d: nat, prevDel: bool): Data
    requires d > 0 && (!prevDel ==> pos >= d)
    decreases |x| - pos, |x|
  {
    if pos >= |x| then x
    else if !prevDel && pos + d < |x| && x[pos - d..pos] == x[pos..pos + d] then SweepFrom(accept, x, pos + d, d, false)
    else if accept(Without(x, pos, d)) then SweepFrom(accept, Without(x, pos, d), pos, d, true)
    else SweepFrom(accept, x, pos + d, d, false)
  }

  function DeletedFrom(accept: Data -> bool, x: Data, d: nat): Data
    requires d > 0
    decreases d
  {
    var y := SweepFrom(accept, x, 0, d, true);
    if d > 1 && y != [] then DeletedFrom(accept, y, d / 2) else y
  }

  function Deleted(accept: Data -> bool, x: Data): Data {
    DoubledPositive(|x| / TRIM_START_STEPS, 1);
    DeletedFrom(accept, x, DoubledTo(|x| / TRIM_START_STEPS, 1))
  }

  lemma {:induction false} DoubledPositive(val: nat, p: nat)
    requires p > 0
    ensures DoubledTo(val, p) > 0
    decreases val - p
  {
    if p < val {
      DoubledPositive(val, 2 * p);
    }
  }

  /** The new data if the target accepts them. */
  function KeepIf(accept: Data -> bool, y: Data, x: Data): Data {
    if accept(y) then y else x
  }

  /** The block of `n` bytes at `pos` set to '0'. */
  function ZeroBlock(x: Data, pos: nat, n: nat): Data {
    seq(|x|, i requires 0 <= i < |x| => if pos <= i < pos + n then ZERO else x[i])
  }

  function NormalizedFrom(accept: Data -> bool, x: Data, pos: nat, n: nat): Data
    requires n > 0
    decreases |x| - pos
  {
    if pos >= |x| then x
    else NormalizedFrom(accept, KeepIf(accept, ZeroBlock(x, pos, n), x), pos + n, n)
  }

  function Normalized(accept: Data -> bool, x: Data): Data {
    var n := DoubledTo(|x| / TMIN_SET_STEPS, 1);
    NormalizedFrom(accept, x, 0, if n < TMIN_SET_MIN_SIZE then TMIN_SET_MIN_SIZE else n)
  }

  function SymbolsFrom(accept: Data -> bool, x: Data, c: nat): Data
    decreases 256 - c
  {
    if c >= 256 then x
    else SymbolsFrom(accept, if c != ZERO && c in x then KeepIf(accept, Replaced(x, c), x) else x, c + 1)
  }

  function CharactersFrom(accept: Data -> bool, x: Data, i: nat): Data
    decreases |x| - i
  {
    if i >= |x| then x
    else CharactersFrom(accept, if x[i] != ZERO then KeepIf(accept, x[i := ZERO], x) else x, i + 1)
  }

  /** The last two stages of a pass. */
  function Simplified(accept: Data -> bool, x: Data): Data {
    CharactersFrom(accept, SymbolsFrom(accept, x, 0), 0)
  }

  /** Passes until one deletes nothing, or the first one changes nothing. */
  function Passes(accept: Data -> bool, x: Data, first: bool): Data
    decreases |x|, NonZero(x)
  {
    var y := Deleted(accept, x);
    if !first && y == x then y
    else
      var z := Simplified(accept, y);
      PassShrinks(accept, x);
      if z == x then z else Passes(accept, z, false)
  }

  function Minimized(accept: Data -> bool, x: Data): Data {
    Passes(accept, Normalized(accept, x), true)
  }

  lemma {:induction false} SweepShrinks(accept: Data -> bool, x: Data, pos: nat, d: nat, prevDel: bool)
    requires d > 0 && (!prevDel ==> pos >= d)
    ensures var y := SweepFrom(accept, x, pos, d, prevDel); y == x || |y| < |x|
    decreases |x| - pos, |x|
  {
    if pos < |x| {
      if !prevDel && pos + d < |x| && x[pos - d..pos] == x[pos..pos + d] {
        SweepShrinks(accept, x, pos + d, d, false);
      } else if accept(Without(x, pos, d)) {
        SweepShrinks(accept, Without(x, pos, d), pos, d, true);
      } else {
        SweepShrinks(accept, x, pos + d, d, false);
      }
    }
  }

  lemma {:induction false} DeletedShrinks(accept: Data -> bool, x: Data, d: nat)
    requires d > 0
    ensures var y := DeletedFrom(accept, x, d); y == x || |y| < |x|
    decreases d
  {
    SweepShrinks(accept, x, 0, d, true);
    var y := SweepFrom(accept, x, 0, d, true);
    if d > 1 && y != [] {
      DeletedShrinks(accept, y, d / 2);
    }
  }

  lemma {:induction false} SymbolsZero(accept: Data -> bool, x: Data, c: nat)
    ensures Zeroed(x, SymbolsFrom(accept, x, c))
    decreases 256 - c
  {
    if c < 256 {
      SymbolsZero(accept, if c != ZERO && c in x then KeepIf(accept, Replaced(x, c), x) else x, c + 1);
    }
  }

  lemma {:induction false} CharactersZero(accept: Data -> bool, x: Data, i: nat)
    ensures Zeroed(x, CharactersFrom(accept, x, i))
    ensures forall k :: 0 <= k < i && k < |x| ==> CharactersFrom(accept, x, i)[k] == x[k]
    decreases |x| - i
  {
    if i < |x| {
      CharactersZero(accept, if x[i] != ZERO then KeepIf(accept, x[i := ZERO], x) else x, i + 1);
    }
  }

  lemma {:induction false} NormalizedKeeps(accept: Data -> bool, x: Data, pos: nat, n: nat)
    requires accept(x) && n > 0
    ensures var r := NormalizedFrom(accept, x, pos, n); accept(r) && Zeroed(x, r)
    decreases |x| - pos
  {
    if pos < |x| {
      NormalizedKeeps(accept, KeepIf(accept, ZeroBlock(x, pos, n), x), pos + n, n);
    }
  }

  /** The symbol stage keeps the data accepted, and what it leaves alone cannot be replaced. */
  lemma {:induction false} SymbolsKeep(accept: Data -> bool, x: Data, c: nat)
    requires accept(x)
    ensures var r := SymbolsFrom(accept, x, c);
            accept(r) && Zeroed(x, r) && (r == x ==> SymbolsNeededFrom(accept, x, c))
    decreases 256 - c
  {
    if c < 256 {
      var y := if c != ZERO && c in x then KeepIf(accept, Replaced(x, c), x) else x;
      SymbolsKeep(accept, y, c + 1);
      SymbolTried(accept, x, c, y);
      if y != x {
        ZeroedBack(x, y, SymbolsFrom(accept, y, c + 1));
      }
    }
  }

  lemma SymbolTried(accept: Data -> bool, x: Data, c: Byte, y: Data)
    requires accept(x) && y == if c != ZERO && c in x then KeepIf(accept, Replaced(x, c), x) else x
    ensures accept(y) && Zeroed(x, y)
    ensures y == x && SymbolsNeededFrom(accept, x, c + 1) ==> SymbolsNeededFrom(accept, x, c)
  {
    if c != ZERO && c in x {
      ReplacingKeepsOthers(x, c);
    }
  }

  lemma ZeroedBack(x: Data, y: Data, z: Data)
    requires Zeroed(x, y) && Zeroed(y, z) && y != x
    ensures Zeroed(x, z) && z != x
  {
    NonZeroDrops(x, y);
    NonZeroDrops(y, z);
  }

  lemma {:induction false} CharactersKeep(accept: Data -> bool, x: Data, i: nat)
    requires accept(x)
    ensures var r := CharactersFrom(accept, x, i);
            accept(r) && Zeroed(x, r) && (r == x ==> forall k :: i <= k < |x| && x[k] != ZERO ==> !accept(x[k := ZERO]))
    decreases |x| - i
  {
    if i < |x| {
      var y := if x[i] != ZERO then KeepIf(accept, x[i := ZERO], x) else x;
      CharactersKeep(accept, y, i + 1);
      if y != x {
        NonZeroDrops(x, y);
        NonZeroDrops(y, CharactersFrom(accept, y, i + 1));
      }
    }
  }

  /** The measure of a pass: the length, and then the bytes that are not '0' yet. */
  lemma PassShrinks(accept: Data -> bool, x: Data)
    ensures var z := Simplified(accept, Deleted(accept, x)); z == x || |z| < |x| || (|z| == |x| && NonZero(z) < NonZero(x))
  {
    var y := Deleted(accept, x);
    DoubledPositive(|x| / TRIM_START_STEPS, 1);
    DeletedShrinks(accept, x, DoubledTo(|x| / TRIM_START_STEPS, 1));
    var w := SymbolsFrom(accept, y, 0);
    SymbolsZero(accept, y, 0);
    CharactersZero(accept, w, 0);
    NonZeroDrops(y, w);
    NonZeroDrops(w, CharactersFrom(accept, w, 0));
  }

  // ----- Block deletion -----

  /** Builds in `tmp` the data without one block. */
  method CopyWithout(inData: array<Byte>, tmp: array<Byte>, len: nat, p: nat, d: nat) returns (n: nat)
    requires inData != tmp && len <= inData.Length && len <= tmp.Length && p < len && d > 0
    modifies tmp
    ensures n < len && tmp[..n] == Without(inData[..len], p, d)
  {
    var tailLen := if len - p - d > 0 then len - p - d else 0;
    Memcpy(tmp, 0, inData, 0, p);
    ghost var head := tmp[..];
    assert head[..p] == inData[..len][..p];
    n := p + tailLen;
    if tailLen > 0 {
      Memcpy(tmp, p, inData, p + d, tailLen);
      assert inData[p + d..p + d + tailLen] == inData[..len][p + d..];
      assert tmp[..n] == tmp[..][..n] == head[..p] + inData[..len][p + d..];
    }
  }

  /** Deletes one block if the target accepts the data without it. */
  method TryWithout(inData: array<Byte>, tmp: array<Byte>, len: nat, p: nat, d: nat, accept: Data -> bool) returns (n: nat)
    requires inData != tmp && len <= inData.Length && len <= tmp.Length && p < len && d > 0
    modifies inData, tmp
    ensures n <= len && (n < len <==> accept(Without(old(inData[..len]), p, d)))
    ensures inData[..n] == if n < len then Without(old(inData[..len]), p, d) else old(inData[..len])
  {
    n := CopyWithout(inData, tmp, len, p, d);
    if accept(tmp[..n]) {
      Memcpy(inData, 0, tmp, 0, n);
      assert inData[..n] == tmp[..n];
    } else {
      n := len;
    }
  }

  /** The block at `pos` is skipped: it equals the one before it, which was tried and kept. */
  predicate Skips(x: Data, pos: nat, d: nat, prevDel: bool)
    requires !prevDel ==> pos >= d
  {
    !prevDel && pos + d < |x| && x[pos - d..pos] == x[pos..pos + d]
  }

  /** What holds during a sweep over `x0` that will end in `end`. */
  ghost predicate Sweeping(accept: Data -> bool, orig: Data, x0: Data, x: Data, pos: nat, d: nat, prevDel: bool, end: Data) {
    && d > 0 && (!prevDel ==> pos >= d) && SweepFrom(accept, x, pos, d, prevDel) == end
    && accept(x) && Reduces(orig, x) && AtBlock(pos, d)
    && (x != x0 ==> |x| < |x0|)
    && (x == x0 ==> RejectedBelow(accept, x, pos, d))
    && (!prevDel ==> pos - d <= |x| && !accept(Without(x, pos - d, d)))
  }

  lemma SweepSkips(accept: Data -> bool, orig: Data, x0: Data, x: Data, pos: nat, d: nat, prevDel: bool, end: Data)
    requires Sweeping(accept, orig, x0, x, pos, d, prevDel, end) && Skips(x, pos, d, prevDel)
    ensures Sweeping(accept, orig, x0, x, pos + d, d, false, end)
  {
    SameBlockSameDeletion(x, pos, d);
  }

  lemma SweepMisses(accept: Data -> bool, orig: Data, x0: Data, x: Data, pos: nat, d: nat, prevDel: bool, end: Data)
    requires Sweeping(accept, orig, x0, x, pos, d, prevDel, end) && !Skips(x, pos, d, prevDel)
    requires pos < |x| && !accept(Without(x, pos, d))
    ensures Sweeping(accept, orig, x0, x, pos + d, d, false, end)
  {
  }

  lemma SweepHits(accept: Data -> bool, orig: Data, x0: Data, x: Data, pos: nat, d: nat, prevDel: bool, end: Data)
    requires Sweeping(accept, orig, x0, x, pos, d, prevDel, end) && !Skips(x, pos, d, prevDel)
    requires pos < |x| && accept(Without(x, pos, d))
    ensures Sweeping(accept, orig, x0, Without(x, pos, d), pos, d, true, end)
  {
    ReducesByDeleting(orig, x, pos, d);
  }

  lemma SweepEnds(accept: Data -> bool, orig: Data, x0: Data, x: Data, pos: nat, d: nat, prevDel: bool, end: Data)
    requires Sweeping(accept, orig, x0, x, pos, d, prevDel, end) && pos >= |x|
    ensures x == end && accept(x) && Reduces(orig, x) && |x| <= |x0|
    ensures x == x0 || |x| < |x0|
    ensures x == x0 ==> BlockMinimal(accept, x, d)
  {
    if x == x0 {
      RejectedToTheEnd(accept, x, BlocksBefore(pos, d), d);
    }
  }

  method SameAsBefore(inData: array<Byte>, len: nat, pos: nat, d: nat, prevDel: bool) returns (same: bool)
    requires len <= inData.Length && (!prevDel ==> pos >= d)
    ensures same <==> Skips(inData[..len], pos, d, prevDel)
  {
    same := false;
    if !prevDel && pos + d < len {
      ghost var x := inData[..len];
      same := SameBytes(inData, pos - d, pos, d);
      assert x[pos - d..pos] == inData[pos - d..pos] && x[pos..pos + d] == inData[pos..pos + d];
    }
  }

  /** One turn of a sweep: skips a block equal to the one before it when that one was tried and
      kept, or else tries to delete it. */
  method SweepStep(inData: array<Byte>, tmp: array<Byte>, len: nat, pos: nat, d: nat, prevDel: bool, accept: Data -> bool,
                   ghost orig: Data, ghost x0: Data, ghost end: Data)
    returns (n: nat, next: nat, deleted: bool)
    requires inData != tmp && pos < len <= inData.Length && len <= tmp.Length
    requires Sweeping(accept, orig, x0, inData[..len], pos, d, prevDel, end)
    modifies inData, tmp
    ensures n <= len && (deleted <==> n < len) && (n - next < len - pos || (n - next == len - pos && n < len))
    ensures Sweeping(accept, orig, x0, inData[..n], next, d, deleted, end)
  {
    ghost var x := inData[..len];
    var same := SameAsBefore(inData, len, pos, d, prevDel);
    if same {
      SweepSkips(accept, orig, x0, x, pos, d, prevDel, end);
      return len, pos + d, false;
    }
    n := TryWithout(inData, tmp, len, pos, d, accept);
    if n < len {
      SweepHits(accept, orig, x0, x, pos, d, prevDel, end);
      next, deleted := pos, true;
    } else {
      SweepMisses(accept, orig, x0, x, pos, d, prevDel, end);
      next, deleted := pos + d, false;
    }
  }

  method DeleteBlocks(inData: array<Byte>, tmp: array<Byte>, len0: nat, d: nat, accept: Data -> bool, ghost orig: Data)
    returns (len: nat, changed: bool)
    requires inData != tmp && len0 <= inData.Length && len0 <= tmp.Length && d > 0
    requires accept(inData[..len0]) && Reduces(orig, inData[..len0])
    modifies inData, tmp
    ensures len <= len0 && accept(inData[..len]) && Reduces(orig, inData[..len])
    ensures changed <==> len < len0
    ensures !changed ==> inData[..len] == old(inData[..len0]) && BlockMinimal(accept, inData[..len], d)
    ensures inData[..len] == SweepFrom(accept, old(inData[..len0]), 0, d, true)
  {
    len, changed := len0, false;
    var delPos: nat := 0;
    var prevDel := true;
    ghost var x0, end := inData[..len0], SweepFrom(accept, inData[..len0], 0, d, true);
    while delPos < len
      invariant len <= len0 && (changed <==> len < len0)
      invariant Sweeping(accept, orig, x0, inData[..len], delPos, d, prevDel, end)
      decreases len - delPos, len
    {
      len, delPos, prevDel := SweepStep(inData, tmp, len, delPos, d, prevDel, accept, orig, x0, end);
      changed := changed || prevDel;
    }
    SweepEnds(accept, orig, x0, inData[..len], delPos, d, prevDel, end);
  }

  /** Sweeps with shorter and shorter blocks, down to single bytes. */
  method DeleteStage(inData: array<Byte>, tmp: array<Byte>, len0: nat, accept: Data -> bool, ghost orig: Data)
    returns (len: nat, changed: bool, ghost start: nat)
    requires inData != tmp && len0 <= inData.Length && len0 <= tmp.Length
    requires accept(inData[..len0]) && Reduces(orig, inData[..len0])
    modifies inData, tmp
    ensures len <= len0 && accept(inData[..len]) && Reduces(orig, inData[..len])
    ensures changed <==> len < len0
    ensures PowerOfTwo(start) && len0 / TRIM_START_STEPS <= start
    ensures !changed ==> inData[..len] == old(inData[..len0])
    ensures !changed ==> forall d: nat :: PowerOfTwo(d) && d <= start ==> BlockMinimal(accept, inData[..len], d)
    ensures inData[..len] == Deleted(accept, old(inData[..len0]))
  {
    var delLen: nat := NextP2(len0 / TRIM_START_STEPS);
    start := delLen;
    len, changed := len0, false;
    ghost var end := Deleted(accept, inData[..len0]);
    var more := true;
    while more
      invariant delLen > 0 && PowerOfTwo(delLen) && delLen <= start
      invariant len <= len0 && accept(inData[..len]) && Reduces(orig, inData[..len])
      invariant changed <==> len < len0
      invariant !changed ==> inData[..len] == old(inData[..len0])
      invariant !changed ==> forall d: nat :: PowerOfTwo(d) && delLen < d <= start ==> BlockMinimal(accept, inData[..len], d)
      invariant if more then DeletedFrom(accept, inData[..len], delLen) == end else inData[..len] == end
      invariant !more && !changed ==> delLen == 1 && BlockMinimal(accept, inData[..len], 1)
      decreases delLen, more
    {
      var c;
      len, c := DeleteBlocks(inData, tmp, len, delLen, accept, orig);
      changed := changed || c;
      if delLen > 1 && len >= 1 {
        forall d: nat | PowerOfTwo(d) && delLen / 2 < d <= start
          ensures d == delLen || delLen < d
        {
          if d < delLen { NextSmallerPower(d, delLen); }
        }
        delLen := delLen / 2;
      } else {
        more := false;
      }
    }
  }

  // ----- Normalizing bytes -----

  /** `y` is `x` with some bytes set to '0'. */
  ghost predicate Zeroed(x: Data, y: Data) {
    |y| == |x| && forall i :: 0 <= i < |x| ==> y[i] == x[i] || y[i] == ZERO
  }

  method CopyAll(inData: array<Byte>, tmp: array<Byte>, len: nat)
    requires inData != tmp && len <= inData.Length && len <= tmp.Length
    modifies tmp
    ensures tmp[..len] == inData[..len]
  {
    Memcpy(tmp, 0, inData, 0, len);
    assert tmp[..len] == tmp[..][..len] == inData[0..len];
  }

  method AllZero(a: array<Byte>, p: nat, n: nat) returns (all: bool)
    requires p + n <= a.Length
    ensures all <==> forall i :: p <= i < p + n ==> a[i] == ZERO
  {
    for i := 0 to n
      invariant forall j :: p <= j < p + i ==> a[j] == ZERO
    {
      if a[p + i] != ZERO {
        return false;
      }
    }
    return true;
  }

  /** Sets a block to '0' if the target accepts the data with it. */
  method TryZeroBlock(inData: array<Byte>, tmp: array<Byte>, len: nat, pos: nat, n: nat, accept: Data -> bool)
    requires inData != tmp && len <= inData.Length && len <= tmp.Length && pos + n <= len
    modifies inData, tmp
    ensures inData[..len] == KeepIf(accept, ZeroBlock(old(inData[..len]), pos, n), old(inData[..len]))
  {
    ghost var x := inData[..len];
    var all := AllZero(inData, pos, n);
    if all {
      assert ZeroBlock(x, pos, n) == x;
      return;
    }
    CopyAll(inData, tmp, len);
    assert forall i :: 0 <= i < len ==> tmp[i] == tmp[..len][i] == x[i];
    Memset(tmp, pos, ZERO, n);
    assert tmp[..len] == ZeroBlock(x, pos, n);
    if accept(tmp[..len]) {
      Memset(inData, pos, ZERO, n);
      assert forall i :: 0 <= i < len && !(pos <= i < pos + n) ==> inData[i] == x[i];
      assert inData[..len] == ZeroBlock(x, pos, n);
    }
  }

  /** The rest of the normalization ends in `end`. */
  ghost predicate NormalizesTo(accept: Data -> bool, x: Data, pos: nat, n: nat, end: Data) {
    n > 0 && NormalizedFrom(accept, x, pos, n) == end
  }

  lemma NormalizeOn(accept: Data -> bool, x: Data, pos: nat, n: nat, used: nat, end: Data)
    requires NormalizesTo(accept, x, pos, n, end) && pos < |x| && used == if n < |x| - pos then n else |x| - pos
    ensures NormalizesTo(accept, KeepIf(accept, ZeroBlock(x, pos, used), x), pos + n, n, end)
  {
    assert ZeroBlock(x, pos, used) == ZeroBlock(x, pos, n);
  }

  /** The one-time pass that tries to set whole blocks to '0'. */
  method NormalizeBlocks(inData: array<Byte>, tmp: array<Byte>, len: nat, accept: Data -> bool)
    requires inData != tmp && len <= inData.Length && len <= tmp.Length && accept(inData[..len])
    modifies inData, tmp
    ensures accept(inData[..len]) && Zeroed(old(inData[..len]), inData[..len])
    ensures inData[..len] == Normalized(accept, old(inData[..len]))
  {
    ghost var x0 := inData[..len];
    var setLen: nat := NextP2(len / TMIN_SET_STEPS);
    if setLen < TMIN_SET_MIN_SIZE {
      setLen := TMIN_SET_MIN_SIZE;
    }
    var setPos: nat := 0;
    ghost var end := NormalizedFrom(accept, x0, 0, setLen);
    assert end == Normalized(accept, x0);
    while setPos < len
      invariant NormalizesTo(accept, inData[..len], setPos, setLen, end)
      decreases len - setPos
    {
      var useLen := if setLen < len - setPos then setLen else len - setPos;
      NormalizeOn(accept, inData[..len], setPos, setLen, useLen, end);
      TryZeroBlock(inData, tmp, len, setPos, useLen, accept);
      setPos := setPos + setLen;
    }
    NormalizedKeeps(accept, x0, 0, setLen);
  }

  /** Every occurrence of one byte value set to '0'. */
  function Replaced(x: Data, c: Byte): Data {
    seq(|x|, i requires 0 <= i < |x| => if x[i] == c then ZERO else x[i])
  }

  method CopyReplaced(inData: array<Byte>, tmp: array<Byte>, len: nat, c: Byte)
    requires inData != tmp && len <= inData.Length && len <= tmp.Length
    modifies tmp
    ensures tmp[..len] == Replaced(inData[..len], c)
  {
    CopyAll(inData, tmp, len);
    for r := 0 to len
      invariant forall i :: 0 <= i < len ==> tmp[i] == if i < r && inData[..len][i] == c then ZERO else inData[..len][i]
    {
      if tmp[r] == c {
        tmp[r] := ZERO;
      }
    }
  }

  method CountBytes(inData: array<Byte>, len: nat) returns (alphaMap: array<nat>)
    requires len <= inData.Length
    ensures alphaMap.Length == 256 && fresh(alphaMap)
    ensures forall c: Byte :: alphaMap[c] > 0 <==> c in inData[..len]
  {
    alphaMap := new nat[256](_ => 0);
    for i := 0 to len
      invariant forall c: Byte :: alphaMap[c] > 0 <==> c in inData[..i]
    {
      assert inData[..i + 1] == inData[..i] + [inData[i]];
      alphaMap[inData[i]] := alphaMap[inData[i]] + 1;
    }
  }

  /** None of the symbols below `n` can be replaced by '0' throughout. */
  ghost predicate SymbolsNeeded(accept: Data -> bool, x: Data, n: nat) {
    forall c: Byte :: c < n && c in x && c != ZERO ==> !accept(Replaced(x, c))
  }

  ghost predicate SymbolsNeededFrom(accept: Data -> bool, x: Data, n: nat) {
    forall c: Byte :: c >= n && c in x && c != ZERO ==> !accept(Replaced(x, c))
  }

  /** None of the first `n` characters can be replaced by '0'. */
  ghost predicate CharactersNeeded(accept: Data -> bool, x: Data, n: nat) {
    n <= |x| && forall i :: 0 <= i < n && x[i] != ZERO ==> !accept(x[i := ZERO])
  }

  /** Sets a symbol to '0' throughout if the target accepts the data with it. */
  method TrySymbol(inData: array<Byte>, tmp: array<Byte>, len: nat, c: Byte, accept: Data -> bool) returns (ok: bool)
    requires inData != tmp && len <= inData.Length && len <= tmp.Length
    modifies inData, tmp
    ensures ok == accept(Replaced(old(inData[..len]), c))
    ensures inData[..len] == KeepIf(accept, Replaced(old(inData[..len]), c), old(inData[..len]))
  {
    CopyReplaced(inData, tmp, len, c);
    ok := accept(tmp[..len]);
    if ok {
      CopyAll(tmp, inData, len);
    }
  }

  /** One turn of the symbol stage; `count` is how often the symbol was there at the start. */
  method SymbolTurn(inData: array<Byte>, tmp: array<Byte>, len: nat, c: Byte, count: nat, accept: Data -> bool, changed0: bool,
                    ghost x0: Data, ghost end: Data)
    returns (changed: bool)
    requires inData != tmp && len <= inData.Length && len <= tmp.Length
    requires Replacing(accept, x0, inData[..len], c, changed0, end) && (c in x0 <==> count > 0)
    modifies inData, tmp
    ensures Replacing(accept, x0, inData[..len], c + 1, changed, end)
  {
    changed := changed0;
    if c == ZERO || count == 0 {
      SymbolSkipped(accept, x0, inData[..len], c, changed, end);
      return;
    }
    SymbolGone(accept, x0, inData[..len], c, changed, end);
    var ok := TrySymbol(inData, tmp, len, c, accept);
    changed := changed || ok;
  }

  /** Tries to set each byte value to '0' everywhere. Replacing a symbol adds no other symbol
      but '0', so that the counts taken at the start tell which symbols there are. */
  method AlphabetStage(inData: array<Byte>, tmp: array<Byte>, len: nat, accept: Data -> bool) returns (changed: bool)
    requires inData != tmp && len <= inData.Length && len <= tmp.Length && accept(inData[..len])
    modifies inData, tmp
    ensures accept(inData[..len]) && Zeroed(old(inData[..len]), inData[..len])
    ensures changed <==> inData[..len] != old(inData[..len])
    ensures !changed ==> SymbolsNeeded(accept, inData[..len], 256)
    ensures inData[..len] == SymbolsFrom(accept, old(inData[..len]), 0)
  {
    ghost var x0 := inData[..len];
    var alphaMap := CountBytes(inData, len);
    changed := false;
    ghost var end := SymbolsFrom(accept, x0, 0);
    for i := 0 to 256
      invariant forall c: Byte :: c in x0 <==> alphaMap[c] > 0
      invariant Replacing(accept, x0, inData[..len], i, changed, end)
    {
      changed := SymbolTurn(inData, tmp, len, i, alphaMap[i], accept, changed, x0, end);
    }
    SymbolsKeep(accept, x0, 0);
  }

  /** Some symbols below `n` have become '0' and no other byte has changed. */
  ghost predicate Untouched(x0: Data, x: Data, n: nat) {
    Zeroed(x0, x) && forall c: Byte :: c >= n && c != ZERO ==> (c in x <==> c in x0)
  }

  /** What holds before symbol `n` is tried, in a stage over `x0` that will end in `end`. */
  ghost predicate Replacing(accept: Data -> bool, x0: Data, x: Data, n: nat, changed: bool, end: Data) {
    Untouched(x0, x, n) && (changed <==> x != x0) && SymbolsFrom(accept, x, n) == end
  }

  lemma SymbolSkipped(accept: Data -> bool, x0: Data, x: Data, c: Byte, changed: bool, end: Data)
    requires Replacing(accept, x0, x, c, changed, end) && (c == ZERO || c !in x0)
    ensures Replacing(accept, x0, x, c + 1, changed, end)
  {
  }

  lemma SymbolGone(accept: Data -> bool, x0: Data, x: Data, c: Byte, changed: bool, end: Data)
    requires Replacing(accept, x0, x, c, changed, end) && c != ZERO && c in x0
    ensures Replacing(accept, x0, KeepIf(accept, Replaced(x, c), x), c + 1, changed || accept(Replaced(x, c)), end)
  {
    ReplacingKeepsUntouched(x0, x, c);
  }

  lemma ReplacingKeepsUntouched(x0: Data, x: Data, c: Byte)
    requires Untouched(x0, x, c) && c in x0 && c != ZERO
    ensures c in x && Untouched(x0, Replaced(x, c), c + 1) && Untouched(x0, x, c + 1) && Replaced(x, c) != x0
  {
    ReplacingKeepsOthers(x, c);
    ZeroedStays(x0, x, Replaced(x, c));
  }

  lemma ReplacingKeepsOthers(x: Data, c: Byte)
    requires c in x && c != ZERO
    ensures Replaced(x, c) != x && Zeroed(x, Replaced(x, c))
    ensures forall b: Byte :: b != c && b != ZERO ==> (b in Replaced(x, c) <==> b in x)
  {
    var y := Replaced(x, c);
    var k :| 0 <= k < |x| && x[k] == c;
    assert y[k] == ZERO;
    forall b: Byte | b != c && b != ZERO
      ensures b in y <==> b in x
    {
      if b in x {
        var j :| 0 <= j < |x| && x[j] == b;
        assert y[j] == b;
      }
    }
  }

  /** Zeroing more bytes never leads back to the start. */
  lemma ZeroedStays(x: Data, y: Data, z: Data)
    requires Zeroed(x, y) && Zeroed(y, z)
    ensures Zeroed(x, z)
    ensures z != y ==> z != x
  {
    NonZeroDrops(x, y);
    NonZeroDrops(y, z);
  }

  /** Tries to set each single byte to '0'. */
  method CharacterStage(inData: array<Byte>, tmp: array<Byte>, len: nat, accept: Data -> bool) returns (changed: bool)
    requires inData != tmp && len <= inData.Length && len <= tmp.Length && accept(inData[..len])
    modifies inData, tmp
    ensures accept(inData[..len]) && Zeroed(old(inData[..len]), inData[..len])
    ensures changed <==> inData[..len] != old(inData[..len])
    ensures !changed ==> CharactersNeeded(accept, inData[..len], len)
    ensures inData[..len] == CharactersFrom(accept, old(inData[..len]), 0)
  {
    ghost var x0 := inData[..len];
    CopyAll(inData, tmp, len);
    changed := false;
    for i := 0 to len
      invariant tmp[..len] == inData[..len] && Zeroed(x0, inData[..len])
      invariant changed <==> inData[..len] != x0
      invariant CharactersFrom(accept, inData[..len], i) == CharactersFrom(accept, x0, 0)
    {
      var orig := tmp[i];
      if orig == ZERO {
        continue;
      }
      ghost var x := inData[..len];
      assert orig == x[i];
      tmp[i] := ZERO;
      assert tmp[..len] == x[i := ZERO];
      if accept(tmp[..len]) {
        inData[i] := ZERO;
        assert inData[..len] == x[i := ZERO];
        ZeroedStays(x0, x, inData[..len]);
        changed := true;
      } else {
        tmp[i] := orig;
        assert tmp[..len] == x;
      }
    }
    CharactersKeep(accept, x0, 0);
  }

  // ----- Characters that cannot be simplified -----

  /** A zeroing that is rejected stays rejected after more bytes are set to '0'. */
  ghost predicate Persistent(accept: Data -> bool) {
    forall x, y, i :: Zeroed(x, y) && RejectsZero(accept, x, i) ==> RejectsZero(accept, y, i)
  }

  ghost predicate RejectsZero(accept: Data -> bool, x: Data, i: nat) {
    i < |x| && !accept(x[i := ZERO])
  }

  lemma {:induction false} CharactersStay(accept: Data -> bool, x: Data, i: nat, k: nat)
    requires Persistent(accept) && i <= k < |x|
    ensures var r := CharactersFrom(accept, x, i); |r| == |x| && (r[k] != ZERO ==> !accept(r[k := ZERO]))
    decreases |x| - i
  {
    var y := if x[i] != ZERO then KeepIf(accept, x[i := ZERO], x) else x;
    CharactersZero(accept, x, i);
    CharactersZero(accept, y, i + 1);
    if k > i {
      CharactersStay(accept, y, i + 1, k);
    } else if x[i] != ZERO && !accept(x[i := ZERO]) {
      assert RejectsZero(accept, x, i);
      assert RejectsZero(accept, CharactersFrom(accept, x, i), i);
    }
  }

  /** For a target of that kind no single character of the result can be set to '0'. */
  lemma {:induction false} MinimizedCharacters(accept: Data -> bool, x: Data, first: bool)
    requires Persistent(accept) && (!first ==> CharactersNeeded(accept, x, |x|))
    ensures var r := Passes(accept, x, first); CharactersNeeded(accept, r, |r|)
    decreases |x|, NonZero(x)
  {
    var y := Deleted(accept, x);
    if first || y != x {
      var w := SymbolsFrom(accept, y, 0);
      var z := CharactersFrom(accept, w, 0);
      forall k | 0 <= k < |z| && z[k] != ZERO ensures !accept(z[k := ZERO]) {
        CharactersZero(accept, w, 0);
        CharactersStay(accept, w, 0, k);
      }
      PassShrinks(accept, x);
      if z != x {
        MinimizedCharacters(accept, z, false);
      }
    }
  }

  /** A target that accepts data of one length only loses nothing to deletion. */
  lemma {:induction false} NothingDeleted(accept: Data -> bool, x: Data, d: nat)
    requires d > 0 && forall y :: accept(y) ==> |y| == |x|
    ensures DeletedFrom(accept, x, d) == x
    decreases d
  {
    NothingSwept(accept, x, 0, d, true);
    if d > 1 && x != [] {
      NothingDeleted(accept, x, d / 2);
    }
  }

  lemma {:induction false} NothingSwept(accept: Data -> bool, x: Data, pos: nat, d: nat, prevDel: bool)
    requires d > 0 && (!prevDel ==> pos >= d) && forall y :: accept(y) ==> |y| == |x|
    ensures SweepFrom(accept, x, pos, d, prevDel) == x
    decreases |x| - pos
  {
    if pos < |x| {
      assert |Without(x, pos, d)| < |x|;
      NothingSwept(accept, x, pos + d, d, false);
    }
  }

  lemma {:induction false} NoSymbolReplaced(accept: Data -> bool, x: Data, c: nat)
    requires SymbolsNeeded(accept, x, 256)
    ensures SymbolsFrom(accept, x, c) == x
    decreases 256 - c
  {
    if c < 256 {
      NoSymbolReplaced(accept, x, c + 1);
    }
  }

  lemma {:induction false} CharactersKeptUpTo(accept: Data -> bool, x: Data, i: nat, k: nat)
    requires i <= k && CharactersNeeded(accept, x, k)
    ensures CharactersFrom(accept, x, i) == CharactersFrom(accept, x, k)
    decreases k - i
  {
    if i < k {
      CharactersKeptUpTo(accept, x, i + 1, k);
    }
  }

  const A111BB: Data := [65, 49, 49, 49, 66, 66]
  const A111B0: Data := [65, 49, 49, 49, 66, 48]
  const Z111B0: Data := [48, 49, 49, 49, 66, 48]

  lemma WitnessSymbols(accept: Data -> bool)
    requires ThreeAccepted(accept)
    ensures SymbolsNeeded(accept, A111BB, 256) && CharactersNeeded(accept, A111BB, 5)
  {
    var x := A111BB;
    forall c: Byte | c in x && c != ZERO ensures !accept(Replaced(x, c)) {
      var r := Replaced(x, c);
      assert c == 65 ==> r[0] == ZERO && r[5] == 66;
      assert c == 49 ==> r[1] == ZERO;
      assert c == 66 ==> r[4] == ZERO;
    }
    forall i | 0 <= i < 5 && x[i] != ZERO ensures !accept(x[i := ZERO]) {
      assert x[i := ZERO][5] == 66 && x[i := ZERO][i] != x[i];
    }
  }

  lemma WitnessNormalized(accept: Data -> bool, x: Data, n: nat)
    requires ThreeAccepted(accept) && x == A111BB && n == 4
    ensures Normalized(accept, x) == x
  {
    assert ZeroBlock(x, 0, n)[1] == ZERO && ZeroBlock(x, n, n)[4] == ZERO;
    assert NormalizedFrom(accept, x, n + n, n) == x;
    assert NormalizedFrom(accept, x, n, n) == x;
    assert NormalizedFrom(accept, x, 0, n) == x;
  }

  /** Not every target is of that kind. One that accepts exactly "A111BB", "A111B0" and "0111B0"
      has "A111BB" reduced to "A111B0", although "0111B0" is accepted too: 'A' was tried before
      the last 'B' went, and the pass after that deletes nothing and is the last. */
  lemma CharacterMissed(accept: Data -> bool, x: Data, y: Data)
    requires ThreeAccepted(accept) && x == A111BB && y == A111B0
    ensures Minimized(accept, x) == y && accept(y[0 := ZERO]) && !CharactersNeeded(accept, y, |y|)
  {
    WitnessZeroing(accept, y);
    WitnessNormalized(accept, x, 4);
    WitnessPasses(accept, x, y);
    MinimizedIs(accept, x, y);
  }

  ghost predicate ThreeAccepted(accept: Data -> bool) {
    forall y :: accept(y) <==> y == A111BB || y == A111B0 || y == Z111B0
  }

  lemma MinimizedIs(accept: Data -> bool, x: Data, y: Data)
    requires Normalized(accept, x) == x && Passes(accept, x, true) == y
    ensures Minimized(accept, x) == y
  {
  }

  lemma WitnessZeroing(accept: Data -> bool, y: Data)
    requires ThreeAccepted(accept) && y == A111B0
    ensures accept(y[0 := ZERO]) && !CharactersNeeded(accept, y, |y|)
  {
    var i := 0;
    assert y[i := ZERO] == Z111B0 && y[i] != ZERO;
  }

  lemma WitnessPasses(accept: Data -> bool, x: Data, y: Data)
    requires ThreeAccepted(accept) && x == A111BB && y == A111B0
    ensures Passes(accept, x, true) == y
  {
    DoubledPositive(|x| / TRIM_START_STEPS, 1);
    NothingDeleted(accept, x, DoubledTo(|x| / TRIM_START_STEPS, 1));
    NothingDeleted(accept, y, DoubledTo(|y| / TRIM_START_STEPS, 1));
    WitnessSimplified(accept, x, y);
    PassOn(accept, x, true, Passes(accept, x, true));
    PassOn(accept, y, false, Passes(accept, y, false));
  }

  lemma WitnessSimplified(accept: Data -> bool, x: Data, y: Data)
    requires ThreeAccepted(accept) && x == A111BB && y == A111B0
    ensures Simplified(accept, x) == y != x
  {
    WitnessSymbols(accept);
    NoSymbolReplaced(accept, x, 0);
    CharactersKeptUpTo(accept, x, 0, 5);
    assert x[5 := ZERO] == y;
    assert CharactersFrom(accept, y, 6) == y;
    assert CharactersFrom(accept, x, 5) == y;
  }

  // ----- The minimizer -----

  /** Runs passes until one of them deletes nothing (the first pass: changes nothing). The
      result is accepted, comes from the input by deleting bytes and setting bytes to '0', and
      no single byte of it can be deleted; nor can any aligned block, for the power-of-two
      block lengths from 1 up to `start`. */
  method Minimize(inData: array<Byte>, inLen: nat, accept: Data -> bool) returns (len: nat, ghost start: nat)
    requires inLen <= inData.Length && accept(inData[..inLen])
    modifies inData
    ensures len <= inLen && accept(inData[..len])
    ensures Reduces(old(inData[..inLen]), inData[..len])
    ensures OneMinimal(accept, inData[..len])
    ensures inData[..len] == Minimized(accept, old(inData[..inLen]))
    ensures Persistent(accept) ==> CharactersNeeded(accept, inData[..len], len)
    ensures len / TRIM_START_STEPS <= start
    ensures forall d: nat :: PowerOfTwo(d) && d <= start ==> BlockMinimal(accept, inData[..len], d)
  {
    ghost var orig := inData[..inLen];
    var tmp := new Byte[inLen];
    len, start := inLen, 0;
    NormalizeBlocks(inData, tmp, len, accept);
    ReducesSelf(orig);
    ReducesByZeroing(orig, orig, inData[..len]);
    var first, more := true, true;
    ghost var end := Minimized(accept, orig);
    while more
      invariant len <= inLen && tmp.Length == inLen && fresh(tmp) && accept(inData[..len]) && Reduces(orig, inData[..len])
      invariant more ==> PassesTo(accept, inData[..len], first, end)
      invariant !more ==> inData[..len] == end && len / TRIM_START_STEPS <= start && DeletesNothing(accept, inData[..len], start)
      decreases len, NonZero(inData[..len]), more
    {
      len, start, more := OnePass(inData, tmp, len, first, accept, orig, end);
      first := false;
    }
    assert PowerOfTwo(1);
    BlocksOfOne(accept, inData[..len]);
    if Persistent(accept) {
      MinimizedCharacters(accept, Normalized(accept, orig), true);
    }
  }

  /** No block of a power of two up to `start` can be deleted. */
  ghost predicate DeletesNothing(accept: Data -> bool, x: Data, start: nat) {
    start > 0 && forall d: nat :: PowerOfTwo(d) && d <= start ==> BlockMinimal(accept, x, d)
  }

  ghost predicate PassesTo(accept: Data -> bool, x: Data, first: bool, end: Data) {
    Passes(accept, x, first) == end
  }

  lemma PassOn(accept: Data -> bool, x: Data, first: bool, end: Data)
    requires PassesTo(accept, x, first, end)
    ensures var y := Deleted(accept, x);
            var z := Simplified(accept, y);
            if !first && y == x then y == end else if z == x then z == end else PassesTo(accept, z, false, end)
  {
  }

  /** One pass over the data. */
  method OnePass(inData: array<Byte>, tmp: array<Byte>, len0: nat, first: bool, accept: Data -> bool, ghost orig: Data, ghost end: Data)
    returns (len: nat, ghost start: nat, more: bool)
    requires inData != tmp && len0 <= inData.Length && len0 <= tmp.Length
    requires accept(inData[..len0]) && Reduces(orig, inData[..len0]) && PassesTo(accept, inData[..len0], first, end)
    modifies inData, tmp
    ensures len <= len0 && accept(inData[..len]) && Reduces(orig, inData[..len])
    ensures more ==> PassesTo(accept, inData[..len], false, end)
    ensures more ==> len < len0 || NonZero(inData[..len]) < NonZero(old(inData[..len0]))
    ensures !more ==> inData[..len] == end == old(inData[..len0]) && len / TRIM_START_STEPS <= start
    ensures !more ==> DeletesNothing(accept, inData[..len], start)
  {
    ghost var x := inData[..len0];
    PassOn(accept, x, first, end);
    var changed;
    len, changed, start := DeleteStage(inData, tmp, len0, accept, orig);
    if !first && !changed {
      more := false;
      return;
    }
    ghost var y := inData[..len];
    var changed2 := AlphabetStage(inData, tmp, len, accept);
    ghost var z := inData[..len];
    var changed3 := CharacterStage(inData, tmp, len, accept);
    ReducesByZeroing(orig, y, z);
    ReducesByZeroing(orig, z, inData[..len]);
    NonZeroDrops(y, z);
    NonZeroDrops(z, inData[..len]);
    more := changed || changed2 || changed3;
  }
}
