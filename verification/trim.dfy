/** Trimming a queue entry: blocks go while the trace stays the same. */
module Trim {
  import opened Bits
  import opened Buffers
  import opened Minimizer

  const TRIM_MIN_BYTES := 4
  const TRIM_END_STEPS := 1024

  /** One execution of the target: a request to stop or a failure to run, or a trace with its
      checksum. Executions are numbered, so that the same file may behave differently. */
  datatype Exec = Exec(gaveUp: bool, cksum: int)
  type Target = (nat, Data) -> Exec

  // ----- The file with a gap -----

  /** Writing at an offset of a file overwrites and extends it. */
  function WriteAt(file: Data, at: nat, data: Data): Data
    requires at <= |file|
  {
    file[..at] + data + (if at + |data| <= |file| then file[at + |data|..] else [])
  }

  /** The file that the target reads. `reused` tells that it is kept open and truncated, and
      not created again. */
  method WriteWithGap(file: Data, reused: bool, mem: Data, skipAt: nat, skipLen: nat) returns (r: Data)
    requires skipAt + skipLen <= |mem|
    ensures r == Without(mem, skipAt, skipLen)
  {
    r := if reused then file else [];
    var at := 0;
    if skipAt != 0 {
      r := WriteAt(r, 0, mem[..skipAt]);
      at := skipAt;
    }
    assert r[..at] == mem[..skipAt];
    ghost var head := r[..at];
    if |mem| - skipAt - skipLen != 0 {
      r := WriteAt(r, at, mem[skipAt + skipLen..]);
    }
    assert |mem| - skipLen <= |r|;
    if reused {
      r := r[..|mem| - skipLen];
    }
  }

  // ----- What trimming keeps -----

  /** `f` says which byte of `x` each byte of `y` was. */
  ghost predicate KeptBy(x: Data, y: Data, f: seq<nat>) {
    && |f| == |y|
    && (forall i :: 0 <= i < |f| ==> f[i] < |x| && y[i] == x[f[i]])
    && (forall i, j :: 0 <= i < j < |f| ==> f[i] < f[j])
  }

  /** `y` is `x` with bytes deleted. */
  ghost predicate Subsequence(x: Data, y: Data) {
    exists f :: KeptBy(x, y, f)
  }

  lemma SubsequenceSelf(x: Data)
    ensures Subsequence(x, x)
  {
    assert KeptBy(x, x, seq(|x|, i => i));
  }

  lemma SubsequenceByDeleting(x: Data, y: Data, p: nat, d: nat)
    requires Subsequence(x, y) && p + d <= |y|
    ensures Subsequence(x, Without(y, p, d))
  {
    var f :| KeptBy(x, y, f);
    assert KeptBy(x, Without(y, p, d), f[..p] + f[p + d..]);
  }

  lemma HeadKept(y: Data, p: nat, d: nat)
    requires TRIM_MIN_BYTES <= p && p + d <= |y|
    ensures Without(y, p, d)[..TRIM_MIN_BYTES] == y[..TRIM_MIN_BYTES] && |Without(y, p, d)| == |y| - d
  {
  }

  // ----- Trimming as a function -----

  /** Where a trim stands: the data left, the files the executions ran on, and whether the last
      of them gave up. */
  datatype Trial = Trial(data: Data, tried: seq<Data>, gaveUp: bool)

  /** One pass with blocks of one length, from position `pos` on. */
  function PassFrom(t: Trial, pos: nat, removeLen: nat, cksum: int, run: Target): Trial
    requires removeLen > 0
    decreases |t.data| - pos, !t.gaveUp
  {
    if t.gaveUp || pos >= |t.data| then t
    else
      var file := Without(t.data, pos, Min(removeLen, |t.data| - pos));
      var e := run(|t.tried|, file);
      var tried := t.tried + [file];
      if e.gaveUp then Trial(t.data, tried, true)
      else if e.cksum == cksum then PassFrom(Trial(file, tried, false), pos, removeLen, cksum, run)
      else PassFrom(Trial(t.data, tried, false), pos + removeLen, removeLen, cksum, run)
  }

  /** Passes with shorter and shorter blocks. */
  function Passes(t: Trial, removeLen: nat, cksum: int, run: Target): Trial
    decreases removeLen
  {
    if t.gaveUp || removeLen < Max(DoubledTo(|t.data|, 1) / TRIM_END_STEPS, TRIM_MIN_BYTES) then t
    else Passes(PassFrom(t, removeLen, removeLen, cksum, run), removeLen / 2, cksum, run)
  }

  function Trimming(x: Data, cksum: int, run: Target): Trial {
    if |x| < 5 then Trial(x, [], false)
    else Passes(Trial(x, [], false), Max(DoubledTo(|x|, 1) / TRIM_START_STEPS, TRIM_MIN_BYTES), cksum, run)
  }

  /** Execution `k` gave up on the file it ran on. */
  ghost predicate GaveUpAt(tried: seq<Data>, run: Target, k: nat) {
    k < |tried| && run(k, tried[k]).gaveUp
  }

  /** Execution `k` ran its file to the entry's checksum. */
  ghost predicate MatchedAt(tried: seq<Data>, run: Target, cksum: int, k: nat) {
    k < |tried| && !run(k, tried[k]).gaveUp && run(k, tried[k]).cksum == cksum
  }

  /** The data left are the original with bytes deleted behind its first four. They differ from
      it exactly when some execution matched, and are then the very file that one of the
      matching executions ran on. */
  ghost predicate Honest(x: Data, t: Trial, cksum: int, run: Target) {
    && Subsequence(x, t.data) && TRIM_MIN_BYTES <= |t.data| <= |x|
    && t.data[..TRIM_MIN_BYTES] == x[..TRIM_MIN_BYTES]
    && (t.gaveUp <==> exists k :: GaveUpAt(t.tried, run, k))
    && (|t.data| == |x| ==> t.data == x)
    && (t.data != x <==> exists k :: MatchedAt(t.tried, run, cksum, k))
    && (t.data != x ==> exists k: nat :: MatchedAt(t.tried, run, cksum, k) && t.tried[k] == t.data)
  }

  lemma TriedMore(tried: seq<Data>, file: Data, cksum: int, run: Target)
    ensures forall k :: GaveUpAt(tried + [file], run, k) <==> GaveUpAt(tried, run, k) || (k == |tried| && run(k, file).gaveUp)
    ensures forall k :: MatchedAt(tried + [file], run, cksum, k) <==>
              MatchedAt(tried, run, cksum, k) || (k == |tried| && !run(k, file).gaveUp && run(k, file).cksum == cksum)
  {
  }

  /** An execution that does not match leaves the data alone. */
  lemma MissKeepsHonest(x: Data, t: Trial, file: Data, cksum: int, run: Target)
    requires Honest(x, t, cksum, run) && !t.gaveUp
    requires run(|t.tried|, file).gaveUp || run(|t.tried|, file).cksum != cksum
    ensures Honest(x, Trial(t.data, t.tried + [file], run(|t.tried|, file).gaveUp), cksum, run)
  {
    TriedMore(t.tried, file, cksum, run);
    if t.data != x {
      var k: nat :| MatchedAt(t.tried, run, cksum, k) && t.tried[k] == t.data;
      assert MatchedAt(t.tried + [file], run, cksum, k) && (t.tried + [file])[k] == t.data;
    }
    if run(|t.tried|, file).gaveUp {
      assert GaveUpAt(t.tried + [file], run, |t.tried|);
    }
  }

  /** An execution that matches gives the data left. */
  lemma HitKeepsHonest(x: Data, t: Trial, p: nat, d: nat, cksum: int, run: Target)
    requires Honest(x, t, cksum, run) && !t.gaveUp && TRIM_MIN_BYTES <= p && p + d <= |t.data| && d > 0
    requires var e := run(|t.tried|, Without(t.data, p, d)); !e.gaveUp && e.cksum == cksum
    ensures var file := Without(t.data, p, d); Honest(x, Trial(file, t.tried + [file], false), cksum, run)
  {
    var file := Without(t.data, p, d);
    TriedMore(t.tried, file, cksum, run);
    SubsequenceByDeleting(x, t.data, p, d);
    HeadKept(t.data, p, d);
    assert MatchedAt(t.tried + [file], run, cksum, |t.tried|) && (t.tried + [file])[|t.tried|] == file;
  }

  lemma {:induction false} PassKeepsHonest(x: Data, t: Trial, pos: nat, removeLen: nat, cksum: int, run: Target)
    requires Honest(x, t, cksum, run) && TRIM_MIN_BYTES <= pos && removeLen > 0
    ensures Honest(x, PassFrom(t, pos, removeLen, cksum, run), cksum, run)
    decreases |t.data| - pos, !t.gaveUp
  {
    if !t.gaveUp && pos < |t.data| {
      var d := Min(removeLen, |t.data| - pos);
      var file := Without(t.data, pos, d);
      var e := run(|t.tried|, file);
      if !e.gaveUp && e.cksum == cksum {
        HitKeepsHonest(x, t, pos, d, cksum, run);
        PassKeepsHonest(x, Trial(file, t.tried + [file], false), pos, removeLen, cksum, run);
      } else {
        MissKeepsHonest(x, t, file, cksum, run);
        if !e.gaveUp {
          PassKeepsHonest(x, Trial(t.data, t.tried + [file], false), pos + removeLen, removeLen, cksum, run);
        }
      }
    }
  }

  lemma {:induction false} PassesKeepHonest(x: Data, t: Trial, removeLen: nat, cksum: int, run: Target)
    requires Honest(x, t, cksum, run)
    ensures Honest(x, Passes(t, removeLen, cksum, run), cksum, run)
    decreases removeLen
  {
    if !t.gaveUp && removeLen >= Max(DoubledTo(|t.data|, 1) / TRIM_END_STEPS, TRIM_MIN_BYTES) {
      PassKeepsHonest(x, t, removeLen, removeLen, cksum, run);
      PassesKeepHonest(x, PassFrom(t, removeLen, removeLen, cksum, run), removeLen / 2, cksum, run);
    }
  }

  /** For every entry of at least five bytes, and every target, also one that varies. */
  lemma TrimIsHonest(x: Data, cksum: int, run: Target)
    requires |x| >= 5
    ensures Honest(x, Trimming(x, cksum, run), cksum, run)
  {
    SubsequenceSelf(x);
    PassesKeepHonest(x, Trial(x, [], false), Max(DoubledTo(|x|, 1) / TRIM_START_STEPS, TRIM_MIN_BYTES), cksum, run);
  }

  // ----- The file on disk -----

  /** The disk is written only when no execution gave up. */
  function OnDisk(x: Data, t: Trial): Data {
    if t.gaveUp then x else t.data
  }

  /** The file on disk lags behind the entry exactly when one execution matched and one gave
      up. */
  lemma DiskFollowsIff(x: Data, cksum: int, run: Target)
    ensures var t := Trimming(x, cksum, run);
            OnDisk(x, t) == t.data <==> !((exists j :: MatchedAt(t.tried, run, cksum, j)) && exists k :: GaveUpAt(t.tried, run, k))
  {
    if |x| >= 5 {
      TrimIsHonest(x, cksum, run);
    }
  }

  /** Nine bytes, a first execution that matches and a second one that gives up: the entry has
      five bytes left, and the file on disk still nine. */
  lemma GivenUpTrimLeavesDiskBehind(x: Data, run: Target, n: nat)
    requires |x| == 9 && n == 4 && run(0, Without(x, n, n)) == Exec(false, 0) && forall d :: run(1, d).gaveUp
    ensures var t := Trimming(x, 0, run); |t.data| == 5 && OnDisk(x, t) == x != t.data
  {
    var start := Trial(x, [], false);
    var file := Without(x, n, n);
    var next := Trial(file, [file], false);
    assert DoubledTo(9, 8) == 16;
    assert DoubledTo(|x|, 1) == 16;
    assert [] + [file] == [file];
    assert PassFrom(start, n, n, 0, run) == PassFrom(next, n, n, 0, run);
    var last := Without(file, n, 1);
    assert PassFrom(next, n, n, 0, run) == Trial(file, [file, last], true);
  }

  ghost predicate Follows(x: Data, cksum: int, run: Target) {
    OnDisk(x, Trimming(x, cksum, run)) == Trimming(x, cksum, run).data
  }

  /** By the length alone: up to eight bytes the disk follows whatever the target does, because
      there is at most one execution; from nine bytes on some target leaves it behind. */
  lemma DiskFollowsByLength(x: Data)
    ensures (forall cksum: int, run: Target :: Follows(x, cksum, run)) <==> |x| < 9
  {
    if |x| < 9 {
      forall cksum: int, run: Target ensures Follows(x, cksum, run) {
        ShortTrim(x, 4, cksum, run);
      }
    } else {
      var run: Target := (k: nat, d: Data) => Exec(k > 0, 0);
      LongTrim(x, run);
      assert !Follows(x, 0, run);
    }
  }

  lemma ShortTrim(x: Data, n: nat, cksum: int, run: Target)
    requires |x| < 9 && n == 4
    ensures Follows(x, cksum, run)
  {
    if |x| >= 5 {
      var start := Trial(x, [], false);
      var r := PassFrom(start, n, n, cksum, run);
      DoubledIsPower(|x|, 1);
      ShortPass(x, n, cksum, run);
      assert n / 2 < TRIM_MIN_BYTES;
      assert Passes(r, n / 2, cksum, run) == r;
      assert Passes(start, n, cksum, run) == r by {
        SmallStart(|x|);
      }
      SmallStart(|x|);
    }
  }

  /** One execution on at most eight bytes, which matches or gives up or does neither. */
  lemma ShortPass(x: Data, n: nat, cksum: int, run: Target)
    requires 5 <= |x| < 9 && n == 4
    ensures var r := PassFrom(Trial(x, [], false), n, n, cksum, run); !r.gaveUp || r.data == x
  {
    var start := Trial(x, [], false);
    var file := Without(x, n, Min(n, |x| - n));
    var e := run(0, file);
    assert |file| == n;
    if !e.gaveUp && e.cksum == cksum {
      assert PassFrom(Trial(file, [] + [file], false), n, n, cksum, run) == Trial(file, [] + [file], false);
    } else if !e.gaveUp {
      assert PassFrom(Trial(x, [] + [file], false), n + n, n, cksum, run) == Trial(x, [] + [file], false);
    }
  }

  lemma SmallStart(n: nat)
    requires 5 <= n < 9
    ensures DoubledTo(n, 1) == 8
  {
    assert DoubledTo(n, 8) == 8;
    assert DoubledTo(n, 4) == 8;
    assert DoubledTo(n, 2) == 8;
  }

  /** A target that matches first and then gives up. */
  lemma LongTrim(x: Data, run: Target)
    requires |x| >= 9 && forall k, d :: run(k, d) == Exec(k > 0, 0)
    ensures var t := Trimming(x, 0, run); t.gaveUp && |t.data| < |x|
  {
    var p2 := DoubledTo(|x|, 1);
    DoubledIsPower(|x|, 1);
    var n := Max(p2 / TRIM_START_STEPS, TRIM_MIN_BYTES);
    var start := Trial(x, [], false);
    assert n >= Max(p2 / TRIM_END_STEPS, TRIM_MIN_BYTES) && 2 * n < |x|;
    LongPass(x, n, run);
    var r := PassFrom(start, n, n, 0, run);
    assert Passes(r, n / 2, 0, run) == r;
  }

  lemma LongPass(x: Data, n: nat, run: Target)
    requires 0 < n && 2 * n < |x| && forall k, d :: run(k, d) == Exec(k > 0, 0)
    ensures var r := PassFrom(Trial(x, [], false), n, n, 0, run); r.gaveUp && |r.data| < |x|
  {
    var file := Without(x, n, n);
    var next := Trial(file, [] + [file], false);
    assert PassFrom(Trial(x, [], false), n, n, 0, run) == PassFrom(next, n, n, 0, run);
    assert n < |file| && run(1, Without(file, n, Min(n, |file| - n))).gaveUp;
  }

  // ----- How many executions there are -----

  /** The length of `n` blocks. */
  ghost function Blocks(n: nat, d: nat): nat {
    if n == 0 then 0 else d + Blocks(n - 1, d)
  }

  lemma {:induction false} BlocksIsProduct(n: nat, d: nat)
    ensures Blocks(n, d) == n * d
  {
    if n > 0 {
      BlocksIsProduct(n - 1, d);
    }
  }

  /** Every execution either deletes a block or steps over one, so that there are no more of
      them than blocks. */
  lemma {:induction false} PassTakes(t: Trial, pos: nat, removeLen: nat, cksum: int, run: Target)
    requires removeLen > 0
    ensures var r := PassFrom(t, pos, removeLen, cksum, run);
            && |t.tried| <= |r.tried| && |r.data| <= |t.data|
            && Blocks(|r.tried| - |t.tried|, removeLen) <= (if pos < |t.data| then |t.data| - pos + removeLen else 0)
    decreases |t.data| - pos, !t.gaveUp
  {
    if !t.gaveUp && pos < |t.data| {
      var file := Without(t.data, pos, Min(removeLen, |t.data| - pos));
      var e := run(|t.tried|, file);
      var r := PassFrom(t, pos, removeLen, cksum, run);
      if e.gaveUp {
        assert Blocks(1, removeLen) == removeLen;
      } else {
        var next := if e.cksum == cksum then Trial(file, t.tried + [file], false) else Trial(t.data, t.tried + [file], false);
        var pos' := if e.cksum == cksum then pos else pos + removeLen;
        PassTakes(next, pos', removeLen, cksum, run);
        assert r == PassFrom(next, pos', removeLen, cksum, run);
        var n := |r.tried| - |next.tried|;
        assert Blocks(n + 1, removeLen) == removeLen + Blocks(n, removeLen);
      }
    }
  }

  // ----- The loops -----

  /** Deletes a block in place: the buffer becomes what the file with the gap was. */
  method CloseGap(inBuf: array<Byte>, len: nat, p: nat, d: nat) returns (n: nat)
    requires len <= inBuf.Length && p + d <= len
    modifies inBuf
    ensures n == len - d && inBuf[..n] == Without(old(inBuf[..len]), p, d)
  {
    n := len - d;
    MoveDown(inBuf, p, p + d, len - p - d);
    ghost var x := old(inBuf[..len]);
    forall i | 0 <= i < n
      ensures inBuf[..n][i] == Without(x, p, d)[i]
    {
    }
  }

  /** Runs the target on the data without one block, and deletes the block if the checksum of
      the trace is the entry's. */
  method TryTrim(inBuf: array<Byte>, len: nat, p: nat, d: nat, cksum: int, run: Target, execs: nat, file0: Data, reused: bool)
    returns (n: nat, file: Data, gaveUp: bool)
    requires len <= inBuf.Length && p + d <= len && d > 0
    modifies inBuf
    ensures file == Without(old(inBuf[..len]), p, d) && gaveUp == run(execs, file).gaveUp
    ensures n == if !gaveUp && run(execs, file).cksum == cksum then len - d else len
    ensures inBuf[..n] == if n < len then file else old(inBuf[..len])
  {
    n := len;
    file := WriteWithGap(file0, reused, inBuf[..len], p, d);
    var e := run(execs, file);
    gaveUp := e.gaveUp;
    if !gaveUp && e.cksum == cksum {
      n := CloseGap(inBuf, len, p, d);
    }
  }

  /** The file that the target reads, if it was `file0` after `n` executions. */
  ghost function LastFile(t: Trial, n: nat, file0: Data): Data {
    if |t.tried| > n then t.tried[|t.tried| - 1] else file0
  }

  /** The variables of the loops hold what the specification says. */
  ghost predicate Holds(t: Trial, data: Data, execs: nat, gaveUp: bool) {
    t.data == data && |t.tried| == execs && t.gaveUp == gaveUp
  }

  ghost predicate Hit(t: Trial, cksum: int, run: Target, file: Data) {
    var e := run(|t.tried|, file);
    !e.gaveUp && e.cksum == cksum
  }

  /** The rest of the pass ends in `end`. */
  ghost predicate LeadsTo(t: Trial, pos: nat, removeLen: nat, cksum: int, run: Target, end: Trial) {
    removeLen > 0 && PassFrom(t, pos, removeLen, cksum, run) == end
  }

  lemma PassGoesOn(t: Trial, pos: nat, removeLen: nat, cksum: int, run: Target, file: Data, end: Trial)
    requires LeadsTo(t, pos, removeLen, cksum, run, end)
    requires !t.gaveUp && pos < |t.data| && file == Without(t.data, pos, Min(removeLen, |t.data| - pos))
    ensures var hit := Hit(t, cksum, run, file);
            LeadsTo(Trial(if hit then file else t.data, t.tried + [file], run(|t.tried|, file).gaveUp),
                    if hit then pos else pos + removeLen, removeLen, cksum, run, end)
  {
  }

  method TrimPass(inBuf: array<Byte>, len0: nat, removeLen: nat, cksum: int, run: Target, execs0: nat, file0: Data, reused: bool,
                  ghost start: Trial)
    returns (len: nat, execs: nat, file: Data, gaveUp: bool)
    requires len0 <= inBuf.Length && removeLen > 0 && Holds(start, inBuf[..len0], execs0, false)
    modifies inBuf
    ensures len <= len0 && Holds(PassFrom(start, removeLen, removeLen, cksum, run), inBuf[..len], execs, gaveUp)
    ensures file == LastFile(PassFrom(start, removeLen, removeLen, cksum, run), execs0, file0)
  {
    len, execs, file, gaveUp := len0, execs0, file0, false;
    var removePos: nat := removeLen;
    ghost var now, end := start, PassFrom(start, removeLen, removeLen, cksum, run);
    while removePos < len && !gaveUp
      invariant len <= len0 && Holds(now, inBuf[..len], execs, gaveUp)
      invariant LeadsTo(now, removePos, removeLen, cksum, run, end) && file == LastFile(now, execs0, file0) && execs0 <= execs
      decreases len - removePos, !gaveUp
    {
      len, removePos, file, gaveUp, now := TrimStep(inBuf, len, removePos, removeLen, cksum, run, execs, file, reused, now, end);
      execs := execs + 1;
    }
  }

  /** One turn of the pass. */
  method TrimStep(inBuf: array<Byte>, len: nat, pos: nat, removeLen: nat, cksum: int, run: Target, execs: nat, file0: Data,
                  reused: bool, ghost t: Trial, ghost end: Trial)
    returns (n: nat, next: nat, file: Data, gaveUp: bool, ghost u: Trial)
    requires pos < len <= inBuf.Length && Holds(t, inBuf[..len], execs, false)
    requires LeadsTo(t, pos, removeLen, cksum, run, end)
    modifies inBuf
    ensures n <= len && Holds(u, inBuf[..n], execs + 1, gaveUp) && u.tried == t.tried + [file]
    ensures LeadsTo(u, next, removeLen, cksum, run, end) && n - next < len - pos
  {
    var avail := Min(removeLen, len - pos);
    n, file, gaveUp := TryTrim(inBuf, len, pos, avail, cksum, run, execs, file0, reused);
    PassGoesOn(t, pos, removeLen, cksum, run, file, end);
    u := Trial(inBuf[..n], t.tried + [file], gaveUp);
    next := if n < len then pos else pos + removeLen;
  }

  /** Trims an entry whose test case is on disk, and says what is on disk afterwards. `tried`
      are the files that the executions ran on. */
  method TrimCase(inBuf: array<Byte>, len0: nat, cksum: int, run: Target, file0: Data, reused: bool)
    returns (len: nat, execs: nat, disk: Data, gaveUp: bool, ghost tried: seq<Data>)
    requires len0 <= inBuf.Length
    modifies inBuf
    ensures len <= len0 && Holds(Trimming(old(inBuf[..len0]), cksum, run), inBuf[..len], execs, gaveUp)
    ensures tried == Trimming(old(inBuf[..len0]), cksum, run).tried && |tried| == execs
    ensures Subsequence(old(inBuf[..len0]), inBuf[..len])
    ensures len0 < 5 ==> len == len0 && execs == 0
    ensures len < len0 ==> TRIM_MIN_BYTES <= len && inBuf[..TRIM_MIN_BYTES] == old(inBuf[..TRIM_MIN_BYTES])
    ensures len < len0 <==> exists k :: MatchedAt(tried, run, cksum, k)
    ensures len < len0 ==> exists k: nat :: MatchedAt(tried, run, cksum, k) && tried[k] == inBuf[..len]
    ensures len == len0 ==> inBuf[..len] == old(inBuf[..len0])
    ensures gaveUp <==> exists k :: GaveUpAt(tried, run, k)
    ensures disk == OnDisk(old(inBuf[..len0]), Trimming(old(inBuf[..len0]), cksum, run))
    ensures disk == inBuf[..len] <==> !((exists j :: MatchedAt(tried, run, cksum, j)) && exists k :: GaveUpAt(tried, run, k))
    ensures execs <= TRIM_END_STEPS * Halvings(Max(len0 / 8, TRIM_MIN_BYTES))
  {
    ghost var x := inBuf[..len0];
    disk := inBuf[..len0];
    tried := Trimming(x, cksum, run).tried;
    if len0 < 5 {
      len, execs, gaveUp := len0, 0, false;
      SubsequenceSelf(disk);
      return;
    }
    TrimIsHonest(x, cksum, run);
    TrimTakes(x, cksum, run);
    len, execs, gaveUp := TrimPasses(inBuf, len0, cksum, run, file0, reused);
    assert inBuf[..len][..TRIM_MIN_BYTES] == inBuf[..TRIM_MIN_BYTES];
    assert x[..TRIM_MIN_BYTES] == old(inBuf[..TRIM_MIN_BYTES]);
    if !gaveUp && len < len0 {
      disk := inBuf[..len];
    }
  }

  method TrimPasses(inBuf: array<Byte>, len0: nat, cksum: int, run: Target, file0: Data, reused: bool)
    returns (len: nat, execs: nat, gaveUp: bool)
    requires 5 <= len0 <= inBuf.Length
    modifies inBuf
    ensures len <= len0 && Holds(Trimming(old(inBuf[..len0]), cksum, run), inBuf[..len], execs, gaveUp)
  {
    len, execs, gaveUp := len0, 0, false;
    var file := file0;
    var lenP2 := NextP2(len);
    var removeLen: nat := Max(lenP2 / TRIM_START_STEPS, TRIM_MIN_BYTES);
    ghost var now, end := Trial(inBuf[..len0], [], false), Trimming(inBuf[..len0], cksum, run);
    while removeLen >= Max(lenP2 / TRIM_END_STEPS, TRIM_MIN_BYTES)
      invariant len <= len0 && lenP2 == DoubledTo(len, 1) && Holds(now, inBuf[..len], execs, gaveUp) && !gaveUp
      invariant Passes(now, removeLen, cksum, run) == end
      decreases removeLen
    {
      ghost var was := now;
      now := PassFrom(was, removeLen, removeLen, cksum, run);
      len, execs, file, gaveUp := TrimPass(inBuf, len, removeLen, cksum, run, execs, file, reused, was);
      if gaveUp {
        return;
      }
      lenP2 := NextP2(len);
      removeLen := removeLen / 2;
    }
  }

  /** How often a block length can be halved before it gets too small. */
  ghost function Halvings(n: nat): nat {
    if n < TRIM_MIN_BYTES then 0 else 1 + Halvings(n / 2)
  }

  lemma {:induction false} HalvingsMonotone(a: nat, b: nat)
    requires a <= b
    ensures Halvings(a) <= Halvings(b)
  {
    if a >= TRIM_MIN_BYTES {
      HalvingsMonotone(a / 2, b / 2);
    }
  }

  /** At most 1024 executions for each halving. */
  lemma {:induction false} PassesTake(t: Trial, removeLen: nat, cksum: int, run: Target)
    ensures var r := Passes(t, removeLen, cksum, run);
            |t.tried| <= |r.tried| && |r.tried| - |t.tried| <= TRIM_END_STEPS * Halvings(removeLen)
    decreases removeLen
  {
    var p2 := DoubledTo(|t.data|, 1);
    if !t.gaveUp && removeLen >= Max(p2 / TRIM_END_STEPS, TRIM_MIN_BYTES) {
      var r := PassFrom(t, removeLen, removeLen, cksum, run);
      PassTakes(t, removeLen, removeLen, cksum, run);
      BlocksIsProduct(|r.tried| - |t.tried|, removeLen);
      DoubledIsPower(|t.data|, 1);
      StepsBound(|t.data|, p2, removeLen, |r.tried| - |t.tried|);
      PassesTake(r, removeLen / 2, cksum, run);
    }
  }

  lemma TrimTakes(x: Data, cksum: int, run: Target)
    requires |x| >= 5
    ensures |Trimming(x, cksum, run).tried| <= TRIM_END_STEPS * Halvings(Max(|x| / 8, TRIM_MIN_BYTES))
  {
    var p2 := DoubledTo(|x|, 1);
    var removeLen := Max(p2 / TRIM_START_STEPS, TRIM_MIN_BYTES);
    DoubledIsPower(|x|, 1);
    PassesTake(Trial(x, [], false), removeLen, cksum, run);
    HalvingsMonotone(removeLen, Max(|x| / 8, TRIM_MIN_BYTES));
  }

  lemma {:induction false} DoubledIsPower(val: nat, p: nat)
    requires PowerOfTwo(p)
    ensures PowerOfTwo(DoubledTo(val, p)) && val <= DoubledTo(val, p)
    ensures p < val ==> DoubledTo(val, p) < 2 * val
    decreases val - p
  {
    if p < val {
      assert 2 * p / 2 == p;
      DoubledIsPower(val, 2 * p);
    }
  }

  lemma LargePower(p: nat)
    requires PowerOfTwo(p) && p >= TRIM_END_STEPS
    ensures p % TRIM_END_STEPS == 0
  {
    var a := p / 16;
    FourHalvings(p);
    var b := a / 16;
    FourHalvings(a);
    var c := b / 2;
    assert b == 2 * c && PowerOfTwo(c);
    assert c == 2 * (c / 2);
    Multiple(p, a, b, c / 2);
  }

  lemma Multiple(p: nat, a: nat, b: nat, d: nat)
    requires p == 16 * a && a == 16 * b && b == 4 * d
    ensures p % TRIM_END_STEPS == 0
  {
    assert p == TRIM_END_STEPS * d;
  }

  lemma FourHalvings(p: nat)
    requires PowerOfTwo(p) && p >= 16
    ensures p == 16 * (p / 16) && PowerOfTwo(p / 16)
  {
    var a, b, c := p / 2, p / 2 / 2, p / 2 / 2 / 2;
    assert p == 2 * a && PowerOfTwo(a);
    assert a == 2 * b && PowerOfTwo(b);
    assert b == 2 * c && PowerOfTwo(c);
    assert c % 2 == 0 && PowerOfTwo(c / 2);
  }

  /** A pass takes at most 1024 executions. */
  lemma StepsBound(len: nat, lenP2: nat, removeLen: nat, execs: nat)
    requires len <= lenP2 && PowerOfTwo(lenP2) && removeLen >= Max(lenP2 / TRIM_END_STEPS, TRIM_MIN_BYTES)
    requires execs * removeLen <= len
    ensures execs <= TRIM_END_STEPS
  {
    StepsCover(lenP2, removeLen);
    AtMost(execs, TRIM_END_STEPS, removeLen);
  }

  lemma StepsCover(lenP2: nat, removeLen: nat)
    requires PowerOfTwo(lenP2) && removeLen >= Max(lenP2 / TRIM_END_STEPS, TRIM_MIN_BYTES)
    ensures lenP2 <= TRIM_END_STEPS * removeLen
  {
    if lenP2 >= TRIM_END_STEPS {
      LargePower(lenP2);
    }
  }

  lemma AtMost(n: nat, k: nat, d: nat)
    requires n * d < (k + 1) * d
    ensures n <= k
  {
  }
}
