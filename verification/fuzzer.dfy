/** Whole runs of the bookkeeping, and the fuzzer's own loops that carry it out. */
module Fuzzing {
  import opened Options
  import opened Coverage
  import opened CoverageLaws

  // ----- Whole runs -----

  /** What the fuzzer may do next. Scoring gives the new measurements of the entry, and the bytes
      of the map that it hit this time. */
  datatype Op = Adds(size: nat) | Scores(who: nat, us: nat, size: nat, trace: set<nat>) | Culls | Finishes(who: nat, counts: bool)

  ghost predicate Legal(b: Book, op: Op) {
    match op
    case Scores(q, _, _, _) => q < |b.entries|
    case Finishes(q, _) => q < |b.entries|
    case _ => true
  }

  ghost function Step(b: Book, op: Op): Book
    requires Wellformed(b) && Legal(b, op)
  {
    match op
    case Adds(len) => Add(b, len)
    case Scores(q, us, len, trace) => Score(b, q, us, len, trace)
    case Culls => Cull(b)
    case Finishes(q, counts) => Finish(b, q, counts)
  }

  /** The books a run goes through, the first and the last one included. */
  ghost predicate Run(bs: seq<Book>, ops: seq<Op>) {
    && |bs| == |ops| + 1
    && (forall k :: 0 <= k < |ops| ==> Goes(bs, ops, k))
  }

  ghost predicate Goes(bs: seq<Book>, ops: seq<Op>, k: nat)
    requires |bs| == |ops| + 1 && k < |ops|
  {
    Wellformed(bs[k]) && Legal(bs[k], ops[k]) && bs[k + 1] == Step(bs[k], ops[k])
  }

  /** `hits` gives the bytes of the map that each entry hits whenever it runs. */
  ghost predicate Stable(op: Op, hits: nat -> set<nat>) {
    op.Scores? ==> op.trace == hits(op.who)
  }

  ghost predicate StableRun(ops: seq<Op>, hits: nat -> set<nat>) {
    forall k :: 0 <= k < |ops| ==> Stable(ops[k], hits)
  }

  ghost predicate Fresh(b: Book) {
    && b.entries == [] && (forall i :: 0 <= i < |b.top| ==> b.top[i] == None)
    && !b.scoreChanged && b.queuedFavored == 0 && b.pendingFavored == 0 && b.pendingNotFuzzed == 0
  }

  /** What holds between any two operations. The cover is complete unless some byte changed
      hands since the last cull. */
  ghost predicate Inv(b: Book, hits: nat -> set<nat>) {
    RefInv(b) && HitInv(b, hits) && CountersExact(b) && (!b.scoreChanged ==> Covers(b, hits))
  }

  lemma {:induction false} WinsNone(top: seq<Option<nat>>, e: nat)
    requires forall i :: 0 <= i < |top| ==> top[i] != Some(e)
    ensures Wins(top, e) == 0
  {
    if top != [] {
      WinsNone(top[..|top| - 1], e);
    }
  }

  lemma SameFavoredCovers(b: Book, r: Book, hits: nat -> set<nat>)
    requires Covers(b, hits) && r.top == b.top && |b.entries| <= |r.entries|
    requires forall e :: 0 <= e < |b.entries| ==> b.entries[e].favored == r.entries[e].favored
    ensures Covers(r, hits)
  {
    forall i | 0 <= i < |r.top| && r.top[i].Some?
      ensures CoveredByte(r, hits, i)
    {
      assert CoveredByte(b, hits, i);
      var e :| 0 <= e < |b.entries| && b.entries[e].favored && i in hits(e);
      assert r.entries[e].favored;
    }
  }

  lemma AddKeepsRefs(b: Book, len: nat)
    requires RefInv(b)
    ensures RefInv(Add(b, len))
  {
    var r := Add(b, len);
    forall e | 0 <= e < |r.entries|
      ensures RefsOk(r, e)
    {
      if e < |b.entries| {
        assert RefsOk(b, e);
      } else {
        WinsNone(b.top, e);
      }
    }
  }

  lemma AddKeepsInv(b: Book, len: nat, hits: nat -> set<nat>)
    requires Inv(b, hits)
    ensures Inv(Add(b, len), hits)
  {
    AddKeepsCounters(b, len);
    AddKeepsRefs(b, len);
    if !b.scoreChanged {
      SameFavoredCovers(b, Add(b, len), hits);
    }
  }

  lemma FinishKeepsInv(b: Book, q: nat, counts: bool, hits: nat -> set<nat>)
    requires Inv(b, hits) && q < |b.entries|
    ensures Inv(Finish(b, q, counts), hits)
  {
    var r := Finish(b, q, counts);
    FinishKeepsCounters(b, q, counts);
    forall e | 0 <= e < |r.entries|
      ensures RefsOk(r, e)
    {
      assert RefsOk(b, e);
    }
    if !b.scoreChanged {
      SameFavoredCovers(b, r, hits);
    }
  }

  lemma ScoreKeepsInv(b: Book, q: nat, us: nat, len: nat, hits: nat -> set<nat>)
    requires Inv(b, hits) && q < |b.entries|
    ensures Inv(Score(b, q, us, len, hits(q)), hits)
  {
    ScoreKeepsRefs(b, q, us, len, hits(q));
    ScoreKeepsHits(b, q, us, len, hits);
    ScoreKeepsCounters(b, q, us, len, hits(q));
    ScoreKeepsCover(b, q, us, len, hits);
  }

  lemma ScoreKeepsCover(b: Book, q: nat, us: nat, len: nat, hits: nat -> set<nat>)
    requires Wellformed(b) && q < |b.entries| && (!b.scoreChanged ==> Covers(b, hits))
    ensures var r := Score(b, q, us, len, hits(q)); !r.scoreChanged ==> Covers(r, hits)
  {
    var m := Remeasured(b, q, us, len);
    var r := Score(b, q, us, len, hits(q));
    ScoreTakes(m, q, hits(q), |b.top|);
    if !r.scoreChanged {
      forall e | 0 <= e < |b.entries|
        ensures b.entries[e].favored == r.entries[e].favored
      {
        assert SameMeasure(m.entries[e], r.entries[e]);
      }
      SameFavoredCovers(b, r, hits);
    }
  }

  lemma StepKeepsInv(b: Book, op: Op, hits: nat -> set<nat>)
    requires Inv(b, hits) && Legal(b, op) && Stable(op, hits)
    ensures Inv(Step(b, op), hits)
  {
    match op
    case Adds(len) => AddKeepsInv(b, len, hits);
    case Scores(q, us, len, trace) => ScoreKeepsInv(b, q, us, len, hits);
    case Culls => CullCovers(b, hits);
    case Finishes(q, counts) => FinishKeepsInv(b, q, counts, hits);
  }

  lemma FreshInv(b: Book, hits: nat -> set<nat>)
    requires Fresh(b)
    ensures Inv(b, hits)
  {
  }

  lemma {:induction false} RunKeepsInv(bs: seq<Book>, ops: seq<Op>, hits: nat -> set<nat>, k: nat)
    requires Run(bs, ops) && StableRun(ops, hits) && Fresh(bs[0]) && k < |bs|
    ensures Inv(bs[k], hits)
  {
    if k == 0 {
      FreshInv(bs[0], hits);
    } else {
      RunKeepsInv(bs, ops, hits, k - 1);
      assert Goes(bs, ops, k - 1);
      StepKeepsInv(bs[k - 1], ops[k - 1], hits);
    }
  }

  // ----- References, for any traces -----

  /** What holds also when entries hit different bytes from run to run. */
  ghost predicate RefsAndPending(b: Book) {
    RefInv(b) && b.pendingNotFuzzed == Count(b.entries, Unfuzzed)
  }

  /** Culling only sets and clears favored flags. */
  predicate OnlyFavored(b: Book, r: Book) {
    && r.top == b.top && |r.entries| == |b.entries| && r.pendingNotFuzzed == b.pendingNotFuzzed
    && forall e :: 0 <= e < |b.entries| ==> r.entries[e].(favored := b.entries[e].favored) == b.entries[e]
  }

  lemma {:induction false} CullUpToOnlyFavored(w: Sweep, n: nat)
    requires Wellformed(w.b) && n <= |w.b.top|
    ensures OnlyFavored(w.b, CullUpTo(w, n).b)
  {
    if n > 0 {
      CullUpToOnlyFavored(w, n - 1);
      CullByteOnlyFavored(w.b, CullUpTo(w, n - 1), n - 1);
    }
  }

  lemma CullByteOnlyFavored(b: Book, w: Sweep, i: nat)
    requires OnlyFavored(b, w.b) && Wellformed(w.b) && i < |w.b.top|
    ensures OnlyFavored(b, CullByte(w, i).b)
  {
  }

  lemma OnlyFavoredKeepsRefs(b: Book, r: Book)
    requires RefsAndPending(b) && OnlyFavored(b, r)
    ensures RefsAndPending(r)
  {
    forall e | 0 <= e < |r.entries| ensures RefsOk(r, e) && Unfuzzed(b.entries[e]) == Unfuzzed(r.entries[e]) {
      assert RefsOk(b, e);
      assert r.entries[e].(favored := b.entries[e].favored) == b.entries[e];
    }
    CountSame(b.entries, r.entries, Unfuzzed);
  }

  lemma CullKeepsRefs(b: Book)
    requires RefsAndPending(b)
    ensures RefsAndPending(Cull(b))
  {
    if b.scoreChanged {
      CullUpToOnlyFavored(StartCull(b), |b.top|);
      OnlyFavoredKeepsRefs(b, StartCull(b).b);
      OnlyFavoredKeepsRefs(StartCull(b).b, Cull(b));
    }
  }

  lemma ScoreKeepsPending(b: Book, q: nat, us: nat, len: nat, trace: set<nat>)
    requires Wellformed(b) && q < |b.entries| && b.pendingNotFuzzed == Count(b.entries, Unfuzzed)
    ensures var r := Score(b, q, us, len, trace); r.pendingNotFuzzed == Count(r.entries, Unfuzzed)
  {
    var m, r := Remeasured(b, q, us, len), Score(b, q, us, len, trace);
    ScoreTakes(m, q, trace, |b.top|);
    forall i | 0 <= i < |b.entries| ensures Unfuzzed(b.entries[i]) == Unfuzzed(r.entries[i]) {
      assert SameMeasure(m.entries[i], r.entries[i]);
    }
    CountSame(b.entries, r.entries, Unfuzzed);
  }

  lemma StepKeepsRefs(b: Book, op: Op)
    requires RefsAndPending(b) && Legal(b, op)
    ensures RefsAndPending(Step(b, op))
  {
    match op
    case Adds(len) =>
      AddKeepsRefs(b, len);
      assert Add(b, len).entries[..|b.entries|] == b.entries;
    case Scores(q, us, len, trace) =>
      ScoreKeepsRefs(b, q, us, len, trace);
      ScoreKeepsPending(b, q, us, len, trace);
    case Culls => CullKeepsRefs(b);
    case Finishes(q, counts) => FinishKeepsRefs(b, q, counts);
  }

  lemma FinishKeepsRefs(b: Book, q: nat, counts: bool)
    requires RefsAndPending(b) && q < |b.entries|
    ensures RefsAndPending(Finish(b, q, counts))
  {
    var r := Finish(b, q, counts);
    forall e | 0 <= e < |r.entries| ensures RefsOk(r, e) {
      assert RefsOk(b, e);
    }
    CountUpdate(b.entries, q, b.entries[q].(wasFuzzed := true), Unfuzzed);
  }

  /** Over whole runs, with any traces: every entry's references are the bytes it wins, its
      compact trace is kept exactly while there are any, and the number of entries that wait
      to be fuzzed is exact. */
  lemma {:induction false} EveryRunKeepsTheReferences(bs: seq<Book>, ops: seq<Op>, k: nat)
    requires Run(bs, ops) && Fresh(bs[0]) && k < |bs|
    ensures RefsAndPending(bs[k])
  {
    if k > 0 {
      EveryRunKeepsTheReferences(bs, ops, k - 1);
      assert Goes(bs, ops, k - 1);
      StepKeepsRefs(bs[k - 1], ops[k - 1]);
    }
  }

  // ----- Cover and counters, for stable traces -----

  /** Over whole runs of adding, scoring, culling and fuzzing: every entry's references are
      the bytes it wins, its compact trace is kept exactly while there are any, the counters
      are exact and so never negative, and right after a cull the favored entries cover every
      byte that has a best entry. */
  lemma EveryRunKeepsTheBooks(bs: seq<Book>, ops: seq<Op>, hits: nat -> set<nat>, k: nat)
    requires Run(bs, ops) && StableRun(ops, hits) && Fresh(bs[0]) && k < |bs|
    ensures forall e :: 0 <= e < |bs[k].entries| ==> RefsOk(bs[k], e)
    ensures CountersExact(bs[k]) && bs[k].queuedFavored >= bs[k].pendingFavored >= 0 && bs[k].pendingNotFuzzed >= bs[k].pendingFavored
    ensures k > 0 && ops[k - 1].Culls? ==> Covers(bs[k], hits)
  {
    RunKeepsInv(bs, ops, hits, k);
    CountImplies(bs[k].entries, FavoredUnfuzzed, Favored);
    CountImplies(bs[k].entries, FavoredUnfuzzed, Unfuzzed);
    if k > 0 && ops[k - 1].Culls? {
      RunKeepsInv(bs, ops, hits, k - 1);
      assert Goes(bs, ops, k - 1);
      CullCovers(bs[k - 1], hits);
    }
  }

  lemma {:induction false} CountImplies(es: seq<Entry>, p: Entry -> bool, q: Entry -> bool)
    requires forall e :: p(e) ==> q(e)
    ensures Count(es, p) <= Count(es, q)
  {
    if es != [] {
      CountImplies(es[..|es| - 1], p, q);
    }
  }

  // ----- The best entries over whole runs -----

  /** The entries that the first `k` operations scored. */
  ghost function ScoredBy(ops: seq<Op>, k: nat): set<nat>
    requires k <= |ops|
  {
    if k == 0 then {}
    else if ops[k - 1].Scores? then ScoredBy(ops, k - 1) + {ops[k - 1].who}
    else ScoredBy(ops, k - 1)
  }

  /** Scoring an entry again, after trimming it, does not find its factor grown. */
  ghost predicate Shrinks(bs: seq<Book>, ops: seq<Op>, k: nat)
    requires |bs| == |ops| + 1 && k < |ops|
  {
    ops[k].Scores? && ops[k].who in ScoredBy(ops, k) ==>
      ops[k].who < |bs[k].entries| && ops[k].us * ops[k].size <= Factor(bs[k].entries[ops[k].who])
  }

  /** Nothing but the entries' measurements, their number and the winners decide who is best. */
  lemma SameMeasuresKeepBest(b: Book, r: Book, hits: nat -> set<nat>, scored: set<nat>)
    requires BestInv(b, hits, scored) && r.top == b.top && |b.entries| <= |r.entries|
    requires forall e :: 0 <= e < |b.entries| ==> Factor(b.entries[e]) == Factor(r.entries[e])
    ensures BestInv(r, hits, scored)
  {
    forall i, e | 0 <= i < |r.top| && e in scored && i in hits(e)
      ensures NoWorse(r, i, e, scored)
    {
      assert NoWorse(b, i, e, scored);
    }
  }

  lemma {:induction false} CullKeepsFactors(w: Sweep, n: nat, e: nat)
    requires Wellformed(w.b) && n <= |w.b.top| && e < |w.b.entries|
    ensures Factor(CullUpTo(w, n).b.entries[e]) == Factor(w.b.entries[e])
  {
    if n > 0 {
      CullKeepsFactors(w, n - 1, e);
    }
  }

  lemma CullKeepsBest(b: Book, hits: nat -> set<nat>, scored: set<nat>)
    requires BestInv(b, hits, scored)
    ensures BestInv(Cull(b), hits, scored)
  {
    if b.scoreChanged {
      forall e | 0 <= e < |b.entries|
        ensures Factor(Cull(b).entries[e]) == Factor(b.entries[e])
      {
        CullKeepsFactors(StartCull(b), |b.top|, e);
      }
      SameMeasuresKeepBest(b, Cull(b), hits, scored);
    }
  }

  /** Over whole runs in which no entry is scored again with a larger factor, after every
      operation each byte that a scored entry hits is won by a scored entry with the least
      factor among those. */
  lemma {:induction false} EveryRunKeepsTheBest(bs: seq<Book>, ops: seq<Op>, hits: nat -> set<nat>, k: nat)
    requires Run(bs, ops) && StableRun(ops, hits) && Fresh(bs[0]) && k < |bs|
    requires forall j :: 0 <= j < k ==> Shrinks(bs, ops, j)
    ensures BestInv(bs[k], hits, ScoredBy(ops, k))
  {
    if k == 0 {
      FreshBest(bs[0], hits);
    } else {
      EveryRunKeepsTheBest(bs, ops, hits, k - 1);
      RunKeepsInv(bs, ops, hits, k - 1);
      assert Goes(bs, ops, k - 1);
      assert Shrinks(bs, ops, k - 1);
      StepKeepsBest(bs[k - 1], ops[k - 1], hits, ScoredBy(ops, k - 1));
    }
  }

  lemma FreshBest(b: Book, hits: nat -> set<nat>)
    requires Fresh(b)
    ensures BestInv(b, hits, {})
  {
  }

  lemma StepKeepsBest(b: Book, op: Op, hits: nat -> set<nat>, scored: set<nat>)
    requires HitInv(b, hits) && BestInv(b, hits, scored) && Legal(b, op) && Stable(op, hits)
    requires op.Scores? && op.who in scored ==> op.us * op.size <= Factor(b.entries[op.who])
    ensures BestInv(Step(b, op), hits, if op.Scores? then scored + {op.who} else scored)
  {
    match op
    case Adds(len) => SameMeasuresKeepBest(b, Add(b, len), hits, scored);
    case Scores(q, us, len, trace) => ScoringKeepsBest(b, q, us, len, hits, scored);
    case Culls => CullKeepsBest(b, hits, scored);
    case Finishes(q, counts) => SameMeasuresKeepBest(b, Finish(b, q, counts), hits, scored);
  }

  // ----- What the entries owe to the run -----

  /** What one operation does to an entry that is there already, and to the number of entries. */
  lemma StepEntry(b: Book, op: Op, e: nat)
    requires Wellformed(b) && Legal(b, op) && e < |b.entries|
    ensures var r := Step(b, op);
            && |r.entries| == |b.entries| + (if op.Adds? then 1 else 0)
            && (r.entries[e].wasFuzzed <==> b.entries[e].wasFuzzed || op == Finishes(e, true))
            && (if op.Scores? && op.who == e then r.entries[e].execUs == op.us && r.entries[e].len == op.size
                else r.entries[e].execUs == b.entries[e].execUs && r.entries[e].len == b.entries[e].len)
  {
    match op
    case Adds(len) => AddIsLawful(b, len);
    case Scores(q, us, len, trace) =>
      var m := Remeasured(b, q, us, len);
      ScoreTakes(m, q, trace, |b.top|);
      assert SameMeasure(m.entries[e], Score(b, q, us, len, trace).entries[e]);
    case Culls => CullEntry(b, e);
    case Finishes(q, counts) => FinishIsLawful(b, q, counts);
  }

  lemma CullEntry(b: Book, e: nat)
    requires Wellformed(b) && e < |b.entries|
    ensures |Cull(b).entries| == |b.entries|
    ensures Cull(b).entries[e].(favored := b.entries[e].favored) == b.entries[e]
  {
    var chosen := CullIsGreedy(b);
    if b.scoreChanged {
      assert FavoredRightly(b.entries[e], Cull(b).entries[e], b, chosen, e);
    }
  }

  lemma StepNewEntry(b: Book, op: Op)
    requires Wellformed(b) && Legal(b, op)
    ensures var r := Step(b, op);
            && |r.entries| == |b.entries| + (if op.Adds? then 1 else 0)
            && (op.Adds? ==> var e := r.entries[|b.entries|]; !e.wasFuzzed && e.execUs == 0 && e.len == op.size)
  {
    if op.Culls? {
      var chosen := CullIsGreedy(b);
    }
  }

  lemma {:induction false} EntriesGrow(bs: seq<Book>, ops: seq<Op>, j: nat, k: nat)
    requires Run(bs, ops) && j <= k < |bs|
    ensures |bs[j].entries| <= |bs[k].entries|
    decreases k
  {
    if j < k {
      EntriesGrow(bs, ops, j, k - 1);
      assert Goes(bs, ops, k - 1);
      StepNewEntry(bs[k - 1], ops[k - 1]);
    }
  }

  /** One of the first `k` operations was the end of a fuzzing of entry `q` that counts. */
  ghost predicate FuzzedBy(ops: seq<Op>, k: nat, q: nat)
    requires k <= |ops|
  {
    exists j :: 0 <= j < k && ops[j] == Finishes(q, true)
  }

  /** Over whole runs, with any traces: an entry is marked as fuzzed exactly if some earlier
      operation ended its fuzzing, and the end counted. */
  lemma {:induction false} EveryRunKnowsTheFuzzed(bs: seq<Book>, ops: seq<Op>, k: nat, q: nat)
    requires Run(bs, ops) && Fresh(bs[0]) && k < |bs| && q < |bs[k].entries|
    ensures bs[k].entries[q].wasFuzzed <==> FuzzedBy(ops, k, q)
    decreases k
  {
    if k > 0 {
      var b, op := bs[k - 1], ops[k - 1];
      assert Goes(bs, ops, k - 1);
      StepNewEntry(b, op);
      if q < |b.entries| {
        EveryRunKnowsTheFuzzed(bs, ops, k - 1, q);
        StepEntry(b, op, q);
        if FuzzedBy(ops, k, q) && op != Finishes(q, true) {
          var j :| 0 <= j < k && ops[j] == Finishes(q, true);
          assert j < k - 1;
        }
      } else if FuzzedBy(ops, k, q) {
        var j :| 0 <= j < k && ops[j] == Finishes(q, true);
        assert Goes(bs, ops, j);
        EntriesGrow(bs, ops, j, k - 1);
        assert false;
      }
    }
  }

  /** Operation `j` is the last of the first `k` that scores entry `q`. */
  ghost predicate LastScored(ops: seq<Op>, k: nat, q: nat, j: nat)
    requires k <= |ops|
  {
    && j < k && ops[j].Scores? && ops[j].who == q
    && forall i :: j < i < k ==> !(ops[i].Scores? && ops[i].who == q)
  }

  /** An entry's speed and length are what it was last scored with. */
  lemma {:induction false} EveryRunKnowsTheMeasure(bs: seq<Book>, ops: seq<Op>, k: nat, q: nat, j: nat)
    requires Run(bs, ops) && k < |bs| && LastScored(ops, k, q, j)
    ensures q < |bs[k].entries| && bs[k].entries[q].execUs == ops[j].us && bs[k].entries[q].len == ops[j].size
    decreases k
  {
    assert Goes(bs, ops, k - 1);
    if j < k - 1 {
      EveryRunKnowsTheMeasure(bs, ops, k - 1, q, j);
    }
    StepEntry(bs[k - 1], ops[k - 1], q);
  }

  // ----- The two places that score an entry -----

  /** What happens in the fuzzer. An entry is scored when its calibration has succeeded, which
      happens once, and again when trimming has made it shorter. */
  datatype Event = Queued(size: nat) | Calibrated(who: nat, us: nat, trace: set<nat>) | Trimmed(who: nat, size: nat, trace: set<nat>) | CullTime | Fuzzed(who: nat, counts: bool)

  ghost predicate Happens(b: Book, e: Event, scored: set<nat>) {
    match e
    case Calibrated(q, _, _) => q < |b.entries| && q !in scored
    case Trimmed(q, size, _) => q < |b.entries| && size <= b.entries[q].len
    case Fuzzed(q, _) => q < |b.entries|
    case _ => true
  }

  ghost function OpOf(b: Book, e: Event): Op
    requires e.Calibrated? || e.Trimmed? ==> e.who < |b.entries|
  {
    match e
    case Queued(size) => Adds(size)
    case Calibrated(q, us, trace) => Scores(q, us, b.entries[q].len, trace)
    case Trimmed(q, size, trace) => Scores(q, b.entries[q].execUs, size, trace)
    case CullTime => Culls
    case Fuzzed(q, counts) => Finishes(q, counts)
  }

  ghost predicate ByEvent(bs: seq<Book>, evs: seq<Event>, ops: seq<Op>, k: nat)
    requires |bs| == |ops| + 1 && |evs| == |ops| && k < |ops|
  {
    Happens(bs[k], evs[k], ScoredBy(ops, k)) && ops[k] == OpOf(bs[k], evs[k])
  }

  /** Neither of them finds a larger factor for an entry that was scored before. */
  lemma EventsShrink(bs: seq<Book>, evs: seq<Event>, ops: seq<Op>, k: nat)
    requires |bs| == |ops| + 1 && |evs| == |ops| && k < |ops| && ByEvent(bs, evs, ops, k)
    ensures Shrinks(bs, ops, k)
  {
    if evs[k].Trimmed? {
      var e := bs[k].entries[evs[k].who];
      ShorterIsLess(e.execUs, evs[k].size, e.len);
    }
  }

  lemma ShorterIsLess(us: nat, a: nat, b: nat)
    requires a <= b
    ensures us * a <= us * b
  {
  }

  /** So in every run of the fuzzer each byte that a scored entry hits is won, at any time, by a
      scored entry with the least factor among those. */
  lemma EveryFuzzerRunKeepsTheBest(bs: seq<Book>, evs: seq<Event>, ops: seq<Op>, hits: nat -> set<nat>, k: nat)
    requires Run(bs, ops) && StableRun(ops, hits) && Fresh(bs[0]) && k < |bs| && |evs| == |ops|
    requires forall j :: 0 <= j < |ops| ==> ByEvent(bs, evs, ops, j)
    ensures BestInv(bs[k], hits, ScoredBy(ops, k))
  {
    forall j | 0 <= j < k ensures Shrinks(bs, ops, j) {
      EventsShrink(bs, evs, ops, j);
    }
    EveryRunKeepsTheBest(bs, ops, hits, k);
  }

  // ----- The fuzzer's loops -----

  function HitBytes(trace: seq<nat>): set<nat> {
    set i | 0 <= i < |trace| && trace[i] != 0 :: i
  }

  /** The loop below reads the winner's compact trace without checking that there is one. */
  lemma WinnerHasTrace(b: Book, i: nat)
    requires RefInv(b) && i < |b.top| && b.top[i].Some?
    ensures b.entries[b.top[i].value].mini.Some?
  {
    var e := b.top[i].value;
    assert RefsOk(b, e);
    WinnerWins(b.top, i, e);
  }

  lemma WinnerTraceAt(b: Book, now: Book, i: nat)
    requires RefInv(b) && now.top == b.top && |now.entries| == |b.entries| && i < |b.top|
    requires forall e :: 0 <= e < |b.entries| ==> now.entries[e].mini == b.entries[e].mini
    ensures now.top[i].Some? ==> now.entries[now.top[i].value].mini.Some?
  {
    if b.top[i].Some? {
      WinnerHasTrace(b, i);
    }
  }

  class Fuzzer {
    var entries: seq<Entry>
    var top: seq<Option<nat>>
    var scoreChanged: bool
    var queuedFavored: int
    var pendingFavored: int
    var pendingNotFuzzed: int

    ghost function View(): Book
      reads this
    {
      Book(entries, top, scoreChanged, queuedFavored, pendingFavored, pendingNotFuzzed)
    }

    constructor (size: nat)
      ensures Fresh(View()) && |top| == size
    {
      entries := [];
      top := seq(size, i => None);
      scoreChanged := false;
      queuedFavored, pendingFavored, pendingNotFuzzed := 0, 0, 0;
    }

    method AddToQueue(len: nat)
      modifies this
      ensures View() == Add(old(View()), len)
      ensures AddLaw(old(View()), View(), len)
    {
      entries := entries + [Entry(0, len, false, false, 0, None)];
      pendingNotFuzzed := pendingNotFuzzed + 1;
    }

    method UpdateBitmapScore(q: nat, trace: seq<nat>)
      requires q < |entries| && Wellformed(View()) && |trace| == |top|
      modifies this
      ensures View() == ScoreUpTo(old(View()), q, HitBytes(trace), |trace|)
      ensures ScoreLaw(old(View()), View(), q, HitBytes(trace), |trace|)
    {
      ghost var b := View();
      ScoreIsLawful(b, q, HitBytes(trace), |trace|);
      for i := 0 to |trace|
        invariant |top| == |b.top| && |entries| == |b.entries| && Wellformed(View())
        invariant View() == ScoreUpTo(b, q, HitBytes(trace), i)
      {
        ScoreSlot(q, trace, i);
      }
    }

    /** One turn of the scoring loop. */
    method ScoreSlot(q: nat, trace: seq<nat>, i: nat)
      requires q < |entries| && Wellformed(View()) && i < |trace| == |top|
      modifies this
      ensures View() == ScoreByte(old(View()), q, HitBytes(trace), i)
    {
      if trace[i] != 0 {
        if top[i].Some? {
          var w := top[i].value;
          if Factor(entries[q]) > Factor(entries[w]) {
            return;
          }
          var left := entries[w].tcRef - 1;
          entries := entries[w := entries[w].(tcRef := left, mini := if left == 0 then None else entries[w].mini)];
        }
        top := top[i := Some(q)];
        var kept := if entries[q].mini.None? then Some(HitBytes(trace)) else entries[q].mini;
        entries := entries[q := entries[q].(tcRef := entries[q].tcRef + 1, mini := kept)];
        scoreChanged := true;
      }
    }

    method CullQueue()
      requires RefInv(View())
      modifies this
      ensures View() == Cull(old(View()))
      ensures CulledGreedily(old(View()), View())
    {
      ghost var b := View();
      if !scoreChanged {
        CullIsLawful(b);
        return;
      }
      scoreChanged := false;
      var left := AllBytes(|top|);
      queuedFavored, pendingFavored := 0, 0;
      entries := ClearFavored(entries);
      ghost var start := StartCull(b);
      for i := 0 to |top|
        invariant top == b.top && |entries| == |b.entries|
        invariant forall e :: 0 <= e < |entries| ==> entries[e].mini == b.entries[e].mini
        invariant Sweep(View(), left) == CullUpTo(start, i)
      {
        WinnerTraceAt(b, View(), i);
        left := CullSlot(left, i);
      }
      CullIsLawful(b);
    }

    /** One turn of the culling loop. */
    method CullSlot(left0: set<nat>, i: nat) returns (left: set<nat>)
      requires Wellformed(View()) && i < |top| && (top[i].Some? ==> entries[top[i].value].mini.Some?)
      modifies this
      ensures Sweep(View(), left) == CullByte(Sweep(old(View()), left0), i)
      ensures forall e :: 0 <= e < |entries| == |old(entries)| ==> entries[e].mini == old(entries)[e].mini
    {
      left := left0;
      if top[i].Some? && i in left {
        var w := top[i].value;
        left := left - entries[w].mini.value;
        entries := entries[w := entries[w].(favored := true)];
        queuedFavored := queuedFavored + 1;
        if !entries[w].wasFuzzed {
          pendingFavored := pendingFavored + 1;
        }
      }
    }

    method FinishFuzzing(q: nat, counts: bool)
      requires q < |entries|
      modifies this
      ensures View() == Finish(old(View()), q, counts)
      ensures FinishLaw(old(View()), View(), q, counts)
    {
      if counts && !entries[q].wasFuzzed {
        entries := entries[q := entries[q].(wasFuzzed := true)];
        pendingNotFuzzed := pendingNotFuzzed - 1;
        if entries[q].favored {
          pendingFavored := pendingFavored - 1;
        }
      }
    }
  }
}
