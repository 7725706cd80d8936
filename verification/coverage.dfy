/** afl-fuzz's coverage bookkeeping: which queue entry is the best for each byte of the map,
    which entries are favored, and the counters that follow from both. */
module Coverage {
  import opened Options
  import Bits

  /** A queue entry. `mini` is its compact trace, the set of map bytes it hit, while it is kept. */
  datatype Entry = Entry(execUs: nat, len: nat, wasFuzzed: bool, favored: bool, tcRef: int, mini: Option<set<nat>>)

  /** The globals of the fuzzer that the bookkeeping works on. Entries are known by their
      place in the queue. */
  datatype Book = Book(
    entries: seq<Entry>, top: seq<Option<nat>>, scoreChanged: bool,
    queuedFavored: int, pendingFavored: int, pendingNotFuzzed: int)

  /** Speed times size: the smaller, the better. */
  function Factor(e: Entry): nat {
    e.execUs * e.len
  }

  ghost predicate Wellformed(b: Book) {
    forall i :: 0 <= i < |b.top| && b.top[i].Some? ==> b.top[i].value < |b.entries|
  }

  // ----- Scoring -----

  /** The loser of a byte loses a reference, and its compact trace with the last one. */
  function Release(e: Entry): Entry {
    e.(tcRef := e.tcRef - 1, mini := if e.tcRef - 1 == 0 then None else e.mini)
  }

  function Claim(e: Entry, trace: set<nat>): Entry {
    e.(tcRef := e.tcRef + 1, mini := if e.mini.None? then Some(trace) else e.mini)
  }

  /** Does entry `q` win byte `i`? Ties go to the newcomer. */
  predicate Beats(b: Book, q: nat, i: nat)
    requires q < |b.entries| && i < |b.top| && Wellformed(b)
  {
    b.top[i].None? || Factor(b.entries[q]) <= Factor(b.entries[b.top[i].value])
  }

  function ScoreByte(b: Book, q: nat, trace: set<nat>, i: nat): (r: Book)
    requires q < |b.entries| && i < |b.top| && Wellformed(b)
    ensures Wellformed(r) && |r.entries| == |b.entries| && |r.top| == |b.top|
  {
    if i !in trace || !Beats(b, q, i) then b
    else
      var es := if b.top[i].Some? then b.entries[b.top[i].value := Release(b.entries[b.top[i].value])] else b.entries;
      b.(entries := es[q := Claim(es[q], trace)], top := b.top[i := Some(q)], scoreChanged := true)
  }

  function ScoreUpTo(b: Book, q: nat, trace: set<nat>, n: nat): (r: Book)
    requires q < |b.entries| && n <= |b.top| && Wellformed(b)
    ensures Wellformed(r) && |r.entries| == |b.entries| && |r.top| == |b.top|
  {
    if n == 0 then b else ScoreByte(ScoreUpTo(b, q, trace, n - 1), q, trace, n - 1)
  }

  /** Calibration or trimming sets an entry's speed and length, and then scores it. */
  function Remeasured(b: Book, q: nat, us: nat, len: nat): (r: Book)
    requires q < |b.entries|
    ensures Wellformed(b) ==> Wellformed(r)
  {
    b.(entries := b.entries[q := b.entries[q].(execUs := us, len := len)])
  }

  function Score(b: Book, q: nat, us: nat, len: nat, trace: set<nat>): Book
    requires q < |b.entries| && Wellformed(b)
  {
    ScoreUpTo(Remeasured(b, q, us, len), q, trace, |b.top|)
  }

  // ----- Culling -----

  function ClearFavored(es: seq<Entry>): (r: seq<Entry>)
    ensures |r| == |es|
  {
    seq(|es|, i requires 0 <= i < |es| => es[i].(favored := false))
  }

  /** The state of the greedy loop: the book, and the bytes not covered yet. */
  datatype Sweep = Sweep(b: Book, left: set<nat>)

  function CullByte(w: Sweep, i: nat): (r: Sweep)
    requires Wellformed(w.b) && i < |w.b.top|
    ensures Wellformed(r.b) && r.b.top == w.b.top && |r.b.entries| == |w.b.entries|
  {
    if w.b.top[i].None? || i !in w.left then w
    else
      var e := w.b.entries[w.b.top[i].value];
      Sweep(w.b.(entries := w.b.entries[w.b.top[i].value := e.(favored := true)],
                 queuedFavored := w.b.queuedFavored + 1,
                 pendingFavored := w.b.pendingFavored + (if e.wasFuzzed then 0 else 1)),
            w.left - (if e.mini.Some? then e.mini.value else {}))
  }

  function CullUpTo(w: Sweep, n: nat): (r: Sweep)
    requires Wellformed(w.b) && n <= |w.b.top|
    ensures Wellformed(r.b) && r.b.top == w.b.top && |r.b.entries| == |w.b.entries|
  {
    if n == 0 then w else CullByte(CullUpTo(w, n - 1), n - 1)
  }

  function StartCull(b: Book): Sweep {
    Sweep(b.(entries := ClearFavored(b.entries), scoreChanged := false, queuedFavored := 0, pendingFavored := 0),
          AllBytes(|b.top|))
  }

  function AllBytes(n: nat): (r: set<nat>)
    ensures forall i :: i in r <==> 0 <= i < n
  {
    if n == 0 then {} else AllBytes(n - 1) + {n - 1}
  }

  function Cull(b: Book): Book
    requires Wellformed(b)
  {
    if !b.scoreChanged then b else CullUpTo(StartCull(b), |b.top|).b
  }

  // ----- Adding and fuzzing -----

  function Add(b: Book, len: nat): Book {
    b.(entries := b.entries + [Entry(0, len, false, false, 0, None)], pendingNotFuzzed := b.pendingNotFuzzed + 1)
  }

  /** The end of fuzzing an entry; `counts` says that no stop was requested and the entry
      passed calibration. */
  function Finish(b: Book, q: nat, counts: bool): Book
    requires q < |b.entries|
  {
    if !counts || b.entries[q].wasFuzzed then b
    else b.(entries := b.entries[q := b.entries[q].(wasFuzzed := true)],
            pendingNotFuzzed := b.pendingNotFuzzed - 1,
            pendingFavored := b.pendingFavored - (if b.entries[q].favored then 1 else 0))
  }

  // ----- Reference counts -----

  /** How many bytes of the map entry `e` is the best for. */
  function Wins(top: seq<Option<nat>>, e: nat): nat {
    if top == [] then 0
    else Wins(top[..|top| - 1], e) + (if top[|top| - 1] == Some(e) then 1 else 0)
  }

  lemma {:induction false} WinsUpdate(top: seq<Option<nat>>, i: nat, v: Option<nat>, e: nat)
    requires i < |top|
    ensures Wins(top[i := v], e) ==
            Wins(top, e) - (if top[i] == Some(e) then 1 else 0) + (if v == Some(e) then 1 else 0)
  {
    var n := |top| - 1;
    if i == n {
      assert top[i := v][..n] == top[..n];
    } else {
      WinsUpdate(top[..n], i, v, e);
      assert top[i := v][..n] == top[..n][i := v];
    }
  }

  lemma {:induction false} WinnerWins(top: seq<Option<nat>>, i: nat, e: nat)
    requires i < |top| && top[i] == Some(e)
    ensures Wins(top, e) > 0
  {
    var n := |top| - 1;
    if i < n {
      WinnerWins(top[..n], i, e);
    }
  }

  /** An entry's references are the bytes it wins, and its compact trace is kept exactly while
      there are any. */
  predicate RefsOk(b: Book, e: nat)
    requires e < |b.entries|
  {
    b.entries[e].tcRef == Wins(b.top, e) && (b.entries[e].mini.Some? <==> b.entries[e].tcRef > 0)
  }

  ghost predicate RefInv(b: Book) {
    Wellformed(b) && forall e :: 0 <= e < |b.entries| ==> RefsOk(b, e)
  }

  lemma ScoreByteKeepsRefs(b: Book, q: nat, trace: set<nat>, i: nat)
    requires RefInv(b) && q < |b.entries| && i < |b.top|
    ensures RefInv(ScoreByte(b, q, trace, i))
  {
    var r := ScoreByte(b, q, trace, i);
    if i in trace && Beats(b, q, i) {
      forall e | 0 <= e < |b.entries|
        ensures RefsOk(r, e)
      {
        assert RefsOk(b, e);
        WinsUpdate(b.top, i, Some(q), e);
        if b.top[i] == Some(e) {
          WinnerWins(b.top, i, e);
        }
      }
    }
  }

  lemma {:induction false} ScoreUpToKeepsRefs(b: Book, q: nat, trace: set<nat>, n: nat)
    requires RefInv(b) && q < |b.entries| && n <= |b.top|
    ensures RefInv(ScoreUpTo(b, q, trace, n))
  {
    if n > 0 {
      ScoreUpToKeepsRefs(b, q, trace, n - 1);
      ScoreByteKeepsRefs(ScoreUpTo(b, q, trace, n - 1), q, trace, n - 1);
    }
  }

  /** Any scoring, also of an entry that is already scored, keeps the reference counts exact. */
  lemma ScoreKeepsRefs(b: Book, q: nat, us: nat, len: nat, trace: set<nat>)
    requires RefInv(b) && q < |b.entries|
    ensures RefInv(Score(b, q, us, len, trace))
  {
    var r := Remeasured(b, q, us, len);
    forall e | 0 <= e < |r.entries|
      ensures RefsOk(r, e)
    {
      assert RefsOk(b, e);
    }
    ScoreUpToKeepsRefs(r, q, trace, |b.top|);
  }

  // ----- The best entry for each byte -----

  /** What scoring leaves alone in an entry. */
  predicate SameMeasure(d: Entry, e: Entry) {
    d.execUs == e.execUs && d.len == e.len && d.wasFuzzed == e.wasFuzzed && d.favored == e.favored
  }

  /** What a scoring does to the first `n` bytes, told without the loop: the newcomer takes
      exactly the bytes it hits on which nobody was better. */
  ghost predicate Took(b: Book, r: Book, q: nat, trace: set<nat>, n: nat)
    requires q < |b.entries| && n <= |b.top| && Wellformed(b)
  {
    && |r.entries| == |b.entries| && |r.top| == |b.top|
    && (forall e :: 0 <= e < |b.entries| ==> SameMeasure(b.entries[e], r.entries[e]))
    && (forall i :: 0 <= i < |b.top| ==> r.top[i] == if i < n && i in trace && Beats(b, q, i) then Some(q) else b.top[i])
    && r.queuedFavored == b.queuedFavored && r.pendingFavored == b.pendingFavored && r.pendingNotFuzzed == b.pendingNotFuzzed
    && (!r.scoreChanged ==> r.top == b.top && !b.scoreChanged)
  }

  lemma {:induction false} ScoreTakes(b: Book, q: nat, trace: set<nat>, n: nat)
    requires q < |b.entries| && n <= |b.top| && Wellformed(b)
    ensures Took(b, ScoreUpTo(b, q, trace, n), q, trace, n)
  {
    if n == 0 {
      TookNothing(b, q, trace);
    } else {
      ScoreTakes(b, q, trace, n - 1);
      ScoreByteTakes(b, q, trace, n);
    }
  }

  lemma TookNothing(b: Book, q: nat, trace: set<nat>)
    requires q < |b.entries| && Wellformed(b)
    ensures Took(b, b, q, trace, 0)
  {
  }

  lemma ScoreByteTakes(b: Book, q: nat, trace: set<nat>, n: nat)
    requires q < |b.entries| && 0 < n <= |b.top| && Wellformed(b)
    requires Took(b, ScoreUpTo(b, q, trace, n - 1), q, trace, n - 1)
    ensures Took(b, ScoreUpTo(b, q, trace, n), q, trace, n)
  {
    var r := ScoreUpTo(b, q, trace, n - 1);
    assert SameMeasure(b.entries[q], r.entries[q]);
    assert r.top[n - 1] == b.top[n - 1];
    assert Beats(r, q, n - 1) == Beats(b, q, n - 1);
    var t := ScoreByte(r, q, trace, n - 1);
    forall e | 0 <= e < |b.entries|
      ensures SameMeasure(b.entries[e], t.entries[e])
    {
      assert SameMeasure(b.entries[e], r.entries[e]);
    }
  }

  /** `hits` gives the bytes each entry hits whenever it runs. The winners hit the bytes they
      win, and the compact traces that are kept are those of their entries. */
  ghost predicate HitInv(b: Book, hits: nat -> set<nat>) {
    && Wellformed(b)
    && (forall i :: 0 <= i < |b.top| && b.top[i].Some? ==> i in hits(b.top[i].value))
    && (forall e :: 0 <= e < |b.entries| && b.entries[e].mini.Some? ==> b.entries[e].mini.value == hits(e))
  }

  lemma {:induction false} ScoreUpToKeepsHits(b: Book, q: nat, hits: nat -> set<nat>, n: nat)
    requires HitInv(b, hits) && q < |b.entries| && n <= |b.top|
    ensures HitInv(ScoreUpTo(b, q, hits(q), n), hits)
  {
    if n > 0 {
      ScoreUpToKeepsHits(b, q, hits, n - 1);
    }
  }

  lemma ScoreKeepsHits(b: Book, q: nat, us: nat, len: nat, hits: nat -> set<nat>)
    requires HitInv(b, hits) && q < |b.entries|
    ensures HitInv(Score(b, q, us, len, hits(q)), hits)
  {
    ScoreUpToKeepsHits(Remeasured(b, q, us, len), q, hits, |b.top|);
  }

  /** Byte `i` has a winner, among the scored entries, no worse than entry `e`. */
  predicate NoWorse(b: Book, i: nat, e: nat, scored: set<nat>)
    requires i < |b.top| && e < |b.entries| && Wellformed(b)
  {
    b.top[i].Some? && b.top[i].value in scored && Factor(b.entries[b.top[i].value]) <= Factor(b.entries[e])
  }

  /** Every byte a scored entry hits has a winner with the least factor among those entries. */
  ghost predicate BestInv(b: Book, hits: nat -> set<nat>, scored: set<nat>) {
    && Wellformed(b)
    && (forall e :: e in scored ==> e < |b.entries|)
    && (forall i :: 0 <= i < |b.top| && b.top[i].Some? ==> b.top[i].value in scored)
    && (forall i, e :: 0 <= i < |b.top| && e in scored && i in hits(e) ==> NoWorse(b, i, e, scored))
  }

  /** The bytes entry `q` already held must not have become another entry's to win. A caller
      knows this when the entry is new, or when its factor did not grow. */
  ghost predicate KeepsItsBytes(b: Book, hits: nat -> set<nat>, scored: set<nat>, q: nat, factor: nat)
    requires forall e :: e in scored ==> e < |b.entries|
  {
    forall i, e :: 0 <= i < |b.top| && b.top[i] == Some(q) && e in scored && e != q && i in hits(e) ==>
      factor <= Factor(b.entries[e])
  }

  /** Exactly when a scoring leaves every byte with its best entry, for every book, entry and
      new measurement. */
  lemma ScoringGivesBestIff(b: Book, q: nat, us: nat, len: nat, hits: nat -> set<nat>, scored: set<nat>)
    requires HitInv(b, hits) && BestInv(b, hits, scored) && q < |b.entries|
    ensures BestInv(Score(b, q, us, len, hits(q)), hits, scored + {q}) <==> KeepsItsBytes(b, hits, scored, q, us * len)
  {
    var m := Remeasured(b, q, us, len);
    var r := Score(b, q, us, len, hits(q));
    ScoreTakes(m, q, hits(q), |b.top|);
    if KeepsItsBytes(b, hits, scored, q, us * len) {
      forall i, e | 0 <= i < |r.top| && e in scored + {q} && i in hits(e)
        ensures NoWorse(r, i, e, scored + {q})
      {
        BestByte(b, q, us, len, hits, scored, i, e);
      }
    } else {
      var i, e :| 0 <= i < |b.top| && b.top[i] == Some(q) && e in scored && e != q && i in hits(e) && us * len > Factor(b.entries[e]);
      assert Beats(m, q, i);
      assert r.top[i] == Some(q);
      assert SameMeasure(m.entries[e], r.entries[e]) && SameMeasure(m.entries[q], r.entries[q]);
      assert !NoWorse(r, i, e, scored + {q});
    }
  }

  lemma BestByte(b: Book, q: nat, us: nat, len: nat, hits: nat -> set<nat>, scored: set<nat>, i: nat, e: nat)
    requires HitInv(b, hits) && BestInv(b, hits, scored) && q < |b.entries|
    requires KeepsItsBytes(b, hits, scored, q, us * len)
    requires i < |b.top| && e in scored + {q} && i in hits(e)
    ensures NoWorse(Score(b, q, us, len, hits(q)), i, e, scored + {q})
  {
    var m := Remeasured(b, q, us, len);
    var r := Score(b, q, us, len, hits(q));
    ScoreTakes(m, q, hits(q), |b.top|);
    assert SameMeasure(m.entries[e], r.entries[e]) && SameMeasure(m.entries[q], r.entries[q]);
    assert Factor(r.entries[q]) == us * len;
    if e != q {
      assert NoWorse(b, i, e, scored);
    }
    if r.top[i].Some? {
      assert SameMeasure(m.entries[r.top[i].value], r.entries[r.top[i].value]);
    }
  }

  /** What the fuzzer does keeps the best entries: it scores an entry once after calibrating
      it, and again after trimming has made it shorter. */
  lemma ScoringKeepsBest(b: Book, q: nat, us: nat, len: nat, hits: nat -> set<nat>, scored: set<nat>)
    requires HitInv(b, hits) && BestInv(b, hits, scored) && q < |b.entries|
    requires q in scored ==> us * len <= Factor(b.entries[q])
    ensures BestInv(Score(b, q, us, len, hits(q)), hits, scored + {q})
  {
    forall i, e | 0 <= i < |b.top| && b.top[i] == Some(q) && e in scored && e != q && i in hits(e)
      ensures us * len <= Factor(b.entries[e])
    {
      assert NoWorse(b, i, e, scored);
    }
    ScoringGivesBestIff(b, q, us, len, hits, scored);
  }

  /** A winner that is measured again and found slower would keep its byte all the same. Neither
      of the places that score an entry does this to one that was scored before. */
  lemma SlowerWinnerKeepsByte()
    ensures var hits := (e: nat) => {0};
            var b := Book([Entry(1, 1, false, false, 1, Some({0})), Entry(2, 1, false, false, 0, None)], [Some(0)], false, 0, 0, 2);
            HitInv(b, hits) && BestInv(b, hits, {0, 1}) && !BestInv(Score(b, 0, 3, 1, {0}), hits, {0, 1})
  {
    var hits := (e: nat) => {0};
    var b := Book([Entry(1, 1, false, false, 1, Some({0})), Entry(2, 1, false, false, 0, None)], [Some(0)], false, 0, 0, 2);
    assert !KeepsItsBytes(b, hits, {0, 1}, 0, 3 * 1) by {
      assert b.top[0] == Some(0) && Factor(b.entries[1]) == 2 && 0 in hits(1);
    }
    assert {0, 1} + {0} == {0, 1};
    ScoringGivesBestIff(b, 0, 3, 1, hits, {0, 1});
  }

  // ----- Counters -----

  predicate Favored(e: Entry) { e.favored }
  predicate Unfuzzed(e: Entry) { !e.wasFuzzed }
  predicate FavoredUnfuzzed(e: Entry) { e.favored && !e.wasFuzzed }

  function Count(es: seq<Entry>, p: Entry -> bool): nat {
    if es == [] then 0 else Count(es[..|es| - 1], p) + Bits.One(p(es[|es| - 1]))
  }

  lemma {:induction false} CountUpdate(es: seq<Entry>, k: nat, e: Entry, p: Entry -> bool)
    requires k < |es|
    ensures Count(es[k := e], p) == Count(es, p) - Bits.One(p(es[k])) + Bits.One(p(e))
  {
    var n := |es| - 1;
    if k == n {
      assert es[k := e][..n] == es[..n];
    } else {
      CountUpdate(es[..n], k, e, p);
      assert es[k := e][..n] == es[..n][k := e];
    }
  }

  lemma {:induction false} CountSame(es: seq<Entry>, ds: seq<Entry>, p: Entry -> bool)
    requires |es| == |ds| && forall i :: 0 <= i < |es| ==> p(es[i]) == p(ds[i])
    ensures Count(es, p) == Count(ds, p)
  {
    if es != [] {
      CountSame(es[..|es| - 1], ds[..|ds| - 1], p);
    }
  }

  lemma {:induction false} CountNone(es: seq<Entry>, p: Entry -> bool)
    requires forall i :: 0 <= i < |es| ==> !p(es[i])
    ensures Count(es, p) == 0
  {
    if es != [] {
      CountNone(es[..|es| - 1], p);
    }
  }

  /** The three counters are exact; being counts they are never negative. */
  ghost predicate CountersExact(b: Book) {
    && b.queuedFavored == Count(b.entries, Favored)
    && b.pendingFavored == Count(b.entries, FavoredUnfuzzed)
    && b.pendingNotFuzzed == Count(b.entries, Unfuzzed)
  }

  lemma AddKeepsCounters(b: Book, len: nat)
    requires CountersExact(b)
    ensures CountersExact(Add(b, len))
  {
    var r := Add(b, len);
    assert r.entries[..|r.entries| - 1] == b.entries;
  }

  lemma FinishKeepsCounters(b: Book, q: nat, counts: bool)
    requires CountersExact(b) && q < |b.entries|
    ensures CountersExact(Finish(b, q, counts))
  {
    var e := b.entries[q].(wasFuzzed := true);
    CountUpdate(b.entries, q, e, Favored);
    CountUpdate(b.entries, q, e, FavoredUnfuzzed);
    CountUpdate(b.entries, q, e, Unfuzzed);
  }

  lemma ScoreKeepsCounters(b: Book, q: nat, us: nat, len: nat, trace: set<nat>)
    requires CountersExact(b) && q < |b.entries| && Wellformed(b)
    ensures CountersExact(Score(b, q, us, len, trace))
  {
    var m := Remeasured(b, q, us, len);
    var r := Score(b, q, us, len, trace);
    ScoreTakes(m, q, trace, |b.top|);
    forall i | 0 <= i < |b.entries|
      ensures Favored(b.entries[i]) == Favored(r.entries[i])
      ensures FavoredUnfuzzed(b.entries[i]) == FavoredUnfuzzed(r.entries[i])
      ensures Unfuzzed(b.entries[i]) == Unfuzzed(r.entries[i])
    {
      assert SameMeasure(m.entries[i], r.entries[i]);
    }
    CountSame(b.entries, r.entries, Favored);
    CountSame(b.entries, r.entries, FavoredUnfuzzed);
    CountSame(b.entries, r.entries, Unfuzzed);
  }

  // ----- The cover -----

  /** Some favored entry hits byte `i`. */
  ghost predicate CoveredByte(b: Book, hits: nat -> set<nat>, i: nat) {
    exists e :: 0 <= e < |b.entries| && b.entries[e].favored && i in hits(e)
  }

  /** Every byte that has a best entry is hit by some favored entry. */
  ghost predicate Covers(b: Book, hits: nat -> set<nat>) {
    forall i :: 0 <= i < |b.top| && b.top[i].Some? ==> CoveredByte(b, hits, i)
  }

  /** The greedy loop: a byte is off the list exactly when a favored entry hits it. */
  ghost predicate SweepInv(w: Sweep, hits: nat -> set<nat>) {
    && RefInv(w.b) && HitInv(w.b, hits) && CountersExact(w.b)
    && (forall i :: 0 <= i < |w.b.top| ==> (i in w.left <==> !CoveredByte(w.b, hits, i)))
  }

  /** The first `n` bytes are off the list if they have a best entry. */
  ghost predicate DoneBelow(w: Sweep, n: nat) {
    n <= |w.b.top| && forall i :: 0 <= i < n && w.b.top[i].Some? ==> i !in w.left
  }

  lemma StartSweep(b: Book, hits: nat -> set<nat>)
    requires RefInv(b) && HitInv(b, hits) && CountersExact(b)
    ensures SweepInv(StartCull(b), hits)
  {
    var w := StartCull(b);
    forall e | 0 <= e < |b.entries|
      ensures RefsOk(w.b, e)
    {
      assert RefsOk(b, e);
    }
    CountNone(w.b.entries, Favored);
    CountNone(w.b.entries, FavoredUnfuzzed);
    CountSame(b.entries, w.b.entries, Unfuzzed);
  }

  lemma CullByteKeepsSweep(w: Sweep, hits: nat -> set<nat>, i: nat)
    requires SweepInv(w, hits) && i < |w.b.top|
    ensures SweepInv(CullByte(w, i), hits)
    ensures DoneBelow(w, i) ==> DoneBelow(CullByte(w, i), i + 1)
  {
    if w.b.top[i].Some? && i in w.left {
      var e, b := w.b.top[i].value, w.b;
      var d := b.entries[e].(favored := true);
      var r := CullByte(w, i);
      assert RefsOk(b, e);
      WinnerWins(b.top, i, e);
      assert b.entries[e].mini == Some(hits(e));
      assert !b.entries[e].favored by {
        assert !CoveredByte(b, hits, i);
      }
      CountUpdate(b.entries, e, d, Favored);
      CountUpdate(b.entries, e, d, FavoredUnfuzzed);
      CountUpdate(b.entries, e, d, Unfuzzed);
      forall k | 0 <= k < |b.entries|
        ensures RefsOk(r.b, k)
      {
        assert RefsOk(b, k);
      }
      forall j | 0 <= j < |b.top|
        ensures CoveredByte(r.b, hits, j) <==> CoveredByte(b, hits, j) || j in hits(e)
      {
        MoreFavored(b, r.b, hits, e, j);
      }
    }
  }

  lemma MoreFavored(b: Book, r: Book, hits: nat -> set<nat>, e: nat, j: nat)
    requires e < |b.entries| && r.entries == b.entries[e := b.entries[e].(favored := true)]
    ensures CoveredByte(r, hits, j) <==> CoveredByte(b, hits, j) || j in hits(e)
  {
    if CoveredByte(b, hits, j) {
      var k :| 0 <= k < |b.entries| && b.entries[k].favored && j in hits(k);
      assert r.entries[k].favored;
    }
    if j in hits(e) {
      assert r.entries[e].favored;
    }
    if CoveredByte(r, hits, j) {
      var k :| 0 <= k < |r.entries| && r.entries[k].favored && j in hits(k);
      assert k == e || b.entries[k].favored;
    }
  }

  /** The state of the loop before byte `n`. */
  ghost predicate SweepAt(w: Sweep, hits: nat -> set<nat>, n: nat) {
    SweepInv(w, hits) && DoneBelow(w, n)
  }

  lemma SweepNext(w: Sweep, next: Sweep, hits: nat -> set<nat>, i: nat)
    requires SweepAt(w, hits, i) && i < |w.b.top| && next == CullByte(w, i)
    ensures SweepAt(next, hits, i + 1)
  {
    CullByteKeepsSweep(w, hits, i);
  }

  lemma {:induction false} CullUpToCovers(w: Sweep, hits: nat -> set<nat>, n: nat)
    requires SweepAt(w, hits, 0) && n <= |w.b.top|
    ensures SweepAt(CullUpTo(w, n), hits, n)
    decreases n
  {
    if n > 0 {
      CullUpToCovers(w, hits, n - 1);
      SweepNext(CullUpTo(w, n - 1), CullUpTo(w, n), hits, n - 1);
    }
  }

  /** After culling, the favored entries cover every byte that has a best entry, and the
      counters are exact. */
  lemma CullCovers(b: Book, hits: nat -> set<nat>)
    requires RefInv(b) && HitInv(b, hits) && CountersExact(b) && (!b.scoreChanged ==> Covers(b, hits))
    ensures var r := Cull(b); RefInv(r) && HitInv(r, hits) && CountersExact(r) && Covers(r, hits)
  {
    if b.scoreChanged {
      StartSweep(b, hits);
      CullUpToCovers(StartCull(b), hits, |b.top|);
    }
  }
}
