/** What each operation of the bookkeeping does to the whole book, told without its loops. */
module CoverageLaws {
  import opened Options
  import opened Coverage

  // ----- Adding and fuzzing -----

  ghost predicate AddLaw(b: Book, r: Book, len: nat) {
    && |r.entries| == |b.entries| + 1
    && (forall e :: 0 <= e < |b.entries| ==> r.entries[e] == b.entries[e])
    && (var last := r.entries[|b.entries|];
        last.execUs == 0 && last.len == len && !last.wasFuzzed && !last.favored && last.tcRef == 0 && last.mini == None)
    && r.pendingNotFuzzed == b.pendingNotFuzzed + 1
    && r.top == b.top && r.scoreChanged == b.scoreChanged
    && r.queuedFavored == b.queuedFavored && r.pendingFavored == b.pendingFavored
  }

  lemma AddIsLawful(b: Book, len: nat)
    ensures AddLaw(b, Add(b, len), len)
  {
  }

  /** The entry is fuzzed afterwards if this end counts, and leaves the pending counts if it was
      not fuzzed before; nothing else changes. */
  ghost predicate FinishLaw(b: Book, r: Book, q: nat, counts: bool)
    requires q < |b.entries|
  {
    var leaves := counts && !b.entries[q].wasFuzzed;
    && |r.entries| == |b.entries|
    && (forall e :: 0 <= e < |b.entries| && e != q ==> r.entries[e] == b.entries[e])
    && r.entries[q].wasFuzzed == (b.entries[q].wasFuzzed || counts)
    && r.entries[q].(wasFuzzed := b.entries[q].wasFuzzed) == b.entries[q]
    && r.pendingNotFuzzed == b.pendingNotFuzzed - (if leaves then 1 else 0)
    && r.pendingFavored == b.pendingFavored - (if leaves && b.entries[q].favored then 1 else 0)
    && r.top == b.top && r.scoreChanged == b.scoreChanged && r.queuedFavored == b.queuedFavored
  }

  lemma FinishIsLawful(b: Book, q: nat, counts: bool)
    requires q < |b.entries|
    ensures FinishLaw(b, Finish(b, q, counts), q, counts)
  {
  }

  // ----- Scoring -----

  /** The newcomer hits the byte, and nobody is quicker times shorter on it; ties are its own. */
  predicate Takes(b: Book, q: nat, trace: set<nat>, i: nat)
    requires q < |b.entries| && i < |b.top| && Wellformed(b)
  {
    i in trace && (b.top[i].None? || NoSlower(b.entries[q], b.entries[b.top[i].value]))
  }

  predicate NoSlower(d: Entry, e: Entry) {
    d.execUs * d.len <= e.execUs * e.len
  }

  /** The newcomer takes one of the first `n` bytes. */
  predicate TakesBelow(b: Book, q: nat, trace: set<nat>, n: nat)
    requires q < |b.entries| && n <= |b.top| && Wellformed(b)
  {
    exists i :: 0 <= i < n && Takes(b, q, trace, i)
  }

  /** Compact traces are only ever dropped, but the newcomer may get its own. */
  predicate TraceFrom(d: Entry, e: Entry, own: bool, trace: set<nat>) {
    e.mini == None || e.mini == d.mini || (own && e.mini == Some(trace))
  }

  /** With the references exact, before and afterwards, this settles the whole book, but for which
      of two traces the newcomer holds if it hits other bytes than before. */
  ghost predicate ScoreLaw(b: Book, r: Book, q: nat, trace: set<nat>, n: nat)
    requires q < |b.entries| && n <= |b.top| && Wellformed(b)
  {
    && |r.entries| == |b.entries| && |r.top| == |b.top|
    && (forall e :: 0 <= e < |b.entries| ==> SameMeasure(b.entries[e], r.entries[e]))
    && (forall i :: 0 <= i < |b.top| ==> r.top[i] == if i < n && Takes(b, q, trace, i) then Some(q) else b.top[i])
    && r.queuedFavored == b.queuedFavored && r.pendingFavored == b.pendingFavored && r.pendingNotFuzzed == b.pendingNotFuzzed
    && (r.scoreChanged <==> b.scoreChanged || TakesBelow(b, q, trace, n))
    && (forall e :: 0 <= e < |b.entries| ==> TraceFrom(b.entries[e], r.entries[e], e == q, trace))
    && (RefInv(b) ==> RefInv(r))
  }

  lemma {:induction false} TracesKept(b: Book, q: nat, trace: set<nat>, n: nat, e: nat)
    requires q < |b.entries| && n <= |b.top| && Wellformed(b) && e < |b.entries|
    ensures TraceFrom(b.entries[e], ScoreUpTo(b, q, trace, n).entries[e], e == q, trace)
  {
    if n > 0 {
      TracesKept(b, q, trace, n - 1, e);
    }
  }

  lemma {:induction false} ChangedIff(b: Book, q: nat, trace: set<nat>, n: nat)
    requires q < |b.entries| && n <= |b.top| && Wellformed(b)
    ensures ScoreUpTo(b, q, trace, n).scoreChanged <==> b.scoreChanged || TakesBelow(b, q, trace, n)
  {
    if n > 0 {
      ChangedIff(b, q, trace, n - 1);
      ScoreTakes(b, q, trace, n - 1);
      var r := ScoreUpTo(b, q, trace, n - 1);
      assert SameMeasure(b.entries[q], r.entries[q]) && r.top[n - 1] == b.top[n - 1];
      if b.top[n - 1].Some? {
        var w := b.top[n - 1].value;
        assert SameMeasure(b.entries[w], r.entries[w]);
      }
      assert Beats(r, q, n - 1) == Beats(b, q, n - 1);
      TakesMore(b, q, trace, n - 1);
    }
  }

  lemma TakesMore(b: Book, q: nat, trace: set<nat>, m: nat)
    requires q < |b.entries| && m < |b.top| && Wellformed(b)
    ensures TakesBelow(b, q, trace, m + 1) <==> TakesBelow(b, q, trace, m) || Takes(b, q, trace, m)
  {
    if TakesBelow(b, q, trace, m) {
      var i :| 0 <= i < m && Takes(b, q, trace, i);
      assert 0 <= i < m + 1;
    }
  }

  lemma ScoreIsLawful(b: Book, q: nat, trace: set<nat>, n: nat)
    requires q < |b.entries| && n <= |b.top| && Wellformed(b)
    ensures ScoreLaw(b, ScoreUpTo(b, q, trace, n), q, trace, n)
  {
    ScoreTakes(b, q, trace, n);
    ChangedIff(b, q, trace, n);
    forall e | 0 <= e < |b.entries|
      ensures TraceFrom(b.entries[e], ScoreUpTo(b, q, trace, n).entries[e], e == q, trace)
    {
      TracesKept(b, q, trace, n, e);
    }
    if RefInv(b) {
      ScoreUpToKeepsRefs(b, q, trace, n);
    }
  }

  // ----- Culling -----

  /** The bytes that the winner of byte `i` takes off the list. */
  function WinnerTrace(b: Book, i: nat): set<nat>
    requires Wellformed(b)
  {
    if i < |b.top| && b.top[i].Some? && b.entries[b.top[i].value].mini.Some? then b.entries[b.top[i].value].mini.value else {}
  }

  /** A chosen byte below byte `i` whose winner hits byte `i` too. */
  ghost predicate Spared(b: Book, chosen: set<nat>, i: nat)
    requires Wellformed(b)
  {
    exists j :: j in chosen && j < i && i in WinnerTrace(b, j)
  }

  ghost predicate ChosenRightly(b: Book, chosen: set<nat>, i: nat)
    requires Wellformed(b) && i < |b.top|
  {
    i in chosen <==> b.top[i].Some? && !Spared(b, chosen, i)
  }

  ghost predicate ChosenBelow(b: Book, chosen: set<nat>, n: nat)
    requires Wellformed(b) && n <= |b.top|
  {
    && (forall i :: i in chosen ==> i < n)
    && (forall i :: 0 <= i < n ==> ChosenRightly(b, chosen, i))
  }

  predicate Pending(b: Book, i: nat)
    requires Wellformed(b)
  {
    i < |b.top| && b.top[i].Some? && !b.entries[b.top[i].value].wasFuzzed
  }

  function PendingOf(b: Book, chosen: set<nat>): set<nat>
    requires Wellformed(b)
  {
    set i | i in chosen && Pending(b, i)
  }

  predicate WinsOne(b: Book, chosen: set<nat>, e: nat) {
    exists i :: i in chosen && i < |b.top| && b.top[i] == Some(e)
  }

  ghost predicate FavoredRightly(d: Entry, r: Entry, b: Book, chosen: set<nat>, e: nat) {
    r == d.(favored := WinsOne(b, chosen, e))
  }

  /** `r` is `b` with the winners of the chosen bytes favored, and counted. */
  ghost predicate FavoredBy(b: Book, r: Book, chosen: set<nat>)
    requires Wellformed(b)
  {
    && |r.entries| == |b.entries| && r.top == b.top && !r.scoreChanged && r.pendingNotFuzzed == b.pendingNotFuzzed
    && (forall e :: 0 <= e < |b.entries| ==> FavoredRightly(b.entries[e], r.entries[e], b, chosen, e))
    && r.queuedFavored == |chosen| && r.pendingFavored == |PendingOf(b, chosen)|
  }

  /** The greedy rule, for any traces: a byte is chosen exactly if it has a winner and no chosen
      byte below it has a winner that hits it; the winners of the chosen bytes, and no other
      entries, are favored. */
  ghost predicate CullLaw(b: Book, r: Book, chosen: set<nat>)
    requires Wellformed(b)
  {
    if b.scoreChanged then ChosenBelow(b, chosen, |b.top|) && FavoredBy(b, r, chosen) else r == b
  }

  ghost predicate CullAt(b: Book, w: Sweep, chosen: set<nat>, n: nat)
    requires Wellformed(b) && n <= |b.top|
  {
    && ChosenBelow(b, chosen, n) && FavoredBy(b, w.b, chosen)
    && (forall i :: n <= i < |b.top| ==> LeftRightly(b, chosen, w.left, i))
  }

  ghost predicate LeftRightly(b: Book, chosen: set<nat>, left: set<nat>, i: nat)
    requires Wellformed(b)
  {
    i in left <==> !Spared(b, chosen, i)
  }

  lemma CullSkips(b: Book, w: Sweep, chosen: set<nat>, n: nat)
    requires Wellformed(b) && n < |b.top| && CullAt(b, w, chosen, n) && (b.top[n].None? || n !in w.left)
    ensures CullAt(b, w, chosen, n + 1)
  {
    assert LeftRightly(b, chosen, w.left, n);
    assert ChosenRightly(b, chosen, n);
  }

  lemma SparedMore(b: Book, chosen: set<nat>, n: nat, i: nat)
    requires Wellformed(b) && n < |b.top| && (forall j :: j in chosen ==> j < n)
    ensures i <= n ==> Spared(b, chosen + {n}, i) == Spared(b, chosen, i)
    ensures i > n ==> Spared(b, chosen + {n}, i) == (Spared(b, chosen, i) || i in WinnerTrace(b, n))
  {
    var more := chosen + {n};
    assert n in more;
    if Spared(b, chosen, i) {
      var j :| j in chosen && j < i && i in WinnerTrace(b, j);
      assert j in more;
    }
    if Spared(b, more, i) {
      var j :| j in more && j < i && i in WinnerTrace(b, j);
      assert j in chosen || j == n;
    }
  }

  lemma FavoredMore(b: Book, r: Book, chosen: set<nat>, n: nat, t: Book)
    requires Wellformed(b) && n < |b.top| && b.top[n].Some? && n !in chosen && FavoredBy(b, r, chosen)
    requires var e := r.entries[b.top[n].value];
             t == r.(entries := r.entries[b.top[n].value := e.(favored := true)],
                     queuedFavored := r.queuedFavored + 1, pendingFavored := r.pendingFavored + (if e.wasFuzzed then 0 else 1))
    ensures FavoredBy(b, t, chosen + {n})
  {
    var more := chosen + {n};
    assert n in more;
    forall e | 0 <= e < |b.entries| ensures FavoredRightly(b.entries[e], t.entries[e], b, more, e) {
      assert FavoredRightly(b.entries[e], r.entries[e], b, chosen, e);
      if i :| i in chosen && i < |b.top| && b.top[i] == Some(e) {
        assert i in more;
      }
    }
    assert FavoredRightly(b.entries[b.top[n].value], r.entries[b.top[n].value], b, chosen, b.top[n].value);
    PendingMore(b, chosen, n);
  }

  lemma PendingMore(b: Book, chosen: set<nat>, n: nat)
    requires Wellformed(b) && n < |b.top| && n !in chosen
    ensures |PendingOf(b, chosen + {n})| == |PendingOf(b, chosen)| + (if Pending(b, n) then 1 else 0)
  {
    var p := PendingOf(b, chosen);
    assert PendingOf(b, chosen + {n}) == if Pending(b, n) then p + {n} else p;
  }

  lemma ChosenMore(b: Book, chosen: set<nat>, n: nat)
    requires Wellformed(b) && n < |b.top| && ChosenBelow(b, chosen, n) && b.top[n].Some? && !Spared(b, chosen, n)
    ensures ChosenBelow(b, chosen + {n}, n + 1)
  {
    forall i | 0 <= i < n + 1 ensures ChosenRightly(b, chosen + {n}, i) {
      SparedMore(b, chosen, n, i);
      assert i < n ==> ChosenRightly(b, chosen, i);
    }
  }

  lemma LeftMore(b: Book, chosen: set<nat>, n: nat, left: set<nat>)
    requires Wellformed(b) && n < |b.top| && ChosenBelow(b, chosen, n)
    requires forall i :: n <= i < |b.top| ==> LeftRightly(b, chosen, left, i)
    ensures forall i :: n + 1 <= i < |b.top| ==> LeftRightly(b, chosen + {n}, left - WinnerTrace(b, n), i)
  {
    forall i | n + 1 <= i < |b.top| ensures LeftRightly(b, chosen + {n}, left - WinnerTrace(b, n), i) {
      SparedMore(b, chosen, n, i);
      assert LeftRightly(b, chosen, left, i);
    }
  }

  lemma CullChooses(b: Book, w: Sweep, chosen: set<nat>, n: nat)
    requires Wellformed(b) && Wellformed(w.b) && n < |b.top| && CullAt(b, w, chosen, n) && b.top[n].Some? && n in w.left
    ensures CullAt(b, CullByte(w, n), chosen + {n}, n + 1)
  {
    FavoredMore(b, w.b, chosen, n, CullByte(w, n).b);
    assert LeftRightly(b, chosen, w.left, n);
    ChosenMore(b, chosen, n);
    LeftMore(b, chosen, n, w.left);
    assert CullByte(w, n).left == w.left - WinnerTrace(b, n);
  }

  ghost predicate GreedyTo(b: Book, w: Sweep, n: nat)
    requires Wellformed(b) && n <= |b.top|
  {
    exists chosen :: CullAt(b, w, chosen, n)
  }

  lemma CullTurn(b: Book, w: Sweep, next: Sweep, n: nat)
    requires Wellformed(b) && Wellformed(w.b) && n < |b.top| == |w.b.top| && GreedyTo(b, w, n) && next == CullByte(w, n)
    ensures GreedyTo(b, next, n + 1)
  {
    var chosen :| CullAt(b, w, chosen, n);
    if b.top[n].Some? && n in w.left {
      CullChooses(b, w, chosen, n);
    } else {
      CullSkips(b, w, chosen, n);
    }
  }

  lemma CullStarts(b: Book)
    requires Wellformed(b)
    ensures GreedyTo(b, StartCull(b), 0)
  {
    assert CullAt(b, StartCull(b), {}, 0);
  }

  lemma {:induction false} CullUpToIsGreedy(b: Book, start: Sweep, n: nat, end: Sweep)
    requires Wellformed(b) && Wellformed(start.b) && |start.b.top| == |b.top| && n <= |b.top|
    requires GreedyTo(b, start, 0) && end == CullUpTo(start, n)
    ensures GreedyTo(b, end, n)
    decreases n
  {
    if n > 0 {
      var w := CullUpTo(start, n - 1);
      CullUpToIsGreedy(b, start, n - 1, w);
      CullTurn(b, w, end, n - 1);
    }
  }

  lemma CullIsGreedy(b: Book) returns (chosen: set<nat>)
    requires Wellformed(b)
    ensures CullLaw(b, Cull(b), chosen)
  {
    CullStarts(b);
    CullUpToIsGreedy(b, StartCull(b), |b.top|, CullUpTo(StartCull(b), |b.top|));
    chosen :| CullAt(b, CullUpTo(StartCull(b), |b.top|), chosen, |b.top|);
  }

  ghost predicate CulledGreedily(b: Book, r: Book)
    requires Wellformed(b)
  {
    exists chosen :: CullLaw(b, r, chosen)
  }

  lemma CullIsLawful(b: Book)
    requires Wellformed(b)
    ensures CulledGreedily(b, Cull(b))
  {
    var chosen := CullIsGreedy(b);
  }
}
