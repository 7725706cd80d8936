/** The coverage map: has_new_bits a word at a time, against bytes and against history. */
module Bitmap {
  import opened Bits

  /** A hit byte that no earlier run has hit, in a range of the map. */
  ghost predicate NewTuple(trace: seq<Byte>, virgin: seq<Byte>, lo: nat, hi: nat)
    requires hi <= |trace| == |virgin|
  {
    exists i :: lo <= i < hi && trace[i] != 0 && virgin[i] == 255
  }

  /** A byte with a bit that is still set in the virgin map. */
  ghost predicate NewBits(trace: seq<Byte>, virgin: seq<Byte>, lo: nat, hi: nat)
    requires hi <= |trace| == |virgin|
  {
    exists i :: lo <= i < hi && OnBytes(And, trace[i], virgin[i]) != 0
  }

  ghost function Verdict(trace: seq<Byte>, virgin: seq<Byte>, lo: nat, hi: nat): nat
    requires hi <= |trace| == |virgin|
  {
    if NewTuple(trace, virgin, lo, hi) then 2 else if NewBits(trace, virgin, lo, hi) then 1 else 0
  }

  // ----- One word -----

  /** A hit byte is new in particular. */
  lemma PristineIsNew(t: Byte)
    ensures OnBytes(And, t, 255) == t
  {
    Pow256();
    AndAllOnes(t, 8);
  }

  /** The test on whole words finds out whether some byte has new bits. */
  lemma WordTest(trace: seq<Byte>, virgin: seq<Byte>, lo: nat, hi: nat)
    requires lo <= hi <= |trace| == |virgin|
    ensures var c, v := Word(trace[lo..hi]), Word(virgin[lo..hi]);
            c != 0 && Bitwise(And, c, v) != 0 <==> NewBits(trace, virgin, lo, hi)
  {
    var cs, vs := trace[lo..hi], virgin[lo..hi];
    var news := Bytewise(And, cs, vs);
    WordwiseIsBytewise(And, cs, vs);
    WordZero(news);
    WordZero(cs);
    if Word(news) != 0 {
      var k :| 0 <= k < |news| && news[k] != 0;
      assert OnBytes(And, trace[lo + k], virgin[lo + k]) != 0;
      if cs[k] == 0 {
        WithZero(vs[k]);
      }
    } else {
      forall i | lo <= i < hi
        ensures OnBytes(And, trace[i], virgin[i]) == 0
      {
        assert news[i - lo] == OnBytes(And, trace[i], virgin[i]);
      }
    }
  }

  lemma NewTupleIsNewBits(trace: seq<Byte>, virgin: seq<Byte>, lo: nat, hi: nat)
    requires hi <= |trace| == |virgin|
    ensures NewTuple(trace, virgin, lo, hi) ==> NewBits(trace, virgin, lo, hi)
  {
    if NewTuple(trace, virgin, lo, hi) {
      var i :| lo <= i < hi && trace[i] != 0 && virgin[i] == 255;
      PristineIsNew(trace[i]);
    }
  }

  lemma SameTuples(trace: seq<Byte>, now: seq<Byte>, before: seq<Byte>, lo: nat, hi: nat)
    requires lo <= hi <= |trace| == |now| == |before| && now[lo..hi] == before[lo..hi]
    ensures NewTuple(trace, now, lo, hi) <==> NewTuple(trace, before, lo, hi)
  {
    assert forall i :: lo <= i < hi ==> now[i] == now[lo..hi][i - lo];
    assert forall i :: lo <= i < hi ==> before[i] == before[lo..hi][i - lo];
  }

  /** The verdict on a longer range. */
  lemma VerdictJoins(trace: seq<Byte>, virgin: seq<Byte>, lo: nat, mid: nat, hi: nat)
    requires lo <= mid <= hi <= |trace| == |virgin|
    ensures NewTuple(trace, virgin, lo, hi) <==> NewTuple(trace, virgin, lo, mid) || NewTuple(trace, virgin, mid, hi)
    ensures NewBits(trace, virgin, lo, hi) <==> NewBits(trace, virgin, lo, mid) || NewBits(trace, virgin, mid, hi)
  {
  }

  /** Clearing a word's hit bits clears each byte's. */
  lemma WordClear(trace: seq<Byte>, virgin: seq<Byte>, k: nat)
    requires |trace| == |virgin| && k < |trace|
    ensures ToBytes(Bitwise(AndNot, Word(virgin), Word(trace)), |trace|)[k] == OnBytes(AndNot, virgin[k], trace[k])
  {
    WordwiseIsBytewise(AndNot, virgin, trace);
    BytesOfWord(Bytewise(AndNot, virgin, trace));
  }

  lemma NothingToClear(t: Byte, v: Byte)
    requires OnBytes(And, t, v) == 0
    ensures OnBytes(AndNot, v, t) == v
  {
    AndNotTakesAway(t, v);
  }

  /** Writes a word in the machine's byte order. */
  method StoreWord(a: array<Byte>, at: nat, w: nat, width: nat)
    requires at + width <= a.Length
    modifies a
    ensures forall k :: 0 <= k < a.Length ==> a[k] == if at <= k < at + width then ToBytes(w, width)[k - at] else old(a[k])
  {
    var bytes := ToBytes(w, width);
    for j := 0 to width
      invariant forall k :: 0 <= k < a.Length ==> a[k] == if at <= k < at + j then bytes[k - at] else old(a[k])
    {
      a[at + j] := bytes[j];
    }
  }

  /** Byte `k` of the virgin map after the word loop has reached byte `at`. */
  ghost predicate ClearedUpTo(now: seq<Byte>, before: seq<Byte>, trace: seq<Byte>, at: nat)
    requires |now| == |before| == |trace|
  {
    forall k :: 0 <= k < |now| ==> now[k] == if k < at then OnBytes(AndNot, before[k], trace[k]) else before[k]
  }

  /** The word at `at` is cleared or has nothing to clear: either way the bytes of the next
      word are done. */
  lemma ClearedNext(now: seq<Byte>, after: seq<Byte>, before: seq<Byte>, trace: seq<Byte>, at: nat, width: nat)
    requires |now| == |after| == |before| == |trace| && at + width <= |trace|
    requires ClearedUpTo(now, before, trace, at)
    requires (after == now && !NewBits(trace, before, at, at + width)) ||
             (forall k :: 0 <= k < |now| ==> after[k] == if at <= k < at + width then OnBytes(AndNot, before[k], trace[k]) else now[k])
    ensures ClearedUpTo(after, before, trace, at + width)
  {
    forall k | 0 <= k < |now|
      ensures after[k] == if k < at + width then OnBytes(AndNot, before[k], trace[k]) else before[k]
    {
      if at <= k < at + width && !NewBits(trace, before, at, at + width) {
        NothingToClear(trace[k], before[k]);
      }
    }
  }

  /** The word at `at`. `before` is the virgin map that the loop started from. */
  method TestWord(trace: array<Byte>, virgin: array<Byte>, at: nat, width: nat, was: nat, ghost before: seq<Byte>)
      returns (ret: nat)
    requires trace != virgin && trace.Length == virgin.Length == |before| && at + width <= trace.Length
    requires was == Verdict(trace[..], before, 0, at) && ClearedUpTo(virgin[..], before, trace[..], at)
    modifies virgin
    ensures ret == Verdict(trace[..], before, 0, at + width)
    ensures ClearedUpTo(virgin[..], before, trace[..], at + width)
  {
    ghost var cur, now := trace[..], virgin[..];
    ret := was;
    var next := at + width;
    var c, v := Word(trace[at..next]), Word(virgin[at..next]);
    assert trace[at..next] == cur[at..next] && virgin[at..next] == before[at..next];
    WordTest(cur, before, at, next);
    NewTupleIsNewBits(cur, before, at, next);
    VerdictJoins(cur, before, 0, at, next);
    SameTuples(cur, now, before, at, next);
    if c != 0 && Bitwise(And, c, v) != 0 {
      if ret < 2 {
        var pristine := AnyPristine(trace, virgin, at, next);
        ret := if pristine then 2 else 1;
      }
      ghost var clear := ToBytes(Bitwise(AndNot, v, c), width);
      forall k | at <= k < next ensures clear[k - at] == OnBytes(AndNot, before[k], cur[k]) {
        WordClear(cur[at..next], before[at..next], k - at);
      }
      StoreWord(virgin, at, Bitwise(AndNot, v, c), width);
    }
    ClearedNext(now, virgin[..], before, cur, at, width);
  }

  /** How many bytes a number of words take. */
  function SizeOf(words: nat, width: nat): nat {
    if words == 0 then 0 else width + SizeOf(words - 1, width)
  }

  /** `width` is the number of bytes the machine's words have, 8 or 4, and `words` how many
      of them the map holds. */
  method HasNewBits(trace: array<Byte>, virgin: array<Byte>, words: nat, width: nat) returns (ret: nat)
    requires trace != virgin && trace.Length == virgin.Length == SizeOf(words, width)
    modifies virgin
    ensures virgin[..] == Bytewise(AndNot, old(virgin[..]), trace[..])
    ensures ret == Verdict(trace[..], old(virgin[..]), 0, trace.Length)
  {
    ghost var before := virgin[..];
    ret := 0;
    var i, at := words, 0;
    while i > 0
      invariant 0 <= at && at + SizeOf(i, width) == trace.Length
      invariant ret == Verdict(trace[..], before, 0, at)
      invariant ClearedUpTo(virgin[..], before, trace[..], at)
    {
      ret := TestWord(trace, virgin, at, width, ret, before);
      i, at := i - 1, at + width;
    }
  }

  /** The eight byte tests that the source writes out. */
  method AnyPristine(trace: array<Byte>, virgin: array<Byte>, lo: nat, hi: nat) returns (found: bool)
    requires lo <= hi <= trace.Length == virgin.Length
    ensures found <==> NewTuple(trace[..], virgin[..], lo, hi)
  {
    var i := lo;
    found := false;
    while i < hi
      invariant lo <= i <= hi
      invariant found <==> NewTuple(trace[..], virgin[..], lo, i)
    {
      if trace[i] != 0 && virgin[i] == 255 {
        found := true;
      }
      i := i + 1;
    }
  }

  // ----- History -----

  /** The virgin map after the traces of a history, from a map of all ones. */
  function After(history: seq<seq<Byte>>, size: nat): (r: seq<Byte>)
    requires forall t :: t in history ==> |t| == size
    ensures |r| == size
  {
    if history == [] then seq(size, i => 255 as Byte)
    else
      var last := |history| - 1;
      assert history[last] in history;
      Bytewise(AndNot, After(history[..last], size), history[last])
  }

  ghost predicate BitSeen(history: seq<seq<Byte>>, size: nat, i: nat, k: nat)
    requires (forall t :: t in history ==> |t| == size) && i < size
  {
    exists t :: t in history && Bit(t[i], k)
  }

  ghost predicate ByteSeen(history: seq<seq<Byte>>, size: nat, i: nat)
    requires (forall t :: t in history ==> |t| == size) && i < size
  {
    exists t :: t in history && t[i] != 0
  }

  /** The map is at all times the complement of the traces seen. */
  lemma {:induction false} VirginIsComplement(history: seq<seq<Byte>>, size: nat, i: nat, k: nat)
    requires (forall t :: t in history ==> |t| == size) && i < size && k < 8
    ensures Bit(After(history, size)[i], k) <==> !BitSeen(history, size, i, k)
    decreases |history|
  {
    if history == [] {
      Pow256();
      AllBits(255, 8);
    } else {
      var last := |history| - 1;
      var h, t := history[..last], history[last];
      assert history == h + [t] && t in history;
      VirginIsComplement(h, size, i, k);
      BitwiseBit(AndNot, After(h, size)[i], t[i], k);
      assert BitSeen(history, size, i, k) <==> BitSeen(h, size, i, k) || Bit(t[i], k);
    }
  }

  lemma PristineIffUnseen(history: seq<seq<Byte>>, size: nat, i: nat)
    requires (forall t :: t in history ==> |t| == size) && i < size
    ensures After(history, size)[i] == 255 <==> !ByteSeen(history, size, i)
  {
    var v := After(history, size)[i];
    Pow256();
    AllBits(v, 8);
    forall k | 0 <= k < 8
      ensures Bit(v, k) <==> !BitSeen(history, size, i, k)
    {
      VirginIsComplement(history, size, i, k);
    }
    if v != 255 {
      var k :| 0 <= k < 8 && !Bit(v, k);
      var t :| t in history && Bit(t[i], k);
      NoBits(t[i], 8);
    } else if ByteSeen(history, size, i) {
      var t :| t in history && t[i] != 0;
      var k := SomeBit(t[i], 8);
      assert Bit(v, k) && BitSeen(history, size, i, k);
    }
  }

  lemma NewIffUnseen(history: seq<seq<Byte>>, size: nat, i: nat, t: Byte)
    requires (forall t :: t in history ==> |t| == size) && i < size
    ensures OnBytes(And, t, After(history, size)[i]) != 0 <==> exists k :: 0 <= k < 8 && Bit(t, k) && !BitSeen(history, size, i, k)
  {
    var v := After(history, size)[i];
    var n := OnBytes(And, t, v);
    Pow256();
    NoBits(n, 8);
    forall k | 0 <= k < 8
      ensures Bit(n, k) <==> Bit(t, k) && !BitSeen(history, size, i, k)
    {
      VirginIsComplement(history, size, i, k);
      BitwiseBit(And, t, v, k);
    }
  }

  /** What the answer says about a history of runs: 2 exactly when some byte is hit for the
      first time, 0 exactly when every bit was seen before, 1 in the other cases. */
  lemma VerdictTellsHistory(history: seq<seq<Byte>>, trace: seq<Byte>)
    requires forall t :: t in history ==> |t| == |trace|
    ensures var size := |trace|;
            var r := Verdict(trace, After(history, size), 0, size);
            && (r == 2 <==> exists i :: 0 <= i < size && trace[i] != 0 && !ByteSeen(history, size, i))
            && (r == 0 <==> forall i, k :: 0 <= i < size && 0 <= k < 8 && Bit(trace[i], k) ==> BitSeen(history, size, i, k))
            && r <= 2
  {
    var size := |trace|;
    var virgin := After(history, size);
    forall i | 0 <= i < size
      ensures virgin[i] == 255 <==> !ByteSeen(history, size, i)
      ensures OnBytes(And, trace[i], virgin[i]) != 0 <==> exists k :: 0 <= k < 8 && Bit(trace[i], k) && !BitSeen(history, size, i, k)
    {
      PristineIffUnseen(history, size, i);
      NewIffUnseen(history, size, i, trace[i]);
    }
    NewTupleIsNewBits(trace, virgin, 0, size);
    assert NewTuple(trace, virgin, 0, size) <==> exists i :: 0 <= i < size && trace[i] != 0 && !ByteSeen(history, size, i);
  }

  /** A trace seen once brings nothing new any more. */
  lemma SameTraceIsOld(history: seq<seq<Byte>>, trace: seq<Byte>)
    requires forall t :: t in history ==> |t| == |trace|
    ensures Verdict(trace, After(history + [trace], |trace|), 0, |trace|) == 0
  {
    var h := history + [trace];
    assert trace in h;
    VerdictTellsHistory(h, trace);
    forall i, k | 0 <= i < |trace| && 0 <= k < 8 && Bit(trace[i], k)
      ensures BitSeen(h, |trace|, i, k)
    {
    }
  }
}
