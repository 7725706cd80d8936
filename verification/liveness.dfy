/** The backward register analysis: which full registers and flags may still be read. */
module Liveness {
  import opened Registers
  import opened ControlFlow

  /** A function as the analysis sees it: decoded instructions and successor lists. */
  datatype Function = Function(cache: seq<Decoded>, nexts: seq<seq<Succ>>) {
    ghost predicate Valid() {
      |nexts| == |cache|
    }
  }

  type UseMap = map<Succ, set<Name>>

  /** `used_regs` is a dictionary whose missing entries read as the whole pool. */
  function At(fam: Families, used: UseMap, k: Succ): set<Name> {
    if k in used then used[k] else fam.pool
  }

  /** The pool registers an instruction reads. */
  function Reads(fam: Families, d: Decoded): set<Name> {
    FullRegisters(fam, d.regReads)
  }

  /** The names an instruction overwrites without reading. */
  function Kills(fam: Families, d: Decoded): set<Name> {
    Closure(fam, set x | x in d.regWrites) - Reads(fam, d)
  }

  function FlowIn(fam: Families, used: UseMap, nexts: seq<Succ>, kills: set<Name>): set<Name> {
    set k, n | k in nexts && n in At(fam, used, k) && n !in kills :: n
  }

  /** The dataflow equation: what an instruction reads, and what its successors use and
      it does not overwrite. */
  function Transfer(fam: Families, fn: Function, used: UseMap, i: nat): set<Name>
    requires fn.Valid() && i < |fn.cache|
  {
    var d := fn.cache[i];
    Closure(fam, Reads(fam, d) + FlowIn(fam, used, fn.nexts[i], Kills(fam, d)))
  }

  // ----- The shape of the used sets -----

  /** A part is used only together with its full register. */
  ghost predicate PartsUnderFull(fam: Families, s: set<Name>) {
    && (forall n :: n in s ==> n in fam.pool || n in EXTRA || (n.Sub? && n.reg != RSP && n in Parts(fam, n.reg)))
    && (forall n :: n in s && n.Sub? ==> Full(n.reg) in s)
  }

  /** A set the analysis has assigned: exactly the full registers with all their parts. */
  ghost predicate Canonical(fam: Families, s: set<Name>) {
    && PartsUnderFull(fam, s)
    && (forall r: Reg, n :: Full(r) in s && r != RSP && n in Parts(fam, r) ==> n in s)
  }

  ghost predicate Tidy(fam: Families, used: UseMap) {
    forall k :: PartsUnderFull(fam, At(fam, used, k))
  }

  /** Writing part of a register kills the full register only when it kills every part. */
  lemma KillsWhole(fam: Families, d: Decoded, r: Reg)
    requires fam.Valid() && r != RSP && Full(r) in Kills(fam, d)
    ensures forall n :: n in Parts(fam, r) ==> n in Kills(fam, d)
  {
    var w := set x | x in d.regWrites;
    forall n | n in Parts(fam, r)
      ensures n in Kills(fam, d)
    {
      assert n !in Reads(fam, d);
      if Full(r) in w {
        assert n in ClosureList(fam, Full(r));
      } else {
        var x :| x in w && Full(r) in ClosureList(fam, x);
        assert x == Sub(r, Dword);
        assert n == x || n in ClosureList(fam, x);
      }
    }
  }

  /** The transfer function, told apart by kind of name: on full registers and flags it is
      the textbook equation, and everything else in the result follows from those. */
  lemma TransferShape(fam: Families, fn: Function, used: UseMap, i: nat)
    requires fam.Valid() && fn.Valid() && i < |fn.cache| && Tidy(fam, used)
    ensures Canonical(fam, Transfer(fam, fn, used, i))
    ensures forall n :: n in fam.pool ==>
              (n in Transfer(fam, fn, used, i) <==>
               n in Reads(fam, fn.cache[i]) ||
               (n !in Kills(fam, fn.cache[i]) && exists k :: k in fn.nexts[i] && n in At(fam, used, k)))
    ensures Full(RSP) in Transfer(fam, fn, used, i) <==>
            Full(RSP) !in Kills(fam, fn.cache[i]) && exists k :: k in fn.nexts[i] && Full(RSP) in At(fam, used, k)
    ensures Blank in Transfer(fam, fn, used, i) <==>
            Full(RSP) in Transfer(fam, fn, used, i) ||
            (Blank !in Kills(fam, fn.cache[i]) && exists k :: k in fn.nexts[i] && Blank in At(fam, used, k))
  {
    var d := fn.cache[i];
    var kills := Kills(fam, d);
    var x := Reads(fam, d) + FlowIn(fam, used, fn.nexts[i], kills);
    assert PartsUnderFull(fam, x) by {
      forall n | n in x && n.Sub?
        ensures Full(n.reg) in x
      {
        var k :| k in fn.nexts[i] && n in At(fam, used, k) && n !in kills;
        assert Full(n.reg) in At(fam, used, k);
        if Full(n.reg) in kills { KillsWhole(fam, d, n.reg); }
      }
    }
    ClosureShape(fam, x);
  }

  lemma ClosureShape(fam: Families, x: set<Name>)
    requires fam.Valid() && PartsUnderFull(fam, x)
    ensures Canonical(fam, Closure(fam, x))
    ensures forall n :: n in fam.pool || n == Full(RSP) ==> (n in Closure(fam, x) <==> n in x)
    ensures Blank in Closure(fam, x) <==> Blank in x || Full(RSP) in x
  {
    var c := Closure(fam, x);
    forall n | n in c
      ensures n in x || (n == Blank && Full(RSP) in x) || (n.Full? && n in x)
              || (n.Sub? && n.reg != RSP && n in Parts(fam, n.reg) && Full(n.reg) in x)
    {
      if n !in x {
        var m :| m in x && n in ClosureList(fam, m);
      }
    }
    forall r: Reg, n | Full(r) in c && r != RSP && n in Parts(fam, r)
      ensures n in c
    {
      assert n in ClosureList(fam, Full(r));
    }
    if Full(RSP) in x {
      assert Blank in ClosureList(fam, Full(RSP));
    }
  }

  // ----- What every state of the analysis keeps -----

  /** The exits, and the index past the end, keep their first value. */
  ghost predicate ExitsFixed(fam: Families, fn: Function, used: UseMap) {
    && At(fam, used, Ret) == fam.UsedAtRet()
    && At(fam, used, Call) == fam.UsedAtCall()
    && At(fam, used, Undef) == fam.pool
    && (forall j: nat :: j >= |fn.cache| ==> At(fam, used, Idx(j)) == fam.pool)
  }

  /** On the pool the used sets are only ever too large: each contains what the equation
      asks for. On rsp and the empty name they are only ever too small. */
  ghost predicate Bracketed(fam: Families, fn: Function, used: UseMap, i: nat)
    requires fn.Valid() && i < |fn.cache|
  {
    && Transfer(fam, fn, used, i) * fam.pool <= At(fam, used, Idx(i))
    && At(fam, used, Idx(i)) * EXTRA <= Transfer(fam, fn, used, i)
    && (At(fam, used, Idx(i)) == fam.pool || Canonical(fam, At(fam, used, Idx(i))))
  }

  ghost predicate Inv(fam: Families, fn: Function, used: UseMap) {
    && fam.Valid() && fn.Valid()
    && ExitsFixed(fam, fn, used)
    && forall i :: 0 <= i < |fn.cache| ==> Bracketed(fam, fn, used, i)
  }

  lemma InvIsTidy(fam: Families, fn: Function, used: UseMap)
    requires Inv(fam, fn, used)
    ensures Tidy(fam, used)
  {
    forall k: Succ
      ensures PartsUnderFull(fam, At(fam, used, k))
    {
      if k.Idx? && k.i < |fn.cache| {
        assert Bracketed(fam, fn, used, k.i);
      }
    }
  }

  lemma InitialInv(fam: Families, fn: Function)
    requires fam.Valid() && fn.Valid()
    ensures Inv(fam, fn, map[Ret := fam.UsedAtRet(), Call := fam.UsedAtCall()])
  {
    var used: UseMap := map[Ret := fam.UsedAtRet(), Call := fam.UsedAtCall()];
  }

  /** `after` is `used` with the equation applied once, at instruction `i`. */
  ghost predicate Updates(fam: Families, fn: Function, used: UseMap, i: nat, after: UseMap)
    requires fn.Valid() && i < |fn.cache|
  {
    forall k :: At(fam, after, k) == if k == Idx(i) then Transfer(fam, fn, used, i) else At(fam, used, k)
  }

  lemma UpdateShrinks(fam: Families, fn: Function, used: UseMap, i: nat, after: UseMap)
    requires Inv(fam, fn, used) && i < |fn.cache| && Updates(fam, fn, used, i, after)
    ensures Tidy(fam, after)
    ensures forall k :: At(fam, after, k) * fam.pool <= At(fam, used, k)
    ensures forall k :: At(fam, used, k) * EXTRA <= At(fam, after, k)
  {
    InvIsTidy(fam, fn, used);
    TransferShape(fam, fn, used, i);
    assert Bracketed(fam, fn, used, i);
    forall k
      ensures PartsUnderFull(fam, At(fam, after, k))
    {
      assert PartsUnderFull(fam, At(fam, used, k));
    }
  }

  lemma TransferMonotone(fam: Families, fn: Function, used: UseMap, after: UseMap, j: nat)
    requires fam.Valid() && fn.Valid() && j < |fn.cache| && Tidy(fam, used) && Tidy(fam, after)
    requires forall k :: At(fam, after, k) * fam.pool <= At(fam, used, k)
    requires forall k :: At(fam, used, k) * EXTRA <= At(fam, after, k)
    ensures Transfer(fam, fn, after, j) * fam.pool <= Transfer(fam, fn, used, j)
    ensures Transfer(fam, fn, used, j) * EXTRA <= Transfer(fam, fn, after, j)
  {
    TransferShape(fam, fn, used, j);
    TransferShape(fam, fn, after, j);
    var a, b := Transfer(fam, fn, after, j), Transfer(fam, fn, used, j);
    forall n | n in a * fam.pool
      ensures n in b
    {
      if n !in Reads(fam, fn.cache[j]) {
        var k :| k in fn.nexts[j] && n in At(fam, after, k);
        assert n in At(fam, after, k) * fam.pool;
      }
    }
    if Full(RSP) in b {
      var k :| k in fn.nexts[j] && Full(RSP) in At(fam, used, k);
      assert Full(RSP) in At(fam, used, k) * EXTRA;
    } else if Blank in b {
      var k :| k in fn.nexts[j] && Blank in At(fam, used, k);
      assert Blank in At(fam, used, k) * EXTRA;
    }
  }

  lemma UpdateKeepsBracket(fam: Families, fn: Function, used: UseMap, i: nat, after: UseMap, j: nat)
    requires Inv(fam, fn, used) && i < |fn.cache| && j < |fn.cache| && Updates(fam, fn, used, i, after)
    ensures Bracketed(fam, fn, after, j)
  {
    InvIsTidy(fam, fn, used);
    UpdateShrinks(fam, fn, used, i, after);
    TransferMonotone(fam, fn, used, after, j);
    assert Bracketed(fam, fn, used, j);
    if i == j {
      TransferShape(fam, fn, used, i);
    }
  }

  /** Applying the equation at any instruction, in any order, keeps the invariant. */
  lemma UpdateKeepsInv(fam: Families, fn: Function, used: UseMap, i: nat, after: UseMap)
    requires Inv(fam, fn, used) && i < |fn.cache| && Updates(fam, fn, used, i, after)
    ensures Inv(fam, fn, after)
  {
    forall j | 0 <= j < |fn.cache|
      ensures Bracketed(fam, fn, after, j)
    {
      UpdateKeepsBracket(fam, fn, used, i, after, j);
    }
  }

  // ----- How many changes there can be -----

  /** How often the set can still change: once to take its canonical shape, once for each
      pool register that may leave and once for each of the two names that may enter. */
  ghost function Slack(fam: Families, s: set<Name>): nat {
    |s * fam.pool| + |EXTRA - s| + (if s == fam.pool then 1 else 0)
  }

  ghost function TotalSlack(fam: Families, used: UseMap, n: nat): nat {
    if n == 0 then 0 else TotalSlack(fam, used, n - 1) + Slack(fam, At(fam, used, Idx(n - 1)))
  }

  /** Pool registers, the two extra names, and the first canonical form. */
  const CHANGES_PER_INSTRUCTION := 19

  lemma SlackBound(fam: Families, s: set<Name>)
    requires fam.Valid()
    ensures Slack(fam, s) <= CHANGES_PER_INSTRUCTION
  {
    Fewer(s * fam.pool, fam.pool);
    PoolSize(fam);
    Fewer(EXTRA - s, EXTRA);
  }

  lemma ChangeUsesSlack(fam: Families, fn: Function, used: UseMap, i: nat)
    requires Inv(fam, fn, used) && i < |fn.cache|
    requires Transfer(fam, fn, used, i) != At(fam, used, Idx(i))
    ensures Slack(fam, Transfer(fam, fn, used, i)) < Slack(fam, At(fam, used, Idx(i)))
  {
    InvIsTidy(fam, fn, used);
    TransferShape(fam, fn, used, i);
    assert Bracketed(fam, fn, used, i);
    SlackDrops(fam, Transfer(fam, fn, used, i), At(fam, used, Idx(i)));
  }

  lemma SlackDrops(fam: Families, a: set<Name>, b: set<Name>)
    requires fam.Valid() && Canonical(fam, a) && (b == fam.pool || Canonical(fam, b)) && a != b
    requires a * fam.pool <= b && b * EXTRA <= a
    ensures Slack(fam, a) < Slack(fam, b)
  {
    Fewer(a * fam.pool, b * fam.pool);
    Fewer(EXTRA - a, EXTRA - b);
    CanonicalIsNotPool(fam, a);
    if b != fam.pool && a * fam.pool == b * fam.pool && EXTRA - a == EXTRA - b {
      SameFullSameSet(fam, a, b);
    }
  }

  lemma CanonicalIsNotPool(fam: Families, a: set<Name>)
    requires fam.Valid() && Canonical(fam, a)
    ensures a != fam.pool
  {
    assert Sub(RAX, Low) in Parts(fam, RAX) && Sub(RAX, Low) !in fam.pool && Full(RAX) in fam.pool;
  }

  lemma SameFullSameSet(fam: Families, a: set<Name>, b: set<Name>)
    requires fam.Valid() && Canonical(fam, a) && Canonical(fam, b)
    requires a * fam.pool == b * fam.pool && EXTRA - a == EXTRA - b
    ensures a == b
  {
    SameFullSubset(fam, a, b);
    SameFullSubset(fam, b, a);
  }

  lemma SameFullSubset(fam: Families, a: set<Name>, b: set<Name>)
    requires fam.Valid() && Canonical(fam, a) && Canonical(fam, b)
    requires a * fam.pool == b * fam.pool && EXTRA - a == EXTRA - b
    ensures a <= b
  {
    forall n | n in a
      ensures n in b
    {
      if n in fam.pool {
        assert n in a * fam.pool;
      } else if n in EXTRA {
        assert n !in EXTRA - a;
      } else {
        assert Full(n.reg) in a * fam.pool;
      }
    }
  }

  lemma {:induction false} TotalSlackBound(fam: Families, used: UseMap, n: nat)
    requires fam.Valid()
    ensures TotalSlack(fam, used, n) <= CHANGES_PER_INSTRUCTION * n
  {
    if n > 0 {
      TotalSlackBound(fam, used, n - 1);
      SlackBound(fam, At(fam, used, Idx(n - 1)));
    }
  }

  lemma {:induction false} TotalSlackDrops(fam: Families, used: UseMap, after: UseMap, i: nat, n: nat)
    requires forall k :: k != Idx(i) ==> At(fam, after, k) == At(fam, used, k)
    requires Slack(fam, At(fam, after, Idx(i))) < Slack(fam, At(fam, used, Idx(i)))
    ensures i < n ==> TotalSlack(fam, after, n) < TotalSlack(fam, used, n)
    ensures i >= n ==> TotalSlack(fam, after, n) == TotalSlack(fam, used, n)
  {
    if n > 0 {
      var k := Idx(n - 1);
      TotalSlackDrops(fam, used, after, i, n - 1);
      assert i != n - 1 ==> At(fam, after, k) == At(fam, used, k);
      TotalSlackUnfold(fam, used, n, Slack(fam, At(fam, used, k)));
      TotalSlackUnfold(fam, after, n, Slack(fam, At(fam, after, k)));
    }
  }

  lemma TotalSlackUnfold(fam: Families, used: UseMap, n: nat, slack: nat)
    requires n > 0 && slack == Slack(fam, At(fam, used, Idx(n - 1)))
    ensures TotalSlack(fam, used, n) == TotalSlack(fam, used, n - 1) + slack
  {
  }

  lemma {:induction false} TotalSlackSame(fam: Families, used: UseMap, after: UseMap, n: nat)
    requires forall k :: At(fam, after, k) == At(fam, used, k)
    ensures TotalSlack(fam, after, n) == TotalSlack(fam, used, n)
  {
    if n > 0 {
      TotalSlackSame(fam, used, after, n - 1);
    }
  }

  // ----- The analysis -----

  const MAX_PASSES := 8192

  /** Every instruction satisfies the dataflow equation. */
  ghost predicate Solved(fam: Families, fn: Function, used: UseMap) {
    fn.Valid() && forall i :: 0 <= i < |fn.cache| ==> At(fam, used, Idx(i)) == Transfer(fam, fn, used, i)
  }

  lemma TransferSame(fam: Families, fn: Function, used: UseMap, after: UseMap, i: nat)
    requires fn.Valid() && i < |fn.cache|
    requires forall k :: At(fam, after, k) == At(fam, used, k)
    ensures Transfer(fam, fn, after, i) == Transfer(fam, fn, used, i)
  {
    assert FlowIn(fam, after, fn.nexts[i], Kills(fam, fn.cache[i])) == FlowIn(fam, used, fn.nexts[i], Kills(fam, fn.cache[i]));
  }

  /** One application of the equation that changes something uses up slack. */
  lemma UpdateProgress(fam: Families, fn: Function, used: UseMap, i: nat, after: UseMap)
    requires Inv(fam, fn, used) && i < |fn.cache| && Updates(fam, fn, used, i, after)
    requires Transfer(fam, fn, used, i) != At(fam, used, Idx(i))
    ensures TotalSlack(fam, after, |fn.cache|) < TotalSlack(fam, used, |fn.cache|)
  {
    ChangeUsesSlack(fam, fn, used, i);
    assert At(fam, after, Idx(i)) == Transfer(fam, fn, used, i);
    TotalSlackDrops(fam, used, after, i, |fn.cache|);
  }

  /** `after` reads as `used` does, and the equation holds at the first `n` instructions. */
  ghost predicate SolvedUpTo(fam: Families, fn: Function, used: UseMap, after: UseMap, n: nat)
    requires fn.Valid() && n <= |fn.cache|
  {
    && (forall k :: At(fam, after, k) == At(fam, used, k))
    && (forall j :: 0 <= j < n ==> Idx(j) in after && At(fam, used, Idx(j)) == Transfer(fam, fn, used, j))
  }

  lemma SolvedExtends(fam: Families, fn: Function, start: UseMap, used: UseMap, i: nat, after: UseMap)
    requires fn.Valid() && i < |fn.cache| && SolvedUpTo(fam, fn, start, used, i)
    requires forall k :: At(fam, after, k) == At(fam, used, k)
    requires Transfer(fam, fn, used, i) == At(fam, used, Idx(i))
    requires Idx(i) in after && used.Keys <= after.Keys
    ensures SolvedUpTo(fam, fn, start, after, i + 1)
  {
    TransferSame(fam, fn, start, used, i);
    forall j | 0 <= j < i
      ensures Idx(j) in after && At(fam, start, Idx(j)) == Transfer(fam, fn, start, j)
    {
      assert Idx(j) in used;
    }
  }

  lemma PassStep(fam: Families, fn: Function, start: UseMap, used: UseMap, i: nat, after: UseMap)
    requires Inv(fam, fn, used) && i < |fn.cache| && Updates(fam, fn, used, i, after)
    requires SolvedUpTo(fam, fn, start, used, i) && Idx(i) in after && used.Keys <= after.Keys
    ensures Inv(fam, fn, after)
    ensures Transfer(fam, fn, used, i) == At(fam, used, Idx(i)) ==> SolvedUpTo(fam, fn, start, after, i + 1)
    ensures Transfer(fam, fn, used, i) != At(fam, used, Idx(i)) ==>
              TotalSlack(fam, after, |fn.cache|) < TotalSlack(fam, start, |fn.cache|)
  {
    UpdateKeepsInv(fam, fn, used, i, after);
    if Transfer(fam, fn, used, i) == At(fam, used, Idx(i)) {
      SolvedExtends(fam, fn, start, used, i, after);
    } else {
      UpdateProgress(fam, fn, used, i, after);
      TotalSlackSame(fam, start, used, |fn.cache|);
    }
  }

  lemma SolvedToTheEnd(fam: Families, fn: Function, used: UseMap, after: UseMap)
    requires fn.Valid() && SolvedUpTo(fam, fn, used, after, |fn.cache|)
    ensures Solved(fam, fn, after)
  {
    forall i | 0 <= i < |fn.cache|
      ensures At(fam, after, Idx(i)) == Transfer(fam, fn, after, i)
    {
      TransferSame(fam, fn, used, after, i);
    }
  }

  class RegisterAnalysis {
    const fam: Families
    var used: UseMap
    var free: map<Succ, set<Name>>

    constructor (fam: Families)
      ensures this.fam == fam
      ensures used == map[Ret := fam.UsedAtRet(), Call := fam.UsedAtCall()] && free == map[]
    {
      this.fam := fam;
      used := map[Ret := fam.UsedAtRet(), Call := fam.UsedAtCall()];
      free := map[];
    }

    /** Reading a missing entry stores the default, as the source's dictionary does. */
    method Lookup(k: Succ) returns (s: set<Name>)
      modifies this`used
      ensures s == At(fam, old(used), k)
      ensures forall l :: At(fam, used, l) == At(fam, old(used), l)
      ensures used.Keys == old(used.Keys) + {k}
    {
      if k !in used {
        used := used[k := fam.pool];
      }
      s := used[k];
    }

    method AnalyzeInstruction(fn: Function, i: nat) returns (change: bool)
      requires fn.Valid() && i < |fn.cache|
      modifies this`used
      ensures Updates(fam, fn, old(used), i, used)
      ensures change <==> Transfer(fam, fn, old(used), i) != At(fam, old(used), Idx(i))
      ensures used.Keys >= old(used.Keys) + {Idx(i)}
    {
      var d := fn.cache[i];
      var nexts := fn.nexts[i];
      var reguses := Reads(fam, d);
      var regwrites := Kills(fam, d);
      for j := 0 to |nexts|
        invariant forall k :: At(fam, used, k) == At(fam, old(used), k)
        invariant used.Keys >= old(used.Keys)
        invariant reguses == Reads(fam, d) + FlowIn(fam, old(used), nexts[..j], regwrites)
      {
        assert nexts[..j + 1] == nexts[..j] + [nexts[j]];
        var s := Lookup(nexts[j]);
        reguses := reguses + (s - regwrites);
      }
      assert nexts[..|nexts|] == nexts;
      reguses := Closure(fam, reguses);
      var before := Lookup(Idx(i));
      change := reguses != before;
      if change {
        used := used[Idx(i) := reguses];
      }
    }

    /** One pass stops looking at instructions as soon as one of them changed. */
    method Pass(fn: Function) returns (change: bool)
      requires Inv(fam, fn, used)
      modifies this`used
      ensures Inv(fam, fn, used)
      ensures change ==> TotalSlack(fam, used, |fn.cache|) < TotalSlack(fam, old(used), |fn.cache|)
      ensures !change ==> Solved(fam, fn, used)
      ensures !change ==> forall i :: 0 <= i < |fn.cache| ==> Idx(i) in used
    {
      change := false;
      var n := |fn.cache|;
      for i := 0 to n
        invariant Inv(fam, fn, used)
        invariant change ==> TotalSlack(fam, used, n) < TotalSlack(fam, old(used), n)
        invariant !change ==> SolvedUpTo(fam, fn, old(used), used, i)
      {
        if !change {
          ghost var before := used;
          change := AnalyzeInstruction(fn, i);
          PassStep(fam, fn, old(used), before, i, used);
        }
      }
      if !change {
        SolvedToTheEnd(fam, fn, old(used), used);
      }
    }

    /** The capped iteration. However it ends, no used set lacks a register the equation
        asks for; when it ends by itself the equation holds everywhere; and it does end by
        itself, within 19 passes per instruction and one more, unless the cap is lower. */
    method Iterate(fn: Function) returns (passes: nat, settled: bool)
      requires fam.Valid() && fn.Valid()
      requires used == map[Ret := fam.UsedAtRet(), Call := fam.UsedAtCall()]
      modifies this`used
      ensures Inv(fam, fn, used)
      ensures settled ==> Solved(fam, fn, used) && forall i :: 0 <= i < |fn.cache| ==> Idx(i) in used
      ensures !settled ==> passes == MAX_PASSES
      ensures passes <= CHANGES_PER_INSTRUCTION * |fn.cache| + 1
      ensures CHANGES_PER_INSTRUCTION * |fn.cache| < MAX_PASSES ==> settled
    {
      InitialInv(fam, fn);
      var change := true;
      passes := 0;
      TotalSlackBound(fam, used, |fn.cache|);
      while change && passes < MAX_PASSES
        invariant Inv(fam, fn, used)
        invariant passes <= MAX_PASSES
        invariant change ==> TotalSlack(fam, used, |fn.cache|) + passes <= CHANGES_PER_INSTRUCTION * |fn.cache|
        invariant !change ==> passes <= CHANGES_PER_INSTRUCTION * |fn.cache| + 1
        invariant !change ==> Solved(fam, fn, used) && forall i :: 0 <= i < |fn.cache| ==> Idx(i) in used
        decreases MAX_PASSES - passes
      {
        change := Pass(fn);
        passes := passes + 1;
      }
      settled := !change;
    }

    /** The iteration, and the free sets that follow from it. */
    method AnalyzeFunction(fn: Function) returns (passes: nat, settled: bool)
      requires fam.Valid() && fn.Valid()
      requires used == map[Ret := fam.UsedAtRet(), Call := fam.UsedAtCall()]
      modifies this
      ensures Inv(fam, fn, used)
      ensures FreeSets(fam, used, old(free), free)
      ensures settled ==> Solved(fam, fn, used) && forall i :: 0 <= i < |fn.cache| ==> Idx(i) in used
      ensures !settled ==> passes == MAX_PASSES
      ensures passes <= CHANGES_PER_INSTRUCTION * |fn.cache| + 1
      ensures CHANGES_PER_INSTRUCTION * |fn.cache| < MAX_PASSES ==> settled
    {
      passes, settled := Iterate(fn);
      Finalize();
    }

    method Finalize()
      modifies this`free
      ensures FreeSets(fam, used, old(free), free)
    {
      var todo := used.Keys;
      while todo != {}
        invariant todo <= used.Keys && free.Keys == old(free.Keys) + (used.Keys - todo)
        invariant forall k :: k in used && k !in todo ==> Partition(fam.pool, used[k], free[k])
        invariant forall k :: k in old(free) && k !in used ==> free[k] == old(free)[k]
      {
        var k :| k in todo;
        free := free[k := fam.pool - used[k]];
        todo := todo - {k};
      }
    }
  }

  /** A tracked register is either used or free, and never both. */
  ghost predicate Partition(pool: set<Name>, used: set<Name>, free: set<Name>) {
    free <= pool && free !! used && forall n :: n in pool ==> n in used || n in free
  }

  /** Exactly the places with a used set have got a free set, which completes it; free sets of
      other places are as they were. */
  ghost predicate FreeSets(fam: Families, used: UseMap, before: map<Succ, set<Name>>, free: map<Succ, set<Name>>) {
    && free.Keys == before.Keys + used.Keys
    && (forall k :: k in used ==> Partition(fam.pool, used[k], free[k]))
    && (forall k :: k in before && k !in used ==> free[k] == before[k])
  }

  /** Instrumentation reads a missing entry as "nothing is free". */
  function FreeAt(free: map<Succ, set<Name>>, i: nat): set<Name> {
    if Idx(i) in free then free[Idx(i)] else {}
  }

  // ----- Against liveness by paths -----

  /** Along this path of instruction indices, ending at an exit or at a reader, the register
      is read, or handed to the exit, before any instruction of the path overwrites it. */
  ghost predicate LiveAlong(fam: Families, fn: Function, n: Name, i: nat, path: seq<Succ>)
    requires fn.Valid()
    decreases |path|
  {
    i < |fn.cache| &&
    (n in Reads(fam, fn.cache[i]) ||
     (&& path != []
      && path[0] in fn.nexts[i]
      && n !in Kills(fam, fn.cache[i])
      && (match path[0]
          case Idx(j) => (if j < |fn.cache| then LiveAlong(fam, fn, n, j, path[1..]) else true)
          case Ret => n in fam.UsedAtRet()
          case Call => n in fam.UsedAtCall()
          case Undef => true)))
  }

  /** A used set contains what its instruction reads and lets through. */
  lemma UsedContains(fam: Families, fn: Function, used: UseMap, n: Name, i: nat, k: Succ)
    requires Inv(fam, fn, used) && n in fam.pool && i < |fn.cache|
    requires n in Reads(fam, fn.cache[i]) ||
             (k in fn.nexts[i] && n !in Kills(fam, fn.cache[i]) && n in At(fam, used, k))
    ensures n in At(fam, used, Idx(i))
  {
    InvIsTidy(fam, fn, used);
    TransferShape(fam, fn, used, i);
    assert Bracketed(fam, fn, used, i);
    assert n in Transfer(fam, fn, used, i) * fam.pool;
  }

  /** Every state the analysis passes through contains every register live on some path. */
  lemma {:induction false} CoversLivePaths(fam: Families, fn: Function, used: UseMap, n: Name, i: nat, path: seq<Succ>)
    requires Inv(fam, fn, used) && n in fam.pool
    requires LiveAlong(fam, fn, n, i, path)
    ensures n in At(fam, used, Idx(i))
    decreases |path|
  {
    if n in Reads(fam, fn.cache[i]) {
      UsedContains(fam, fn, used, n, i, Ret);
    } else {
      if path[0].Idx? && path[0].i < |fn.cache| {
        CoversLivePaths(fam, fn, used, n, path[0].i, path[1..]);
      }
      UsedContains(fam, fn, used, n, i, path[0]);
    }
  }
}
