/** Why a register the analysis calls free may be overwritten: whole-run arguments over any
    program whose instructions respect the register sets the decoder reports for them. */
module Soundness {
  import opened Options
  import opened Registers
  import opened ControlFlow
  import opened Liveness
  import opened Machine

  type Bytes = iset<int>

  datatype Step = Step(after: State, to: Succ)

  /** A function body with its meaning: the effect of each instruction, the effect of the
      function a call instruction calls, and the memory each of them loads and stores. */
  datatype Program = Program(
    fn: Function,
    exec: (nat, State) -> Step, loads: (nat, State) -> Bytes, stores: (nat, State) -> Bytes,
    callee: (nat, State) -> State, calleeLoads: (nat, State) -> Bytes, calleeStores: (nat, State) -> Bytes)

  /** Where a run is: before an instruction, inside a call made by one, or out. */
  datatype Point = Before(i: nat) | InCall(i: nat) | Out(k: Succ)

  function Land(k: Succ, i: nat): Point {
    match k
    case Idx(j) => Before(j)
    case Call => InCall(i)
    case _ => Out(k)
  }

  function Next(p: Program, at: Point, s: State): (Point, State) {
    match at
    case Before(i) => var r := p.exec(i, s); (Land(r.to, i), r.after)
    case InCall(i) => (Land(Fall(p.fn.cache, i), i), p.callee(i, s))
    case Out(_) => (at, s)
  }

  function Run(p: Program, at: Point, s: State, steps: nat): (Point, State)
    decreases steps
  {
    if steps == 0 then (at, s)
    else var (at', s') := Next(p, at, s); Run(p, at', s', steps - 1)
  }

  /** The memory a step loads and stores. */
  ghost function Loads(p: Program, at: Point, s: State): Bytes {
    match at
    case Before(i) => p.loads(i, s)
    case InCall(i) => p.calleeLoads(i, s)
    case Out(_) => iset{}
  }

  ghost function Stores(p: Program, at: Point, s: State): Bytes {
    match at
    case Before(i) => p.stores(i, s)
    case InCall(i) => p.calleeStores(i, s)
    case Out(_) => iset{}
  }

  /** The successor lists are those of control-flow recovery, and the effect of an
      instruction goes where its kind allows; a call instruction calls. */
  ghost predicate FollowsFlow(p: Program) {
    && p.fn.Valid()
    && (forall i :: 0 <= i < |p.fn.cache| ==> NamesSuccessors(p.fn.cache, i, p.fn.nexts[i]))
    && (forall i: nat, s: State :: i < |p.fn.cache| ==>
          CanGo(p.fn.cache, i, p.exec(i, s).to) && (p.fn.cache[i].kind.CallTo? ==> p.exec(i, s).to == Call))
  }

  /** The frame condition of one instruction. From states that agree on what it reads and
      loads it goes the same way and stores the same bytes; it gives a register it overwrites
      the same value, and keeps agreement on every other register. */
  ghost predicate Framed(fam: Families, p: Program, i: nat)
    requires i < |p.fn.cache|
  {
    forall s, t, stale: Bytes :: AgreeOn(s, t, Reads(fam, p.fn.cache[i]), stale) && p.loads(i, s) !! stale ==>
      var a, b := p.exec(i, s), p.exec(i, t);
      a.to == b.to && AgreeOn(a.after, b.after, {}, stale - p.stores(i, s)) &&
      forall n :: n in fam.pool && (n in Kills(fam, p.fn.cache[i]) || SameAt(s, t, n)) ==> SameAt(a.after, b.after, n)
  }

  /** The calling convention: a callee depends on what it loads and on the registers a call
      uses, and any other register either keeps its value or gets one from those. */
  ghost predicate CalleeFramed(fam: Families, p: Program, i: nat) {
    forall s, t, stale: Bytes :: AgreeOn(s, t, fam.UsedAtCall(), stale) && p.calleeLoads(i, s) !! stale ==>
      AgreeOn(p.callee(i, s), p.callee(i, t), {}, stale - p.calleeStores(i, s)) &&
      forall n :: n in fam.pool && SameAt(s, t, n) ==> SameAt(p.callee(i, s), p.callee(i, t), n)
  }

  /** Instructions and callees make machine states of machine states. */
  ghost predicate StaysValid(p: Program, i: nat, s: State) {
    s.Valid() ==> p.exec(i, s).after.Valid() && p.callee(i, s).Valid()
  }

  ghost predicate WellFramed(fam: Families, p: Program) {
    && (forall i: nat :: i < |p.fn.cache| ==> Framed(fam, p, i) && CalleeFramed(fam, p, i))
    && (forall i: nat, s :: StaysValid(p, i, s))
  }

  ghost predicate InFunction(p: Program, at: Point) {
    !at.Out? ==> at.i < |p.fn.cache| && (at.InCall? ==> p.fn.cache[at.i].kind.CallTo?)
  }

  /** What the analysis says is used at a point of a run. */
  ghost function UsedAt(fam: Families, p: Program, used: UseMap, at: Point): set<Name> {
    match at
    case Before(i) => At(fam, used, Idx(i))
    case InCall(i) => fam.UsedAtCall() + At(fam, used, Fall(p.fn.cache, i))
    case Out(k) => At(fam, used, k)
  }

  /** What is used after a transition is used before it or overwritten by the instruction. */
  lemma UsedFlowsBack(fam: Families, p: Program, used: UseMap, i: nat, k: Succ, n: Name)
    requires Inv(fam, p.fn, used) && FollowsFlow(p) && i < |p.fn.cache|
    requires CanGo(p.fn.cache, i, k) && n in fam.pool && n in At(fam, used, k)
    ensures n in At(fam, used, Idx(i)) || n in Kills(fam, p.fn.cache[i])
  {
    assert NamesSuccessors(p.fn.cache, i, p.fn.nexts[i]);
    if n !in Kills(fam, p.fn.cache[i]) {
      var k' := if k in p.fn.nexts[i] then k else Idx(|p.fn.cache|);
      assert k' in p.fn.nexts[i];
      UsedContains(fam, p.fn, used, n, i, k');
    }
  }

  lemma ReadsAreUsed(fam: Families, p: Program, used: UseMap, i: nat)
    requires Inv(fam, p.fn, used) && i < |p.fn.cache|
    ensures Reads(fam, p.fn.cache[i]) <= At(fam, used, Idx(i))
  {
    forall n | n in Reads(fam, p.fn.cache[i])
      ensures n in At(fam, used, Idx(i))
    {
      UsedContains(fam, p.fn, used, n, i, Ret);
    }
  }

  lemma UsedAtLanding(fam: Families, p: Program, used: UseMap, i: nat, k: Succ, n: Name)
    requires Inv(fam, p.fn, used) && FollowsFlow(p) && i < |p.fn.cache|
    requires CanGo(p.fn.cache, i, k) && (p.fn.cache[i].kind.CallTo? ==> k == Call)
    requires n in fam.pool && n in UsedAt(fam, p, used, Land(k, i))
    ensures n in At(fam, used, Idx(i)) || n in Kills(fam, p.fn.cache[i])
  {
    if k == Call && n !in fam.UsedAtCall() {
      UsedFlowsBack(fam, p, used, i, Fall(p.fn.cache, i), n);
    } else {
      UsedFlowsBack(fam, p, used, i, k, n);
    }
  }

  /** Agreement on the pool part of a set, with rsp, is agreement on the set. */
  lemma PoolIsEnough(fam: Families, s: State, t: State, names: set<Name>, stale: Bytes)
    requires fam.Valid() && AgreeOn(s, t, {}, stale)
    requires forall n :: n in names && n in fam.pool ==> SameAt(s, t, n)
    ensures AgreeOn(s, t, names, stale)
  {
    forall n | n in names
      ensures SameAt(s, t, n)
    {
      assert n in fam.pool <==> InPool(n);
    }
  }

  lemma StepsInFunction(p: Program, at: Point, s: State)
    requires FollowsFlow(p) && InFunction(p, at)
    ensures InFunction(p, Next(p, at, s).0)
  {
    if at.Before? {
      assert CanGo(p.fn.cache, at.i, p.exec(at.i, s).to);
    }
  }

  /** Two states at the same point that agree on what is used there and on memory, but for
      some stale bytes. */
  ghost predicate Together(fam: Families, p: Program, used: UseMap, at: Point, s: State, t: State, stale: Bytes) {
    InFunction(p, at) && AgreeOn(s, t, UsedAt(fam, p, used, at), stale) && s.Valid() && t.Valid()
  }

  /** A step that loads no stale byte keeps two runs together, and leaves stale only what it
      does not store. */
  lemma StepsTogether(fam: Families, p: Program, used: UseMap, at: Point, s: State, t: State, stale: Bytes)
    requires Inv(fam, p.fn, used) && FollowsFlow(p) && WellFramed(fam, p)
    requires Together(fam, p, used, at, s, t, stale) && Loads(p, at, s) !! stale
    ensures Next(p, at, s).0 == Next(p, at, t).0
    ensures Together(fam, p, used, Next(p, at, s).0, Next(p, at, s).1, Next(p, at, t).1, stale - Stores(p, at, s))
  {
    StepsInFunction(p, at, s);
    if !at.Out? {
      assert StaysValid(p, at.i, s) && StaysValid(p, at.i, t);
    }
    match at {
      case Before(i) =>
        ReadsAreUsed(fam, p, used, i);
        assert Framed(fam, p, i);
        assert AgreeOn(s, t, Reads(fam, p.fn.cache[i]), stale);
        var a, b := p.exec(i, s), p.exec(i, t);
        forall n | n in UsedAt(fam, p, used, Land(a.to, i)) && n in fam.pool
          ensures SameAt(a.after, b.after, n)
        {
          UsedAtLanding(fam, p, used, i, a.to, n);
        }
        PoolIsEnough(fam, a.after, b.after, UsedAt(fam, p, used, Land(a.to, i)), stale - p.stores(i, s));
      case InCall(i) =>
        assert CalleeFramed(fam, p, i);
        assert AgreeOn(s, t, fam.UsedAtCall(), stale);
        PoolIsEnough(fam, p.callee(i, s), p.callee(i, t), At(fam, used, Fall(p.fn.cache, i)), stale - p.calleeStores(i, s));
      case Out(_) =>
    }
  }

  lemma {:induction false} RunStaysValid(fam: Families, p: Program, at: Point, s: State, steps: nat)
    requires WellFramed(fam, p) && s.Valid()
    ensures Run(p, at, s, steps).1.Valid()
    decreases steps
  {
    if steps > 0 {
      if !at.Out? {
        assert StaysValid(p, at.i, s);
      }
      RunStaysValid(fam, p, Next(p, at, s).0, Next(p, at, s).1, steps - 1);
    }
  }

  // ----- Plain runs: free registers are dead -----

  ghost predicate StepsAlike(fam: Families, p: Program, used: UseMap, none: Bytes, at: Point, s: State, t: State) {
    Together(fam, p, used, at, s, t, none) ==>
      Next(p, at, s).0 == Next(p, at, t).0 &&
      Together(fam, p, used, Next(p, at, s).0, Next(p, at, s).1, Next(p, at, t).1, none)
  }

  ghost predicate Lockstep(fam: Families, p: Program, used: UseMap, none: Bytes) {
    forall at, s, t :: StepsAlike(fam, p, used, none, at, s, t)
  }

  lemma AnalysisGivesLockstep(fam: Families, p: Program, used: UseMap, none: Bytes)
    requires Inv(fam, p.fn, used) && FollowsFlow(p) && WellFramed(fam, p) && none == iset{}
    ensures Lockstep(fam, p, used, none)
  {
    forall at, s, t
      ensures StepsAlike(fam, p, used, none, at, s, t)
    {
      if Together(fam, p, used, at, s, t, none) {
        StepsTogether(fam, p, used, at, s, t, none);
        assert none - Stores(p, at, s) == none;
      }
    }
  }

  lemma {:induction false} LockstepRuns(fam: Families, p: Program, used: UseMap, none: Bytes, at: Point, s: State, t: State, steps: nat)
    requires Lockstep(fam, p, used, none) && Together(fam, p, used, at, s, t, none)
    ensures Run(p, at, s, steps).0 == Run(p, at, t, steps).0
    ensures Together(fam, p, used, Run(p, at, s, steps).0, Run(p, at, s, steps).1, Run(p, at, t, steps).1, none)
    decreases steps
  {
    if steps > 0 {
      LockstepRuns(fam, p, used, none, at, s, t, steps - 1);
      RunOneMore(p, at, s, steps);
      RunOneMore(p, at, t, steps);
      var c, d := Run(p, at, s, steps - 1), Run(p, at, t, steps - 1);
      assert StepsAlike(fam, p, used, none, c.0, c.1, d.1);
    }
  }

  lemma {:induction false} RunOneMore(p: Program, at: Point, s: State, steps: nat)
    requires steps > 0
    ensures Run(p, at, s, steps) == Next(p, Run(p, at, s, steps - 1).0, Run(p, at, s, steps - 1).1)
    decreases steps
  {
    if steps > 1 {
      RunOneMore(p, Next(p, at, s).0, Next(p, at, s).1, steps - 1);
    } else {
      assert Run(p, Next(p, at, s).0, Next(p, at, s).1, 0) == Next(p, at, s);
    }
  }

  /** From states that agree on memory and on the registers reported used at a point, two
      runs of any length stay together; the used sets may be those of any state the
      analysis passes through, not only of its last one. */
  lemma RunsTogether(fam: Families, p: Program, used: UseMap, at: Point, s: State, t: State, steps: nat)
    requires Inv(fam, p.fn, used) && FollowsFlow(p) && WellFramed(fam, p) && InFunction(p, at)
    requires AgreeOn(s, t, UsedAt(fam, p, used, at), iset{}) && s.Valid() && t.Valid()
    ensures Run(p, at, s, steps).0 == Run(p, at, t, steps).0
    ensures AgreeOn(Run(p, at, s, steps).1, Run(p, at, t, steps).1,
                    UsedAt(fam, p, used, Run(p, at, s, steps).0), iset{})
  {
    AnalysisGivesLockstep(fam, p, used, iset{});
    LockstepRuns(fam, p, used, iset{}, at, s, t, steps);
  }

  /** The free sets the analysis hands out: the pool without the used set, or nothing. */
  ghost predicate FreeFrom(fam: Families, used: UseMap, free: map<Succ, set<Name>>) {
    forall k :: k in free ==> free[k] == fam.pool - At(fam, used, k)
  }

  /** Overwriting free registers before an instruction is unobservable: whatever `t` holds in
      them, the runs from `s` and `t` reach the same places with the same memory, and leave
      the function with the same value in every register but the flags. */
  lemma FreeRegistersAreDead(fam: Families, p: Program, used: UseMap,
                             free: map<Succ, set<Name>>, i: nat, s: State, t: State, steps: nat)
    requires Inv(fam, p.fn, used) && FreeFrom(fam, used, free)
    requires FollowsFlow(p) && WellFramed(fam, p) && i < |p.fn.cache|
    requires AgreeOn(s, t, fam.pool - FreeAt(free, i), iset{}) && s.Valid() && t.Valid()
    ensures Run(p, Before(i), s, steps).0 == Run(p, Before(i), t, steps).0
    ensures AgreeOn(Run(p, Before(i), s, steps).1, Run(p, Before(i), t, steps).1, {}, iset{})
    ensures Run(p, Before(i), s, steps).0 == Out(Ret) ==>
              forall r: Reg :: r != RSP ==> Run(p, Before(i), s, steps).1.R(r) == Run(p, Before(i), t, steps).1.R(r)
  {
    PoolIsEnough(fam, s, t, At(fam, used, Idx(i)), iset{});
    RunsTogether(fam, p, used, Before(i), s, t, steps);
    var (at, s') := Run(p, Before(i), s, steps);
    var t' := Run(p, Before(i), t, steps).1;
    if at == Out(Ret) {
      forall r: Reg | r != RSP
        ensures s'.R(r) == t'.R(r)
      {
        assert Full(r) in fam.pool <==> InPool(Full(r));
        assert Full(r) in fam.UsedAtRet() && SameAt(s', t', Full(r));
      }
    }
  }

  // ----- Programs with code inserted before their instructions -----

  /** Inserted code: what it makes of a state before instruction `i`, or a report; and the
      bytes it may write, given the stack pointer. */
  datatype Inserted = Inserted(run: (nat, State) -> Option<State>, touched: (nat, int) -> Bytes)

  /** Inserted code may change only free registers and the bytes it touches, and whether it
      reports depends only on what the instruction reads. */
  ghost predicate Transparent(fam: Families, p: Program, free: map<Succ, set<Name>>, ins: Inserted) {
    && (forall i: nat, s: State :: i < |p.fn.cache| && s.Valid() && ins.run(i, s).Some? ==>
          ins.run(i, s).value.Valid() &&
          AgreeOn(s, ins.run(i, s).value, fam.pool - FreeAt(free, i), ins.touched(i, s.sp)))
    && (forall i: nat, s: State, t: State, stale: Bytes ::
          (i < |p.fn.cache| && s.Valid() && t.Valid() && AgreeOn(s, t, Reads(fam, p.fn.cache[i]), stale)) ==>
          ins.run(i, s).None? == ins.run(i, t).None?)
  }

  /** One step of the rewritten function; None when the inserted code reports. */
  function RewrittenNext(p: Program, ins: Inserted, at: Point, s: State): Option<(Point, State)> {
    if !at.Before? then Some(Next(p, at, s))
    else
      match ins.run(at.i, s)
      case None => None
      case Some(s1) => Some(Next(p, at, s1))
  }

  /** The run of the rewritten function; None once a report has been made. */
  function RewrittenRun(p: Program, ins: Inserted, at: Point, s: State, steps: nat): Option<(Point, State)>
    decreases steps
  {
    if steps == 0 then Some((at, s))
    else
      match RewrittenNext(p, ins, at, s)
      case None => None
      case Some((at', s')) => RewrittenRun(p, ins, at', s', steps - 1)
  }

  ghost predicate Reports(ins: Inserted, at: Point, s: State) {
    at.Before? && ins.run(at.i, s).None?
  }

  /** The bytes that may differ once the inserted code of this point has run. */
  ghost function StaleNow(ins: Inserted, at: Point, s: State, stale: Bytes): Bytes {
    if at.Before? then stale + ins.touched(at.i, s.sp) else stale
  }

  /** The original run never loads a byte that inserted code has written since the program
      last stored there. The program owes this: such bytes lie below its stack pointer. */
  ghost predicate LoadsNothingStale(p: Program, ins: Inserted, at: Point, s: State, stale: Bytes, steps: nat)
    decreases steps
  {
    steps > 0 ==>
      var stale1 := StaleNow(ins, at, s, stale);
      Loads(p, at, s) !! stale1 &&
      LoadsNothingStale(p, ins, Next(p, at, s).0, Next(p, at, s).1, stale1 - Stores(p, at, s), steps - 1)
  }

  ghost function StaleAfter(p: Program, ins: Inserted, at: Point, s: State, stale: Bytes, steps: nat): Bytes
    decreases steps
  {
    if steps == 0 then stale
    else StaleAfter(p, ins, Next(p, at, s).0, Next(p, at, s).1, StaleNow(ins, at, s, stale) - Stores(p, at, s), steps - 1)
  }

  lemma InsertedKeepsUsed(fam: Families, p: Program, used: UseMap, free: map<Succ, set<Name>>,
                          ins: Inserted, i: nat, s: State, t: State, stale: Bytes)
    requires Inv(fam, p.fn, used) && FreeFrom(fam, used, free) && Transparent(fam, p, free, ins)
    requires i < |p.fn.cache| && AgreeOn(s, t, At(fam, used, Idx(i)), stale) && s.Valid() && t.Valid()
    ensures ins.run(i, s).None? == ins.run(i, t).None?
    ensures ins.run(i, t).Some? ==>
              ins.run(i, t).value.Valid() &&
              AgreeOn(s, ins.run(i, t).value, At(fam, used, Idx(i)), stale + ins.touched(i, s.sp))
  {
    ReadsAreUsed(fam, p, used, i);
    assert AgreeOn(s, t, Reads(fam, p.fn.cache[i]), stale);
    if ins.run(i, t).Some? {
      var t1 := ins.run(i, t).value;
      assert AgreeOn(t, t1, fam.pool - FreeAt(free, i), ins.touched(i, t.sp));
      forall n | n in At(fam, used, Idx(i)) && n in fam.pool
        ensures SameAt(s, t1, n)
      {
        assert n in fam.pool - FreeAt(free, i);
        assert SameAt(s, t, n) && SameAt(t, t1, n);
      }
      PoolIsEnough(fam, s, t1, At(fam, used, Idx(i)), stale + ins.touched(i, s.sp));
    }
  }

  lemma RewrittenStepsTogether(
      fam: Families, p: Program, used: UseMap, free: map<Succ, set<Name>>, ins: Inserted,
      at: Point, s: State, t: State, stale: Bytes)
    requires Inv(fam, p.fn, used) && FreeFrom(fam, used, free) && Transparent(fam, p, free, ins)
    requires FollowsFlow(p) && WellFramed(fam, p)
    requires Together(fam, p, used, at, s, t, stale) && Loads(p, at, s) !! StaleNow(ins, at, s, stale)
    ensures RewrittenNext(p, ins, at, t).None? <==> Reports(ins, at, s)
    ensures RewrittenNext(p, ins, at, t).Some? ==>
              Next(p, at, s).0 == RewrittenNext(p, ins, at, t).value.0 &&
              Together(fam, p, used, Next(p, at, s).0, Next(p, at, s).1, RewrittenNext(p, ins, at, t).value.1,
                       StaleNow(ins, at, s, stale) - Stores(p, at, s))
  {
    var t1 := t;
    if at.Before? {
      InsertedKeepsUsed(fam, p, used, free, ins, at.i, s, t, stale);
      if ins.run(at.i, t).None? {
        return;
      }
      t1 := ins.run(at.i, t).value;
    }
    StepsTogether(fam, p, used, at, s, t1, StaleNow(ins, at, s, stale));
  }

  ghost predicate RewrittenStepsAlike(fam: Families, p: Program, used: UseMap, ins: Inserted,
                                      at: Point, s: State, t: State, stale: Bytes) {
    Together(fam, p, used, at, s, t, stale) && Loads(p, at, s) !! StaleNow(ins, at, s, stale) ==>
      (RewrittenNext(p, ins, at, t).None? <==> Reports(ins, at, s)) &&
      (RewrittenNext(p, ins, at, t).Some? ==>
         Next(p, at, s).0 == RewrittenNext(p, ins, at, t).value.0 &&
         Together(fam, p, used, Next(p, at, s).0, Next(p, at, s).1, RewrittenNext(p, ins, at, t).value.1,
                  StaleNow(ins, at, s, stale) - Stores(p, at, s)))
  }

  ghost predicate RewrittenLockstep(fam: Families, p: Program, used: UseMap, ins: Inserted) {
    forall at, s, t, stale: Bytes :: RewrittenStepsAlike(fam, p, used, ins, at, s, t, stale)
  }

  lemma AnalysisGivesRewrittenLockstep(
      fam: Families, p: Program, used: UseMap, free: map<Succ, set<Name>>, ins: Inserted)
    requires Inv(fam, p.fn, used) && FreeFrom(fam, used, free) && Transparent(fam, p, free, ins)
    requires FollowsFlow(p) && WellFramed(fam, p)
    ensures RewrittenLockstep(fam, p, used, ins)
  {
    forall at, s, t, stale: Bytes
      ensures RewrittenStepsAlike(fam, p, used, ins, at, s, t, stale)
    {
      if Together(fam, p, used, at, s, t, stale) && Loads(p, at, s) !! StaleNow(ins, at, s, stale) {
        RewrittenStepsTogether(fam, p, used, free, ins, at, s, t, stale);
      }
    }
  }

  /** The original run passes, within `steps` steps, a state the inserted code reports. */
  ghost predicate MeetsReport(p: Program, ins: Inserted, at: Point, s: State, steps: nat) {
    exists j: nat :: j < steps && Reports(ins, Run(p, at, s, j).0, Run(p, at, s, j).1)
  }

  lemma ReportNowOrLater(p: Program, ins: Inserted, at: Point, s: State, steps: nat)
    requires steps > 0
    ensures MeetsReport(p, ins, at, s, steps) <==>
            Reports(ins, at, s) || MeetsReport(p, ins, Next(p, at, s).0, Next(p, at, s).1, steps - 1)
  {
    var (at', s') := Next(p, at, s);
    if Reports(ins, at, s) {
      assert Run(p, at, s, 0) == (at, s);
    }
    if MeetsReport(p, ins, at', s', steps - 1) {
      var j: nat :| j < steps - 1 && Reports(ins, Run(p, at', s', j).0, Run(p, at', s', j).1);
      assert Run(p, at, s, j + 1) == Run(p, at', s', j);
    }
    if MeetsReport(p, ins, at, s, steps) && !Reports(ins, at, s) {
      var j: nat :| j < steps && Reports(ins, Run(p, at, s, j).0, Run(p, at, s, j).1);
      assert Run(p, at, s, j) == Run(p, at', s', j - 1);
    }
  }

  lemma {:induction false} RewrittenLockstepRuns(
      fam: Families, p: Program, used: UseMap, ins: Inserted, at: Point, s: State, t: State, stale: Bytes, steps: nat)
    requires RewrittenLockstep(fam, p, used, ins) && Together(fam, p, used, at, s, t, stale)
    requires LoadsNothingStale(p, ins, at, s, stale, steps)
    ensures RewrittenRun(p, ins, at, t, steps).None? <==> MeetsReport(p, ins, at, s, steps)
    ensures RewrittenRun(p, ins, at, t, steps).Some? ==>
              Run(p, at, s, steps).0 == RewrittenRun(p, ins, at, t, steps).value.0 &&
              Together(fam, p, used, Run(p, at, s, steps).0, Run(p, at, s, steps).1,
                       RewrittenRun(p, ins, at, t, steps).value.1, StaleAfter(p, ins, at, s, stale, steps))
    decreases steps
  {
    if steps > 0 {
      ReportNowOrLater(p, ins, at, s, steps);
      assert RewrittenStepsAlike(fam, p, used, ins, at, s, t, stale);
      if RewrittenNext(p, ins, at, t).Some? {
        RewrittenLockstepRuns(fam, p, used, ins, Next(p, at, s).0, Next(p, at, s).1,
                              RewrittenNext(p, ins, at, t).value.1,
                              StaleNow(ins, at, s, stale) - Stores(p, at, s), steps - 1);
      }
    }
  }

  /** The rewritten function means what the original means: it reports exactly when the
      original run meets a state the inserted code reports, and otherwise it is at the same
      place after every number of steps, with the same used registers and the same memory,
      but for bytes inserted code wrote and the program has not stored to since. */
  lemma RewritingPreservesMeaning(
      fam: Families, p: Program, used: UseMap, free: map<Succ, set<Name>>, ins: Inserted,
      at: Point, s: State, steps: nat)
    requires Inv(fam, p.fn, used) && FreeFrom(fam, used, free) && Transparent(fam, p, free, ins)
    requires FollowsFlow(p) && WellFramed(fam, p) && InFunction(p, at)
    requires LoadsNothingStale(p, ins, at, s, iset{}, steps) && s.Valid()
    ensures RewrittenRun(p, ins, at, s, steps).None? <==> MeetsReport(p, ins, at, s, steps)
    ensures RewrittenRun(p, ins, at, s, steps).Some? ==>
              var (at', t) := RewrittenRun(p, ins, at, s, steps).value;
              Run(p, at, s, steps).0 == at' &&
              AgreeOn(Run(p, at, s, steps).1, t, UsedAt(fam, p, used, at'), StaleAfter(p, ins, at, s, iset{}, steps))
  {
    AnalysisGivesRewrittenLockstep(fam, p, used, free, ins);
    RewrittenLockstepRuns(fam, p, used, ins, at, s, s, iset{}, steps);
  }
}
