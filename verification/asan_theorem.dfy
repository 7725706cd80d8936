/** The inserted check, end to end: it reports exactly on what it decides from the original
    address, and otherwise gives back everything that is not free; and so inserting it by the
    computed free sets preserves the meaning of a function. */
module AsanTheorem {
  import opened Options
  import opened Registers
  import opened ControlFlow
  import opened Liveness
  import opened Machine
  import opened Soundness
  import opened AsanMachine
  import opened Asan
  import opened AsanShadow
  import opened AsanCheck
  import opened AsanFrame

  /** Two states look the same to code that does not touch the free registers. */
  ghost predicate SameToProgram(free: set<Name>, s: State, t: State) {
    s.sp == t.sp && forall r: Reg :: Full(r) !in free ==> t.R(r) == s.R(r)
  }

  /** The address expression reads rsp and registers that are not free; the analysis counts
      every register an instruction reads as used. */
  ghost predicate AddressReadsUsed(m: Processor, free: set<Name>) {
    forall s, t :: SameToProgram(free, s, t) ==> m.address(s) == m.address(t)
  }

  /** What the program can rely on after the inserted code: its stack pointer, every register
      that is not free, live flags, the shadow, and all memory but the slots below `base`. */
  ghost predicate Undisturbed(plan: Plan, leaf: bool, free: set<Name>, s: State, t: State) {
    && SameToProgram(free, s, t)
    && (RFlags !in free ==> t.flags == s.flags)
    && t.shadow == s.shadow
    && SameOutside(s.mem, t.mem, Base(plan, leaf, s) - 8 * Slots(plan), Base(plan, leaf, s))
  }

  lemma FlagsPiecesAreStraight(plan: Plan)
    ensures forall op :: op in SaveFlags(plan) ==> Straight(op)
    ensures forall op :: op in RestoreFlags(plan) ==> Straight(op)
  {
  }

  lemma RegPiecesAreStraight(plan: Plan, leaf: bool)
    ensures forall op :: op in SaveRegs(plan, leaf) ==> Straight(op)
    ensures forall op :: op in RestoreRegs(plan, leaf) ==> Straight(op)
  {
  }

  lemma PiecesAreStraight(plan: Plan, leaf: bool)
    ensures forall op :: op in SaveCode(plan, leaf) ==> Straight(op)
    ensures forall op :: op in RestoreCode(plan, leaf) ==> Straight(op)
  {
    FlagsPiecesAreStraight(plan);
    RegPiecesAreStraight(plan, leaf);
    var up, down := StackUp(PushCount(plan, leaf) * 8), StackDown(PushCount(plan, leaf) * 8);
    forall op | op in SaveCode(plan, leaf)
      ensures Straight(op)
    {
      assert op in SaveRegs(plan, leaf) || op in SaveFlags(plan) || op == up;
    }
    forall op | op in RestoreCode(plan, leaf)
      ensures Straight(op)
    {
      assert op in RestoreRegs(plan, leaf) || op in RestoreFlags(plan) || op == down;
    }
  }

  /** The state between restoring the flags and restoring the registers. */
  lemma RestoreSteps(plan: Plan, leaf: bool, m: Processor, u: State, base: int, f: Flags) returns (v: State)
    requires Conforms(m) && plan.r1 != plan.r2 && (plan.save2 ==> plan.save1) && (plan.flags.ByLahf? ==> plan.r2 != RAX)
    requires u.sp == base + Skip(plan, leaf)
    requires HoldsFlags(plan.flags, f, Load64(u.mem, base - 8 * Slots(plan)))
    ensures FlagsRestored(plan, u.(sp := base - 8 * Slots(plan)), v, f)
    ensures RegsRestored(plan, base, v, ExecAll(RestoreCode(plan, leaf), m, u)) && ExecAll(RestoreCode(plan, leaf), m, u).sp == u.sp
  {
    var n := PushCount(plan, leaf);
    var down := When(n > 0, StackDown(n * 8));
    ExecAppend(down, RestoreFlags(plan) + RestoreRegs(plan, leaf), m, u);
    ExecWhen(n > 0, StackDown(n * 8), m, u);
    assert DoesStackDown(m, u, n * 8);
    var u0 := ExecAll(down, m, u);
    assert u0 == u.(sp := base - 8 * Slots(plan));
    ExecAppend(RestoreFlags(plan), RestoreRegs(plan, leaf), m, u0);
    RestoreFlagsEffect(plan, m, u0, f);
    v := ExecAll(RestoreFlags(plan), m, u0);
    RestoreRegsEffect(plan, leaf, m, v, base);
  }

  /** From any state that still holds what was saved, restoring undoes the damage. */
  lemma RestoreUndoes(plan: Plan, leaf: bool, free: set<Name>, s: State, t: State, u: State, v: State, w: State)
    requires Fits(plan, free)
    requires AllSaved(plan, Base(plan, leaf, s), s, t.(sp := Base(plan, leaf, s) - 8 * Slots(plan)))
    requires t.sp == s.sp && OnlyScratch(t, u, plan.r1, plan.r2)
    requires FlagsRestored(plan, u.(sp := Base(plan, leaf, s) - 8 * Slots(plan)), v, s.flags)
    requires RegsRestored(plan, Base(plan, leaf, s), v, w) && w.sp == u.sp
    ensures Undisturbed(plan, leaf, free, s, w)
  {
    var t0 := t.(sp := Base(plan, leaf, s) - 8 * Slots(plan));
    var u0 := u.(sp := Base(plan, leaf, s) - 8 * Slots(plan));
    forall r: Reg | Full(r) !in free
      ensures w.R(r) == s.R(r)
    {
      assert r !in Parked(plan);
      assert t0.R(r) == s.R(r) && t0.R(r) == t.R(r);
      assert u0.R(r) == u.R(r) && v.R(r) == u0.R(r);
    }
  }

  /** For every plan that fits the free set, every leaf flag, size, processor and state: the
      emitted code evaluates the address on the original registers, reports exactly when the
      check decides so, and otherwise leaves the program undisturbed. */
  lemma CheckedAccessSound(plan: Plan, leaf: bool, size: Size, free: set<Name>, m: Processor, s: State)
    requires Conforms(m) && s.Valid() && Fits(plan, free) && AddressReadsUsed(m, free)
    ensures var out := RunCode(CheckedAccess(plan, leaf, size), m, s);
            && (out.Reported? <==> Decision(size, m.address(s), ShadowOf(s.shadow, m.address(s))))
            && (out.Finished? ==> Undisturbed(plan, leaf, free, s, out.s))
  {
    var save, restore := SaveCode(plan, leaf), RestoreCode(plan, leaf);
    var check := CheckCode(size, plan.r1, plan.r2);
    PiecesAreStraight(plan, leaf);
    Reassociate(save + check, [ExitLabel], restore);
    Reassociate(save, check, [ExitLabel] + restore);
    RunStraight(save, check + ([ExitLabel] + restore), m, s);
    SaveEffect(plan, leaf, m, s);
    var t := ExecAll(save, m, s);
    SavingKeepsView(plan, leaf, free, s, t);
    assert m.address(t) == m.address(s);
    CheckDecides(size, plan.r1, plan.r2, m, t, restore);
    if !Decision(size, m.address(s), ShadowOf(s.shadow, m.address(s))) {
      var u :| OnlyScratch(t, u, plan.r1, plan.r2) && RunCode(check + ([ExitLabel] + restore), m, t) == RunCode(restore, m, u);
      FinishUndisturbed(plan, leaf, free, m, s, t, u);
    }
  }

  lemma SavingKeepsView(plan: Plan, leaf: bool, free: set<Name>, s: State, t: State)
    requires Fits(plan, free) && t.sp == s.sp
    requires AllSaved(plan, Base(plan, leaf, s), s, t.(sp := Base(plan, leaf, s) - 8 * Slots(plan)))
    ensures SameToProgram(free, s, t)
  {
    var t0 := t.(sp := Base(plan, leaf, s) - 8 * Slots(plan));
    forall r: Reg | Full(r) !in free
      ensures t.R(r) == s.R(r)
    {
      assert r !in Parked(plan);
      assert t0.R(r) == s.R(r);
    }
  }

  lemma FinishUndisturbed(plan: Plan, leaf: bool, free: set<Name>, m: Processor, s: State, t: State, u: State)
    requires Conforms(m) && Fits(plan, free) && t.sp == s.sp && OnlyScratch(t, u, plan.r1, plan.r2)
    requires AllSaved(plan, Base(plan, leaf, s), s, t.(sp := Base(plan, leaf, s) - 8 * Slots(plan)))
    ensures var out := RunCode(RestoreCode(plan, leaf), m, u);
            out.Finished? && Undisturbed(plan, leaf, free, s, out.s)
  {
    PiecesAreStraight(plan, leaf);
    FinishesStraight(RestoreCode(plan, leaf), m, u);
    FinishStates(plan, leaf, free, m, s, t, u);
  }

  lemma FinishesStraight(code: seq<Asm>, m: Processor, u: State)
    requires forall op :: op in code ==> Straight(op)
    ensures RunCode(code, m, u) == Finished(ExecAll(code, m, u))
  {
    assert code + [] == code;
    RunStraight(code, [], m, u);
  }

  lemma FinishStates(plan: Plan, leaf: bool, free: set<Name>, m: Processor, s: State, t: State, u: State)
    requires Conforms(m) && Fits(plan, free) && t.sp == s.sp && OnlyScratch(t, u, plan.r1, plan.r2)
    requires AllSaved(plan, Base(plan, leaf, s), s, t.(sp := Base(plan, leaf, s) - 8 * Slots(plan)))
    ensures Undisturbed(plan, leaf, free, s, ExecAll(RestoreCode(plan, leaf), m, u))
  {
    var v := RestoreSteps(plan, leaf, m, u, Base(plan, leaf, s), s.flags);
    RestoreUndoes(plan, leaf, free, s, t, u, v, ExecAll(RestoreCode(plan, leaf), m, u));
  }

  /** Memory at and above the stack pointer is untouched, and in a leaf function so are the
      128 bytes of red zone below it. */
  lemma RedZoneKept(plan: Plan, leaf: bool, free: set<Name>, s: State, t: State, b: int)
    requires Undisturbed(plan, leaf, free, s, t)
    requires b >= s.sp || (leaf && b >= s.sp - 128) || b < s.sp - 280
    ensures Peek(t.mem, b) == Peek(s.mem, b)
  {
  }

  // ----- A function instrumented throughout -----

  /** What is inserted before an instruction: nothing, or a check of its access, by a plan,
      on the processor that evaluates its address expression. */
  datatype Site = Untouched | Checked(size: Size, plan: Plan, m: Processor)

  function SiteCode(site: Site, leaf: bool): seq<Asm>
    requires site.Checked?
  {
    CheckedAccess(site.plan, leaf, site.size)
  }

  function RunSite(site: Site, leaf: bool, s: State): Option<State> {
    if site.Untouched? then Some(s)
    else
      match RunCode(SiteCode(site, leaf), site.m, s)
      case Reported => None
      case Finished(t) => Some(t)
  }

  /** The bytes a check may write: its slots, below the red zone in a leaf function. */
  ghost function SlotBytes(site: Site, leaf: bool, sp: int): Soundness.Bytes {
    if site.Untouched? then iset{}
    else Span(sp - Skip(site.plan, leaf) - 8 * Slots(site.plan), sp - Skip(site.plan, leaf))
  }

  ghost function Span(lo: int, hi: int): Soundness.Bytes {
    iset b: int | Within(lo, b, hi)
  }

  predicate Within(lo: int, b: int, hi: int) {
    lo <= b < hi
  }

  ghost function Checks(sites: seq<Site>, leaf: bool): Inserted {
    Inserted((i: nat, s: State) => if i < |sites| then RunSite(sites[i], leaf, s) else Some(s),
             (i: nat, sp: int) => if i < |sites| then SlotBytes(sites[i], leaf, sp) else iset{})
  }

  ghost predicate StepStaysValid(m: Processor, op: Asm, s: State) {
    s.Valid() ==> m.step(op, s).Valid()
  }

  ghost predicate RealProcessor(m: Processor) {
    Conforms(m) && forall op, s :: StepStaysValid(m, op, s)
  }

  /** The address expression reads rsp and registers the decoder reports as read. */
  ghost predicate AddressReads(fam: Families, d: Decoded, m: Processor) {
    forall s, t :: SameRead(fam, d, s, t) ==> m.address(s) == m.address(t)
  }

  ghost predicate SameRead(fam: Families, d: Decoded, s: State, t: State) {
    s.sp == t.sp && forall r: Reg :: Full(r) in Reads(fam, d) ==> t.R(r) == s.R(r)
  }

  ghost predicate SiteFits(fam: Families, d: Decoded, free: set<Name>, site: Site) {
    site.Checked? ==> RealProcessor(site.m) && Fits(site.plan, free) && AddressReads(fam, d, site.m)
  }

  /** Every check works with a plan that fits the free set computed for its instruction. */
  ghost predicate SitesFit(fam: Families, p: Program, free: map<Succ, set<Name>>, sites: seq<Site>) {
    |sites| == |p.fn.cache| &&
    forall i :: 0 <= i < |sites| ==> SiteFits(fam, p.fn.cache[i], FreeAt(free, i), sites[i])
  }

  /** The check before an instruction fails in this state, by the shadow of its address. */
  ghost predicate SiteFails(site: Site, s: State) {
    site.Checked? && Decision(site.size, site.m.address(s), ShadowOf(s.shadow, site.m.address(s)))
  }

  lemma {:induction false} CodeStaysValid(code: seq<Asm>, m: Processor, s: State)
    requires RealProcessor(m) && s.Valid()
    ensures RunCode(code, m, s).Finished? ==> RunCode(code, m, s).s.Valid()
    decreases |code|
  {
    if code != [] {
      assert StepStaysValid(m, code[0], s);
      CodeStaysValid(code[1..], m, s);
      CodeStaysValid(code[1..], m, m.step(code[0], s));
      CodeStaysValid(AfterExit(code[1..]), m, s);
    }
  }

  lemma AddressAvoidsFree(fam: Families, d: Decoded, free: set<Name>, m: Processor)
    requires AddressReads(fam, d, m) && Reads(fam, d) !! free
    ensures AddressReadsUsed(m, free)
  {
    forall s, t | SameToProgram(free, s, t)
      ensures m.address(s) == m.address(t)
    {
      assert SameRead(fam, d, s, t);
    }
  }

  lemma ReadsAreNotFree(fam: Families, p: Program, used: UseMap, free: map<Succ, set<Name>>, i: nat)
    requires Inv(fam, p.fn, used) && FreeFrom(fam, used, free) && i < |p.fn.cache|
    ensures Reads(fam, p.fn.cache[i]) !! FreeAt(free, i) && FreeAt(free, i) <= fam.pool
  {
    ReadsAreUsed(fam, p, used, i);
  }

  /** One site: it reports exactly when its check fails, and otherwise the states agree. */
  lemma SiteEffect(fam: Families, d: Decoded, free: set<Name>, site: Site, leaf: bool, s: State)
    requires fam.Valid() && SiteFits(fam, d, free, site) && Reads(fam, d) !! free && s.Valid()
    ensures RunSite(site, leaf, s).None? <==> SiteFails(site, s)
    ensures RunSite(site, leaf, s).Some? ==>
              RunSite(site, leaf, s).value.Valid() &&
              AgreeOn(s, RunSite(site, leaf, s).value, fam.pool - free, SlotBytes(site, leaf, s.sp))
  {
    if site.Checked? {
      AddressAvoidsFree(fam, d, free, site.m);
      CheckedAccessSound(site.plan, leaf, site.size, free, site.m, s);
      CodeStaysValid(SiteCode(site, leaf), site.m, s);
      if RunSite(site, leaf, s).Some? {
        UndisturbedAgrees(fam, site, leaf, free, s, RunSite(site, leaf, s).value);
      }
    }
  }

  lemma UndisturbedAgrees(fam: Families, site: Site, leaf: bool, free: set<Name>, s: State, t: State)
    requires fam.Valid() && site.Checked? && Undisturbed(site.plan, leaf, free, s, t)
    ensures AgreeOn(s, t, fam.pool - free, SlotBytes(site, leaf, s.sp))
  {
    forall n | n in fam.pool - free
      ensures SameAt(s, t, n)
    {
      assert InPool(n);
    }
  }

  lemma SameReadSameFailure(fam: Families, d: Decoded, free: set<Name>, site: Site, s: State, t: State, stale: Soundness.Bytes)
    requires SiteFits(fam, d, free, site) && AgreeOn(s, t, Reads(fam, d), stale) && fam.Valid()
    ensures SiteFails(site, s) <==> SiteFails(site, t)
  {
    if site.Checked? {
      forall r: Reg | Full(r) in Reads(fam, d)
        ensures t.R(r) == s.R(r)
      {
        assert SameAt(s, t, Full(r));
        assert Full(r) in fam.pool && InPool(Full(r));
      }
      assert SameRead(fam, d, s, t);
    }
  }

  lemma ChecksAreTransparent(fam: Families, p: Program, used: UseMap, free: map<Succ, set<Name>>, sites: seq<Site>, leaf: bool)
    requires Inv(fam, p.fn, used) && FreeFrom(fam, used, free) && SitesFit(fam, p, free, sites)
    ensures Transparent(fam, p, free, Checks(sites, leaf))
  {
    var ins := Checks(sites, leaf);
    forall i: nat, s: State | i < |p.fn.cache| && s.Valid() && ins.run(i, s).Some?
      ensures ins.run(i, s).value.Valid()
      ensures AgreeOn(s, ins.run(i, s).value, fam.pool - FreeAt(free, i), ins.touched(i, s.sp))
    {
      ReadsAreNotFree(fam, p, used, free, i);
      SiteEffect(fam, p.fn.cache[i], FreeAt(free, i), sites[i], leaf, s);
    }
    forall i: nat, s: State, t: State, stale: Soundness.Bytes
      | i < |p.fn.cache| && s.Valid() && t.Valid() && AgreeOn(s, t, Reads(fam, p.fn.cache[i]), stale)
      ensures ins.run(i, s).None? == ins.run(i, t).None?
    {
      ReadsAreNotFree(fam, p, used, free, i);
      SiteEffect(fam, p.fn.cache[i], FreeAt(free, i), sites[i], leaf, s);
      SiteEffect(fam, p.fn.cache[i], FreeAt(free, i), sites[i], leaf, t);
      SameReadSameFailure(fam, p.fn.cache[i], FreeAt(free, i), sites[i], s, t, stale);
    }
  }

  /** The original run comes, within `steps` steps, to an instruction whose check fails. */
  ghost predicate MeetsFailure(p: Program, sites: seq<Site>, at: Point, s: State, steps: nat) {
    exists j: nat :: j < steps && FailsAt(sites, Run(p, at, s, j).0, Run(p, at, s, j).1)
  }

  ghost predicate FailsAt(sites: seq<Site>, at: Point, s: State) {
    at.Before? && at.i < |sites| && SiteFails(sites[at.i], s)
  }

  lemma ReportIsFailure(fam: Families, p: Program, used: UseMap, free: map<Succ, set<Name>>,
                        sites: seq<Site>, leaf: bool, at: Point, s: State)
    requires Inv(fam, p.fn, used) && FreeFrom(fam, used, free) && SitesFit(fam, p, free, sites) && s.Valid()
    ensures Reports(Checks(sites, leaf), at, s) <==> FailsAt(sites, at, s)
  {
    if at.Before? && at.i < |sites| {
      ReadsAreNotFree(fam, p, used, free, at.i);
      SiteEffect(fam, p.fn.cache[at.i], FreeAt(free, at.i), sites[at.i], leaf, s);
    }
  }

  /** The compiler-correctness statement. Insert, before any choice of instructions, the
      emitted checks, with plans that fit the free sets of any state of the analysis. Then the
      rewritten function reports exactly when the original run comes to an instruction whose
      check fails; and while it does not, it is at the same place as the original after every
      number of steps, with the same used registers and the same memory outside stale slots. */
  lemma InstrumentationPreservesMeaning(
      fam: Families, p: Program, used: UseMap, free: map<Succ, set<Name>>, sites: seq<Site>, leaf: bool,
      at: Point, s: State, steps: nat)
    requires Inv(fam, p.fn, used) && FreeFrom(fam, used, free) && SitesFit(fam, p, free, sites)
    requires FollowsFlow(p) && WellFramed(fam, p) && InFunction(p, at) && s.Valid()
    requires LoadsNothingStale(p, Checks(sites, leaf), at, s, iset{}, steps)
    ensures var out := RewrittenRun(p, Checks(sites, leaf), at, s, steps);
            && (out.None? <==> MeetsFailure(p, sites, at, s, steps))
            && (out.Some? ==>
                  Run(p, at, s, steps).0 == out.value.0 &&
                  AgreeOn(Run(p, at, s, steps).1, out.value.1, UsedAt(fam, p, used, out.value.0),
                          StaleAfter(p, Checks(sites, leaf), at, s, iset{}, steps)))
  {
    var ins := Checks(sites, leaf);
    ChecksAreTransparent(fam, p, used, free, sites, leaf);
    RewritingPreservesMeaning(fam, p, used, free, ins, at, s, steps);
    forall j: nat
      ensures Reports(ins, Run(p, at, s, j).0, Run(p, at, s, j).1) <==> FailsAt(sites, Run(p, at, s, j).0, Run(p, at, s, j).1)
    {
      RunStaysValid(fam, p, at, s, j);
      ReportIsFailure(fam, p, used, free, sites, leaf, Run(p, at, s, j).0, Run(p, at, s, j).1);
    }
    assert MeetsReport(p, ins, at, s, steps) <==> MeetsFailure(p, sites, at, s, steps);
  }
}
