/** A function to which the instrumentation theorem applies, so that its premises are seen to
    go together: it copies rdi to rax and returns, and the copy is checked as an access. Before
    the copy rax and the flags are free, and the check makes use of both. */
module AsanExample {
  import opened Registers
  import opened ControlFlow
  import opened Liveness
  import opened Machine
  import opened Soundness
  import opened AsanMachine
  import opened Asan
  import opened AsanTheorem
  import opened NamedParts
  import AsanReference

  ghost function Fam(): Families {
    Families((set r: Reg | r < 15 :: Full(r)) + {RFlags}, {RAX, RCX, RDX, RBX})
  }

  lemma FamIsValid()
    ensures Fam().Valid()
  {
    forall n
      ensures n in Fam().pool <==> InPool(n)
    {
      if InPool(n) && n.Full? {
        assert n.reg < 15;
      }
    }
  }

  const COPY := Decoded(0, Plain, [Full(RDI)], [Full(RAX)])
  const RETURN := Decoded(1, Return, [], [])

  function Fn(): Function {
    Function([COPY, RETURN], [[Idx(1)], [Ret]])
  }

  function Exec(i: nat, s: State): Step {
    if i == 0 then Step(SetReg(s, RAX, s.R(RDI)), Idx(1)) else Step(s, Ret)
  }

  ghost function Body(): Program {
    Program(Fn(), (i: nat, s: State) => Exec(i, s), (i: nat, s: State) => iset{}, (i: nat, s: State) => iset{},
            (i: nat, s: State) => s, (i: nat, s: State) => iset{}, (i: nat, s: State) => iset{})
  }

  ghost function Sites(): seq<Site> {
    [Checked(Eight, Plan(true, RDI, false, RAX, FlagsFree), AsanReference.Reference((s: State) => s.R(RDI) % WORDS)), Untouched]
  }

  lemma FollowsItsFlow()
    ensures FollowsFlow(Body())
  {
    var p := Body();
    assert NamesSuccessors(p.fn.cache, 0, p.fn.nexts[0]);
    assert NamesSuccessors(p.fn.cache, 1, p.fn.nexts[1]);
    forall i: nat, s: State | i < |p.fn.cache|
      ensures CanGo(p.fn.cache, i, p.exec(i, s).to) && !p.fn.cache[i].kind.CallTo?
    {
    }
  }

  lemma CopyKills()
    ensures Full(RDI) in Reads(Fam(), COPY)
    ensures forall n :: n in Fam().pool && n in Kills(Fam(), COPY) ==> n == Full(RAX)
    ensures forall n :: n in Fam().pool ==> n !in Kills(Fam(), RETURN)
  {
    FamIsValid();
    assert FullOf(Fam(), Full(RDI)) == Full(RDI);
    assert Full(RDI) in COPY.regReads;
  }

  /** The copy reads rdi and overwrites rax, as its names say. */
  lemma CopyAsNamed(s: State, t: State, stale: Bytes)
    requires SameToReader(COPY, s, t, stale)
    ensures AgreeOn(Exec(0, s).after, Exec(0, t).after, {}, stale) && FlagsAsNamed(COPY, s, t, Exec(0, s).after, Exec(0, t).after)
    ensures forall r: Reg :: r != RSP ==> WritesAsNamed(COPY, r, s, t, Exec(0, s).after, Exec(0, t).after)
  {
    assert Full(RDI) in COPY.regReads && SameNamed(s, t, Full(RDI));
    forall r: Reg | r != RSP ensures WritesAsNamed(COPY, r, s, t, Exec(0, s).after, Exec(0, t).after) {
      assert r == RAX ==> WritesWhole(COPY, r);
    }
  }

  lemma ReturnAsNamed(s: State, t: State, r: Reg)
    ensures WritesAsNamed(RETURN, r, s, t, s, t) && FlagsAsNamed(RETURN, s, t, s, t)
  {
  }

  lemma CopyIsNamedFramed()
    ensures NamedFramed(Body(), 0)
  {
    var p, i := Body(), 0;
    forall s, t, stale: Bytes | SameToReader(COPY, s, t, stale)
      ensures p.exec(i, s).to == p.exec(i, t).to
      ensures AgreeOn(p.exec(i, s).after, p.exec(i, t).after, {}, stale - p.stores(i, s))
      ensures FlagsAsNamed(COPY, s, t, p.exec(i, s).after, p.exec(i, t).after)
      ensures forall r: Reg :: r != RSP ==> WritesAsNamed(COPY, r, s, t, p.exec(i, s).after, p.exec(i, t).after)
    {
      CopyAsNamed(s, t, stale);
      assert stale - p.stores(i, s) == stale;
    }
  }

  lemma ReturnIsNamedFramed()
    ensures NamedFramed(Body(), 1)
  {
    var p, i := Body(), 1;
    forall s, t, stale: Bytes | SameToReader(RETURN, s, t, stale)
      ensures p.exec(i, s).to == p.exec(i, t).to
      ensures AgreeOn(p.exec(i, s).after, p.exec(i, t).after, {}, stale - p.stores(i, s))
      ensures FlagsAsNamed(RETURN, s, t, p.exec(i, s).after, p.exec(i, t).after)
      ensures forall r: Reg :: r != RSP ==> WritesAsNamed(RETURN, r, s, t, p.exec(i, s).after, p.exec(i, t).after)
    {
      forall r: Reg ensures WritesAsNamed(RETURN, r, s, t, s, t) && FlagsAsNamed(RETURN, s, t, s, t) {
        ReturnAsNamed(s, t, r);
      }
      assert stale - p.stores(i, s) == stale;
    }
  }

  lemma IsFramedByNames()
    ensures FramedByNames(Fam(), Body())
  {
    var fam, p := Fam(), Body();
    CopyIsNamedFramed();
    ReturnIsNamedFramed();
    forall i: nat | i < |p.fn.cache|
      ensures WellNamed(fam, p.fn.cache[i]) && NamedFramed(p, i) && ConventionFramed(p, i)
    {
      assert i == 0 || i == 1;
    }
    forall i: nat, s
      ensures StaysValid(p, i, s)
    {
      if s.Valid() {
        AsanReference.SetRegValid(s, RAX, s.R(RDI));
      }
    }
  }

  lemma {:induction false} NeverLoadsStale(ins: Inserted, at: Point, s: State, stale: Bytes, steps: nat)
    ensures LoadsNothingStale(Body(), ins, at, s, stale, steps)
    decreases steps
  {
    if steps > 0 {
      var p := Body();
      assert Loads(p, at, s) == iset{};
      NeverLoadsStale(ins, Next(p, at, s).0, Next(p, at, s).1, StaleNow(ins, at, s, stale) - Stores(p, at, s), steps - 1);
    }
  }

  /** The used sets after two turns of the analysis, from the return backwards. */
  ghost function Start(): UseMap {
    map[Ret := Fam().UsedAtRet(), Call := Fam().UsedAtCall()]
  }

  ghost function AfterReturn(): UseMap {
    Start()[Idx(1) := Transfer(Fam(), Fn(), Start(), 1)]
  }

  ghost function Used(): UseMap {
    AfterReturn()[Idx(0) := Transfer(Fam(), Fn(), AfterReturn(), 0)]
  }

  ghost function Free(): map<Succ, set<Name>> {
    map k | k in Used() :: Fam().pool - Used()[k]
  }

  lemma UsedIsSound()
    ensures Inv(Fam(), Fn(), AfterReturn()) && Inv(Fam(), Fn(), Used()) && FreeFrom(Fam(), Used(), Free())
  {
    FamIsValid();
    InitialInv(Fam(), Fn());
    UpdateKeepsInv(Fam(), Fn(), Start(), 1, AfterReturn());
    UpdateKeepsInv(Fam(), Fn(), AfterReturn(), 0, Used());
  }

  lemma NotReadOrUsed()
    ensures Full(RAX) !in Reads(Fam(), COPY) && RFlags !in Reads(Fam(), COPY)
    ensures RFlags !in Reads(Fam(), RETURN)
    ensures Full(RAX) in Kills(Fam(), COPY)
  {
    FamIsValid();
    assert COPY.regReads == [Full(RDI)] && FullOf(Fam(), Full(RDI)) == Full(RDI);
    assert Full(RAX) in COPY.regWrites;
  }

  lemma FlagsFreeBeforeReturn()
    ensures RFlags !in At(Fam(), AfterReturn(), Idx(1))
  {
    FamIsValid();
    NotReadOrUsed();
    InitialInv(Fam(), Fn());
    InvIsTidy(Fam(), Fn(), Start());
    TransferShape(Fam(), Fn(), Start(), 1);
    assert At(Fam(), Start(), Ret) == Fam().UsedAtRet() && RFlags !in Fam().UsedAtRet();
  }

  /** The free set before the copy is not empty. */
  lemma RaxAndFlagsAreFree()
    ensures Full(RAX) in FreeAt(Free(), 0) && RFlags in FreeAt(Free(), 0)
  {
    FamIsValid();
    NotReadOrUsed();
    UsedIsSound();
    FlagsFreeBeforeReturn();
    InvIsTidy(Fam(), Fn(), AfterReturn());
    TransferShape(Fam(), Fn(), AfterReturn(), 0);
    assert InPool(Full(RAX)) && InPool(RFlags);
  }

  lemma SitesAreFit()
    ensures SitesFit(Fam(), Body(), Free(), Sites())
  {
    var address := (s: State) => s.R(RDI) % WORDS;
    AsanReference.RealProcessorExists(address);
    CopyKills();
    RaxAndFlagsAreFree();
    forall s, t | SameRead(Fam(), COPY, s, t)
      ensures address(s) == address(t)
    {
    }
    assert AddressReads(Fam(), COPY, Sites()[0].m);
    assert SiteFits(Fam(), COPY, FreeAt(Free(), 0), Sites()[0]);
    assert SiteFits(Fam(), RETURN, FreeAt(Free(), 1), Sites()[1]);
  }

  /** The premises of the instrumentation theorem hold of this function, at its start, for
      every machine state and any number of steps. */
  lemma PremisesHold(leaf: bool, s: State, steps: nat)
    ensures Inv(Fam(), Body().fn, Used()) && FreeFrom(Fam(), Used(), Free()) && SitesFit(Fam(), Body(), Free(), Sites())
    ensures Full(RAX) in FreeAt(Free(), 0) && RFlags in FreeAt(Free(), 0) && Sites()[0].Checked?
    ensures FollowsFlow(Body()) && FramedByNames(Fam(), Body()) && WellFramed(Fam(), Body()) && InFunction(Body(), Before(0))
    ensures LoadsNothingStale(Body(), Checks(Sites(), leaf), Before(0), s, iset{}, steps)
  {
    UsedIsSound();
    RaxAndFlagsAreFree();
    SitesAreFit();
    FollowsItsFlow();
    FamIsValid();
    IsFramedByNames();
    FramedByNamesIsWellFramed(Fam(), Body());
    NeverLoadsStale(Checks(Sites(), leaf), Before(0), s, iset{}, steps);
  }
}
