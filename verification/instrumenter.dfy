/** From decoded instructions to checked ones: control flow, free registers and the choice of
    the checks, put together. */
module Instrumenter {
  import opened Options
  import opened Registers
  import opened ControlFlow
  import opened Liveness
  import opened Machine
  import opened Soundness
  import opened AsanMachine
  import opened Asan
  import opened AsanTheorem
  import opened NamedParts

  /** A memory operand: its size, and the processor that evaluates its address. */
  datatype Access = Access(size: Size, m: Processor)

  /** The names that the decoder reports exist, and the address of the operand depends on those
      that are read. */
  ghost predicate AccessFits(fam: Families, d: Decoded, access: Option<Access>) {
    fam.Valid() && WellNamed(fam, d) && (access.Some? ==> RealProcessor(access.value.m) && AddressNamed(d, access.value.m))
  }

  /** The check before an instruction is the one that the free set asks for. */
  ghost predicate SiteOf(free: set<Name>, access: Option<Access>, site: Site) {
    match access
    case None => site == Untouched
    case Some(a) => site.Checked? && site.size == a.size && site.m == a.m && Chosen(site.plan, FreeIn(AFFINITY, free), free)
  }

  function EmittedAt(site: Site, leaf: bool): seq<Asm> {
    if site.Checked? then SiteCode(site, leaf) else []
  }

  /** The check before one instruction, and its code. */
  ghost predicate Right(fam: Families, d: Decoded, free: set<Name>, access: Option<Access>, leaf: bool, site: Site, code: seq<Asm>) {
    SiteOf(free, access, site) && SiteFits(fam, d, free, site) && code == EmittedAt(site, leaf)
  }

  ghost predicate RightAt(fam: Families, cache: seq<Decoded>, free: map<Succ, set<Name>>, accesses: seq<Option<Access>>, leaf: bool,
                          sites: seq<Site>, code: seq<seq<Asm>>, i: nat)
  {
    && i < |sites| == |code| <= |cache| == |accesses|
    && Right(fam, cache[i], FreeAt(free, i), accesses[i], leaf, sites[i], code[i])
  }

  /** The loop over a function's instructions. */
  method InstrumentMemAccesses(fam: Families, cache: seq<Decoded>, free: map<Succ, set<Name>>, accesses: seq<Option<Access>>, leaf: bool)
    returns (sites: seq<Site>, code: seq<seq<Asm>>)
    requires |accesses| == |cache| && forall i :: 0 <= i < |cache| ==> AccessFits(fam, cache[i], accesses[i])
    ensures |sites| == |code| == |cache|
    ensures forall i :: 0 <= i < |cache| ==> RightAt(fam, cache, free, accesses, leaf, sites, code, i)
  {
    sites, code := [], [];
    for i := 0 to |cache|
      invariant |sites| == |code| == i
      invariant forall j :: 0 <= j < i ==> RightAt(fam, cache, free, accesses, leaf, sites, code, j)
    {
      var site, emitted := InstrumentOne(fam, cache[i], FreeAt(free, i), accesses[i], leaf);
      OneMore(fam, cache, free, accesses, leaf, sites, code, site, emitted);
      sites, code := sites + [site], code + [emitted];
    }
  }

  lemma OneMore(fam: Families, cache: seq<Decoded>, free: map<Succ, set<Name>>, accesses: seq<Option<Access>>, leaf: bool,
                sites: seq<Site>, code: seq<seq<Asm>>, site: Site, emitted: seq<Asm>)
    requires |sites| == |code| < |cache| == |accesses|
    requires forall j :: 0 <= j < |sites| ==> RightAt(fam, cache, free, accesses, leaf, sites, code, j)
    requires Right(fam, cache[|sites|], FreeAt(free, |sites|), accesses[|sites|], leaf, site, emitted)
    ensures forall j :: 0 <= j <= |sites| ==> RightAt(fam, cache, free, accesses, leaf, sites + [site], code + [emitted], j)
  {
    forall j | 0 <= j <= |sites|
      ensures RightAt(fam, cache, free, accesses, leaf, sites + [site], code + [emitted], j)
    {
      if j < |sites| {
        assert RightAt(fam, cache, free, accesses, leaf, sites, code, j);
      }
    }
  }

  method InstrumentOne(fam: Families, d: Decoded, free: set<Name>, access: Option<Access>, leaf: bool)
    returns (site: Site, emitted: seq<Asm>)
    requires AccessFits(fam, d, access)
    ensures Right(fam, d, free, access, leaf, site, emitted)
  {
    if access.None? {
      return Untouched, [];
    }
    var a: Access := access.value;
    var code, plan := GetMemInstrumentation(a.size, free, leaf);
    AddressNamedIsRead(fam, d, a.m);
    site, emitted := Checked(a.size, plan, a.m), code;
  }

  /** What is known of a function once it is instrumented. */
  ghost predicate Instrumented(fam: Families, fn: Function, used: UseMap, free: map<Succ, set<Name>>, sites: seq<Site>) {
    && Inv(fam, fn, used) && FreeFrom(fam, used, free)
    && (forall i :: 0 <= i < |fn.cache| ==> NamesSuccessors(fn.cache, i, fn.nexts[i]))
    && |sites| == |fn.cache|
    && (forall i :: 0 <= i < |fn.cache| ==> SiteFits(fam, fn.cache[i], FreeAt(free, i), sites[i]))
  }

  /** The decoder and the test on mnemonics tell what each instruction does. */
  ghost predicate Told(cache: seq<Decoded>, insns: seq<Insn>) {
    |insns| == |cache| && forall i :: 0 <= i < |cache| ==> GroupsRight(insns[i], cache[i].kind) && ReturnSeen(insns[i], cache[i].kind)
  }

  /** Recovers control flow, finds the free registers, and emits the checks. */
  method InstrumentFunction(fam: Families, cache: seq<Decoded>, insns: seq<Insn>, accesses: seq<Option<Access>>, leaf: bool)
    returns (fn: Function, used: UseMap, free: map<Succ, set<Name>>, sites: seq<Site>, code: seq<seq<Asm>>)
    requires fam.Valid() && DistinctAddresses(cache) && |accesses| == |insns| == |cache|
    requires forall i :: 0 <= i < |cache| ==> AccessFits(fam, cache[i], accesses[i])
    ensures fn.cache == cache && |code| == |cache| && Inv(fam, fn, used) && FreeFrom(fam, used, free)
    ensures forall i :: 0 <= i < |cache| ==> RightAt(fam, cache, free, accesses, leaf, sites, code, i)
    ensures Told(cache, insns) ==> Instrumented(fam, fn, used, free, sites)
  {
    var nexts := SymbolizeCfTransfer(cache, insns);
    fn := Function(cache, nexts);
    var analysis := new RegisterAnalysis(fam);
    var passes, settled := analysis.AnalyzeFunction(fn);
    used, free := analysis.used, analysis.free;
    FreeSetsAreComplements(fam, used, free);
    sites, code := InstrumentMemAccesses(fam, cache, free, accesses, leaf);
    forall i | 0 <= i < |cache| ensures SiteFits(fam, cache[i], FreeAt(free, i), sites[i]) {
      assert RightAt(fam, cache, free, accesses, leaf, sites, code, i);
    }
  }

  lemma FreeSetsAreComplements(fam: Families, used: UseMap, free: map<Succ, set<Name>>)
    requires FreeSets(fam, used, map[], free)
    ensures FreeFrom(fam, used, free)
  {
    forall k | k in free ensures free[k] == fam.pool - At(fam, used, k) {
      assert k in used && Partition(fam.pool, used[k], free[k]);
    }
  }

  /** Whatever the instructions of the function do, as long as they read and write what the
      decoder names, and callees keep the calling convention: the instrumented function
      reports exactly when the original run comes to an access whose check fails, and is in step
      with it until then; when it returns, all registers but the flags hold what they would have
      held. */
  lemma InstrumentedFunctionIsPreserved(
      fam: Families, p: Program, used: UseMap, free: map<Succ, set<Name>>, sites: seq<Site>, leaf: bool,
      at: Point, s: State, steps: nat)
    requires Instrumented(fam, p.fn, used, free, sites) && FramedByNames(fam, p) && InFunction(p, at) && s.Valid()
    requires forall i: nat, s: State :: i < |p.fn.cache| ==> GoesAlong(p, i, s)
    requires LoadsNothingStale(p, Checks(sites, leaf), at, s, iset{}, steps)
    ensures var out := RewrittenRun(p, Checks(sites, leaf), at, s, steps);
            && (out.None? <==> MeetsFailure(p, sites, at, s, steps))
            && (out.Some? ==>
                  Run(p, at, s, steps).0 == out.value.0 &&
                  AgreeOn(Run(p, at, s, steps).1, out.value.1, UsedAt(fam, p, used, out.value.0),
                          StaleAfter(p, Checks(sites, leaf), at, s, iset{}, steps)))
            && (out.Some? && out.value.0 == Out(Ret) ==>
                  forall r: Reg :: r != RSP ==> Run(p, at, s, steps).1.R(r) == out.value.1.R(r))
  {
    forall i: nat, s: State | i < |p.fn.cache|
      ensures CanGo(p.fn.cache, i, p.exec(i, s).to) && (p.fn.cache[i].kind.CallTo? ==> p.exec(i, s).to == Call)
    {
      assert GoesAlong(p, i, s);
    }
    assert FollowsFlow(p);
    FramedByNamesIsWellFramed(fam, p);
    InstrumentationPreservesMeaning(fam, p, used, free, sites, leaf, at, s, steps);
    var out := RewrittenRun(p, Checks(sites, leaf), at, s, steps);
    if out.Some? && out.value.0 == Out(Ret) {
      forall r: Reg | r != RSP ensures Run(p, at, s, steps).1.R(r) == out.value.1.R(r) {
        assert InPool(Full(r)) && Full(r) in UsedAt(fam, p, used, Out(Ret));
        assert SameAt(Run(p, at, s, steps).1, out.value.1, Full(r));
      }
    }
  }

  /** An instruction goes where its kind allows. */
  ghost predicate GoesAlong(p: Program, i: nat, s: State)
    requires i < |p.fn.cache|
  {
    CanGo(p.fn.cache, i, p.exec(i, s).to) && (p.fn.cache[i].kind.CallTo? ==> p.exec(i, s).to == Call)
  }
}
