/** Instructions that write some of the status flags and keep others, as inc and dec keep the
    carry. The analysis knows the flags as one register. */
module PartialFlags {
  import opened Registers
  import opened ControlFlow
  import opened Liveness
  import opened Machine
  import opened Soundness
  import opened AsanMachine
  import AsanExample

  datatype Flag = Carry | Parity | Adjust | Zero | Sign | Overflow

  function FlagOf(f: Flags, g: Flag): bool {
    match g
    case Carry => f.cf
    case Parity => f.pf
    case Adjust => f.af
    case Zero => f.zf
    case Sign => f.sf
    case Overflow => f.of
  }

  /** Instruction `i` leaves flag `g` as it was. */
  ghost predicate KeepsFlag(p: Program, i: nat, g: Flag) {
    forall s :: FlagKept(p, i, g, s)
  }

  ghost predicate FlagKept(p: Program, i: nat, g: Flag, s: State) {
    FlagOf(p.exec(i, s).after.flags, g) == FlagOf(s.flags, g)
  }

  // ----- When the frame condition holds of such an instruction -----

  /** The frame condition, but flag by flag: each flag is either kept, or follows from what the
      instruction reads. */
  ghost predicate FlagwiseFramed(fam: Families, p: Program, i: nat)
    requires i < |p.fn.cache|
  {
    forall s, t, stale: Bytes :: AgreeOn(s, t, Reads(fam, p.fn.cache[i]), stale) && p.loads(i, s) !! stale ==>
      && p.exec(i, s).to == p.exec(i, t).to
      && AgreeOn(p.exec(i, s).after, p.exec(i, t).after, {}, stale - p.stores(i, s))
      && (forall n :: n in fam.pool && n != RFlags && (n in Kills(fam, p.fn.cache[i]) || SameAt(s, t, n)) ==>
            SameAt(p.exec(i, s).after, p.exec(i, t).after, n))
      && (forall g :: KeepsFlag(p, i, g) || SameFlag(p, i, s, t, g))
  }

  ghost predicate SameFlag(p: Program, i: nat, s: State, t: State, g: Flag) {
    FlagOf(p.exec(i, s).after.flags, g) == FlagOf(p.exec(i, t).after.flags, g)
  }

  function AllClear(): State {
    State(map[], 0, Flags(false, false, false, false, false, false), map[], map[])
  }

  function AllSet(): State {
    AllClear().(flags := Flags(true, true, true, true, true, true))
  }

  /** An instruction that is reported to write the flags, and keeps one, breaks it. */
  lemma KeeperIsNotFramed(fam: Families, p: Program, i: nat, g: Flag)
    requires fam.Valid() && i < |p.fn.cache| && RFlags in Kills(fam, p.fn.cache[i]) && KeepsFlag(p, i, g)
    ensures !Framed(fam, p, i)
  {
    var s, t := AllClear(), AllSet();
    var none: Bytes := iset{};
    assert FlagKept(p, i, g, s) && FlagKept(p, i, g, t);
    assert InPool(RFlags);
    assert AgreeOn(s, t, Reads(fam, p.fn.cache[i]), none) && p.loads(i, s) !! none;
    assert !SameAt(p.exec(i, s).after, p.exec(i, t).after, RFlags);
  }

  /** Exactly: among instructions that are reported to write the flags, those meet the frame
      condition that keep none of the six. */
  lemma FramedIffNoFlagKept(fam: Families, p: Program, i: nat)
    requires fam.Valid() && i < |p.fn.cache| && RFlags in Kills(fam, p.fn.cache[i]) && FlagwiseFramed(fam, p, i)
    ensures Framed(fam, p, i) <==> forall g :: !KeepsFlag(p, i, g)
  {
    if g :| KeepsFlag(p, i, g) {
      KeeperIsNotFramed(fam, p, i, g);
    } else {
      forall s, t, stale: Bytes | AgreeOn(s, t, Reads(fam, p.fn.cache[i]), stale) && p.loads(i, s) !! stale
        ensures SameAt(p.exec(i, s).after, p.exec(i, t).after, RFlags)
      {
        AllFlagsSame(p, i, s, t);
      }
    }
  }

  lemma AllFlagsSame(p: Program, i: nat, s: State, t: State)
    requires forall g :: SameFlag(p, i, s, t, g)
    ensures p.exec(i, s).after.flags == p.exec(i, t).after.flags
  {
    assert SameFlag(p, i, s, t, Carry) && SameFlag(p, i, s, t, Parity) && SameFlag(p, i, s, t, Adjust);
    assert SameFlag(p, i, s, t, Zero) && SameFlag(p, i, s, t, Sign) && SameFlag(p, i, s, t, Overflow);
  }

  // ----- A function in which it matters -----

  const INC := Decoded(0, Plain, [Full(RAX)], [Full(RAX), RFlags])
  const SETC := Decoded(1, Plain, [RFlags], [Full(RCX)])
  const RETURN := Decoded(2, Return, [], [])

  function Fn(): Function {
    Function([INC, SETC, RETURN], [[Idx(1)], [Idx(2)], [Ret]])
  }

  /** Increments rax, which keeps the carry; puts the carry in rcx; returns. */
  function Exec(i: nat, s: State): Step {
    if i == 0 then
      var v := (s.R(RAX) + 1) % WORDS;
      Step(SetReg(s, RAX, v).(flags := Flags(s.flags.cf, false, v % 16 == 0, v == 0, v >= WORDS / 2, v == WORDS / 2)), Idx(1))
    else if i == 1 then Step(SetReg(s, RCX, Bit(s.flags.cf)), Idx(2))
    else Step(s, Ret)
  }

  ghost function Body(): Program {
    Program(Fn(), (i: nat, s: State) => Exec(i, s), (i: nat, s: State) => iset{}, (i: nat, s: State) => iset{},
            (i: nat, s: State) => s, (i: nat, s: State) => iset{}, (i: nat, s: State) => iset{})
  }

  ghost function Start(): UseMap {
    map[Ret := AsanExample.Fam().UsedAtRet(), Call := AsanExample.Fam().UsedAtCall()]
  }

  ghost function Used(): UseMap {
    Start()[Idx(0) := Transfer(AsanExample.Fam(), Fn(), Start(), 0)]
  }

  /** The analysis frees the flags before the increment, in a state that is sound as it sees it. */
  lemma FlagsAreFree()
    ensures Inv(AsanExample.Fam(), Fn(), Used()) && RFlags !in At(AsanExample.Fam(), Used(), Idx(0))
  {
    var fam := AsanExample.Fam();
    AsanExample.FamIsValid();
    InitialInv(fam, Fn());
    UpdateKeepsInv(fam, Fn(), Start(), 0, Used());
    IncKillsFlags();
    InvIsTidy(fam, Fn(), Start());
    TransferShape(fam, Fn(), Start(), 0);
    assert InPool(RFlags);
  }

  lemma IncKillsFlags()
    ensures RFlags in Kills(AsanExample.Fam(), INC) && RFlags !in Reads(AsanExample.Fam(), INC)
  {
    AsanExample.FamIsValid();
    assert INC.regReads == [Full(RAX)] && FullOf(AsanExample.Fam(), Full(RAX)) == Full(RAX);
    assert RFlags in INC.regWrites;
  }

  lemma IncKeepsCarry()
    ensures KeepsFlag(Body(), 0, Carry) && !Framed(AsanExample.Fam(), Body(), 0)
  {
    forall s ensures FlagKept(Body(), 0, Carry, s) {
    }
    AsanExample.FamIsValid();
    IncKillsFlags();
    KeeperIsNotFramed(AsanExample.Fam(), Body(), 0, Carry);
  }

  /** Two states that agree on all that is called used before the increment, and return with
      different values in rcx: code inserted there that destroys the carry is observed. */
  lemma LostCarryIsObserved(s: State, t: State, n: nat)
    requires t == s.(flags := s.flags.(cf := !s.flags.cf)) && n == 3
    ensures AgreeOn(s, t, At(AsanExample.Fam(), Used(), Idx(0)), iset{})
    ensures Run(Body(), Before(0), s, n).0 == Run(Body(), Before(0), t, n).0 == Out(Ret)
    ensures Run(Body(), Before(0), s, n).1.R(RCX) != Run(Body(), Before(0), t, n).1.R(RCX)
  {
    FlagsAreFree();
    ThreeSteps(s, n);
    ThreeSteps(t, n);
  }

  lemma ThreeSteps(s: State, n: nat)
    requires n == 3
    ensures Run(Body(), Before(0), s, n).0 == Out(Ret) && Run(Body(), Before(0), s, n).1.R(RCX) == Bit(s.flags.cf)
  {
    var p := Body();
    var s1 := Exec(0, s).after;
    var s2 := Exec(1, s1).after;
    assert Run(p, Before(2), s2, n - 2) == Run(p, Out(Ret), s2, n - 3) == (Out(Ret), s2);
    assert Run(p, Before(1), s1, n - 1) == Run(p, Before(2), s2, n - 2);
  }
}
