/** The memory check inserted before an access: how the scratch registers are chosen, the
    code that saves, checks and restores, and what that code does to the machine. */
module Asan {
  import opened Registers
  import opened AsanMachine

  /** The order in which free registers are preferred. */
  const AFFINITY: seq<Reg> := [RDI, RSI, RCX, RDX, RBX, R8, R9, R10, R11, R12, R13, R14, R15, RAX, RBP]

  datatype FlagsPlan =
    | FlagsFree      // nothing to save
    | ByPushf        // pushf / popf
    | ByLahf         // lahf and seto, with rax parked in the second scratch register
    | ByLahfRaxFree  // lahf and seto, rax being free itself

  /** Which registers the check works in, which of them it must save, and how flags are kept. */
  datatype Plan = Plan(save1: bool, r1: Reg, save2: bool, r2: Reg, flags: FlagsPlan)

  datatype Size = One | Two | Four | Eight

  function Bytes(size: Size): int {
    match size case One => 1 case Two => 2 case Four => 4 case Eight => 8
  }

  /** What the code needs of a plan: distinct scratch registers, each free or saved, and a
      way to keep the flags that itself touches only free registers. */
  ghost predicate Fits(plan: Plan, free: set<Name>) {
    && plan.r1 != plan.r2 && plan.r1 != RSP && plan.r2 != RSP
    && (!plan.save1 ==> Full(plan.r1) in free)
    && (!plan.save2 ==> Full(plan.r2) in free)
    && (plan.save2 ==> plan.save1)
    && (plan.flags.FlagsFree? ==> RFlags in free)
    && (plan.flags.ByLahf? ==> !plan.save2 && plan.r1 != RAX && plan.r2 != RAX)
    && (plan.flags.ByLahfRaxFree? ==> Full(RAX) in free && !plan.save2)
  }

  // ----- Choosing the registers -----

  /** The free registers of a list, in its order. */
  function FreeIn(order: seq<Reg>, free: set<Name>): seq<Reg> {
    if order == [] then []
    else
      var r := order[|order| - 1];
      FreeIn(order[..|order| - 1], free) + (if Full(r) in free then [r] else [])
  }

  ghost predicate Preferred(order: seq<Reg>, a: Reg, b: Reg) {
    exists j, k :: 0 <= j < k < |order| && order[j] == a && order[k] == b
  }

  /** The free general registers, most preferred first. */
  method SortFree(free: set<Name>) returns (regs: seq<Reg>)
    ensures regs == FreeIn(AFFINITY, free)
    ensures forall k :: 0 <= k < |regs| ==> Full(regs[k]) in free && regs[k] != RSP
    ensures forall j, k :: 0 <= j < k < |regs| ==> regs[j] != regs[k]
    ensures forall r :: r in regs <==> r in AFFINITY && Full(r) in free
    ensures forall j, k :: 0 <= j < k < |regs| ==> Preferred(AFFINITY, regs[j], regs[k])
  {
    regs := [];
    var order := AFFINITY;
    for i := 0 to |order|
      invariant regs == FreeIn(order[..i], free)
    {
      assert order[..i + 1][..i] == order[..i];
      if Full(order[i]) in free {
        regs := regs + [order[i]];
      }
    }
    assert order[..|order|] == order;
    AffinityFacts(order);
    FreeInFacts(order, free);
    FreeInOrder(order, free);
  }

  lemma {:induction false} FreeInOrder(order: seq<Reg>, free: set<Name>)
    requires forall j, k :: 0 <= j < k < |order| ==> order[j] != order[k]
    ensures var regs := FreeIn(order, free); forall j, k :: 0 <= j < k < |regs| ==> Preferred(order, regs[j], regs[k])
  {
    if order != [] {
      var n := |order| - 1;
      var init, regs := order[..n], FreeIn(order, free);
      FreeInOrder(init, free);
      FreeInFacts(init, free);
      forall j, k | 0 <= j < k < |regs| ensures Preferred(order, regs[j], regs[k]) {
        if k < |FreeIn(init, free)| {
          assert Preferred(init, regs[j], regs[k]);
          var a, b :| 0 <= a < b < |init| && init[a] == regs[j] && init[b] == regs[k];
          assert order[a] == regs[j] && order[b] == regs[k];
        } else {
          assert regs[j] in init;
          var a :| 0 <= a < n && init[a] == regs[j];
          assert order[a] == regs[j] && order[n] == regs[k];
        }
      }
    }
  }

  lemma AffinityFacts(order: seq<Reg>)
    requires order == AFFINITY
    ensures forall j, k :: 0 <= j < k < |order| ==> order[j] != order[k]
    ensures RSP !in order
  {
  }

  lemma {:induction false} FreeInFacts(order: seq<Reg>, free: set<Name>)
    requires forall j, k :: 0 <= j < k < |order| ==> order[j] != order[k]
    ensures var regs := FreeIn(order, free);
            && (forall r :: r in regs <==> r in order && Full(r) in free)
            && (forall j, k :: 0 <= j < k < |regs| ==> regs[j] != regs[k])
  {
    if order != [] {
      var n := |order| - 1;
      FreeInFacts(order[..n], free);
      assert order == order[..n] + [order[n]];
      assert order[n] !in order[..n];
    }
  }

  /** The two most preferred free registers, the first one for the shadow byte; what is missing
      is taken from rdi and rsi and saved. Live flags go through rax if anything is free. */
  ghost predicate Chosen(plan: Plan, regs: seq<Reg>, free: set<Name>) {
    && plan.save2 == (|regs| == 0) && plan.save1 == (|regs| < 2)
    && plan.r2 == (if |regs| == 0 then RSI else regs[0])
    && plan.r1 == (if |regs| > 1 then regs[1] else if |regs| == 1 && regs[0] == RDI then RSI else RDI)
    && plan.flags == (if RFlags in free then FlagsFree
                      else if |regs| == 0 then ByPushf
                      else if Full(RAX) in free then ByLahfRaxFree else ByLahf)
  }

  method ChoosePlan(free: set<Name>) returns (plan: Plan)
    ensures Fits(plan, free) && Chosen(plan, FreeIn(AFFINITY, free), free)
  {
    var regs := SortFree(free);
    var save1, r1, save2, r2 := true, RDI, true, RSI;
    var saveFlags := ByPushf;
    if RFlags in free {
      saveFlags := FlagsFree;
    }
    if |regs| > 0 {
      save2, r2 := false, regs[0];
      if |regs| > 1 {
        save1, r1 := false, regs[1];
      }
      if r2 == r1 {
        save1, r1 := true, RSI;
      }
      if saveFlags != FlagsFree {
        saveFlags := if RAX in regs then ByLahfRaxFree else ByLahf;
      }
    }
    plan := Plan(save1, r1, save2, r2, saveFlags);
    RaxIsPreferred();
    ChosenFits(plan, regs, free);
  }

  lemma RaxIsPreferred()
    ensures RAX in AFFINITY
  {
    assert AFFINITY[13] == RAX;
  }

  /** The choice fits whatever is free. */
  lemma ChosenFits(plan: Plan, regs: seq<Reg>, free: set<Name>)
    requires Chosen(plan, regs, free)
    requires forall k :: 0 <= k < |regs| ==> Full(regs[k]) in free && regs[k] != RSP
    requires forall j, k :: 0 <= j < k < |regs| ==> regs[j] != regs[k]
    requires Full(RAX) in free ==> RAX in regs
    ensures Fits(plan, free)
  {
    if |regs| > 0 {
      assert Full(regs[0]) in free;
      if |regs| > 1 {
        assert Full(regs[1]) in free && regs[0] != regs[1];
      }
    }
  }

  // ----- The code -----

  /** Number of 8-byte slots the saved values take. */
  function Slots(plan: Plan): int {
    (if plan.save1 then 1 else 0) + (if plan.save2 then 1 else 0) + (if plan.flags.FlagsFree? then 0 else 1)
  }

  /** Leaf functions move below their red zone first, but only when something is saved. */
  function Skip(plan: Plan, leaf: bool): int {
    if leaf && Slots(plan) > 0 then 256 else 0
  }

  /** How far below the program's stack pointer the saved values reach, in slots. */
  function PushCount(plan: Plan, leaf: bool): int {
    (if Skip(plan, leaf) > 0 then 32 else 0) + Slots(plan)
  }

  function SaveFlags(plan: Plan): seq<Asm> {
    match plan.flags
    case FlagsFree => []
    case ByPushf => [PushFlags]
    case ByLahf => [Mov(RAX, plan.r2), Lahf, SetoAl, Push(RAX), Mov(plan.r2, RAX)]
    case ByLahfRaxFree => [Lahf, SetoAl, Push(RAX)]
  }

  function RestoreFlags(plan: Plan): seq<Asm> {
    match plan.flags
    case FlagsFree => []
    case ByPushf => [PopFlags]
    case ByLahf => [Mov(RAX, plan.r2), Pop(RAX), AddAl7f, Sahf, Mov(plan.r2, RAX)]
    case ByLahfRaxFree => [Pop(RAX), AddAl7f, Sahf]
  }

  function When(b: bool, op: Asm): seq<Asm> {
    if b then [op] else []
  }

  function SaveRegs(plan: Plan, leaf: bool): seq<Asm> {
    When(Skip(plan, leaf) > 0, StackDown(256)) + When(plan.save1, Push(plan.r1)) + When(plan.save2, Push(plan.r2))
  }

  function RestoreRegs(plan: Plan, leaf: bool): seq<Asm> {
    When(plan.save2, Pop(plan.r2)) + When(plan.save1, Pop(plan.r1)) + When(Skip(plan, leaf) > 0, StackUp(256))
  }

  function SaveCode(plan: Plan, leaf: bool): seq<Asm> {
    SaveRegs(plan, leaf) + SaveFlags(plan) + When(PushCount(plan, leaf) > 0, StackUp(PushCount(plan, leaf) * 8))
  }

  function RestoreCode(plan: Plan, leaf: bool): seq<Asm> {
    When(PushCount(plan, leaf) > 0, StackDown(PushCount(plan, leaf) * 8)) + (RestoreFlags(plan) + RestoreRegs(plan, leaf))
  }

  /** The check proper, ending in the call that reports. */
  function CheckCode(size: Size, clob: Reg, tgt: Reg): seq<Asm> {
    [LeaAddress(clob), Mov(clob, tgt), ShiftRight3(tgt)] +
    (match size
     case Eight => [CompareShadowZero(tgt), JumpIfEqual, CallReport]
     case One =>
       [LoadShadow(tgt), TestLow(tgt), JumpIfEqual, And7(clob), SignExtendLow(tgt),
        Compare32(tgt, clob), JumpIfLess, CallReport]
     case Two =>
       [LoadShadow(tgt), TestLow(tgt), JumpIfEqual, And7(clob), Inc32(clob), SignExtendLow(tgt),
        Compare32(tgt, clob), JumpIfLess, CallReport]
     case Four =>
       [LoadShadow(tgt), TestLow(tgt), JumpIfEqual, And7(clob), Add32(3, clob), SignExtendLow(tgt),
        Compare32(tgt, clob), JumpIfLess, CallReport])
  }

  function CheckedAccess(plan: Plan, leaf: bool, size: Size): seq<Asm> {
    SaveCode(plan, leaf) + CheckCode(size, plan.r1, plan.r2) + [ExitLabel] + RestoreCode(plan, leaf)
  }

  // ----- Emission, as the instrumenter does it: templates edited and lists grown at both ends -----

  method EmitCheck(size: Size, clob: Reg, tgt: Reg) returns (code: seq<Asm>)
    ensures code == CheckCode(size, clob, tgt)
  {
    var common := [LeaAddress(clob), Mov(clob, tgt), ShiftRight3(tgt), LoadShadow(tgt), TestLow(tgt), JumpIfEqual];
    var sized := [And7(clob), Add32(3, clob), SignExtendLow(tgt), Compare32(tgt, clob), JumpIfLess, CallReport];
    match size {
      case One => sized := sized[..1] + sized[2..];
      case Two => sized := sized[1 := Inc32(clob)];
      case Four =>
      case Eight =>
        common := common[3 := CompareShadowZero(tgt)];
        common := common[4 := common[5]];
        common := common[5 := sized[|sized| - 1]];
        sized := [];
    }
    code := common + sized;
  }

  method EmitRegs(p: Plan, leaf: bool) returns (save: seq<Asm>, restore: seq<Asm>, pushes: int)
    ensures save == SaveRegs(p, leaf) && restore == RestoreRegs(p, leaf)
    ensures pushes == PushCount(p, leaf) - if p.flags.FlagsFree? then 0 else 1
  {
    save, restore, pushes := [], [], 0;
    if leaf && (p.save1 || p.save2 || !p.flags.FlagsFree?) {
      save := save + [StackDown(256)];
      restore := restore + [StackUp(256)];
      pushes := pushes + 32;
    }
    if p.save1 {
      save := save + [Push(p.r1)];
      restore := [Pop(p.r1)] + restore;
      pushes := pushes + 1;
    }
    if p.save2 {
      save := save + [Push(p.r2)];
      restore := [Pop(p.r2)] + restore;
      pushes := pushes + 1;
    }
  }

  method EmitFlags(p: Plan, save0: seq<Asm>, restore0: seq<Asm>, pushes0: int)
    returns (save: seq<Asm>, restore: seq<Asm>, pushes: int)
    ensures save == save0 + SaveFlags(p) && restore == RestoreFlags(p) + restore0
    ensures pushes == pushes0 + if p.flags.FlagsFree? then 0 else 1
  {
    save, restore, pushes := save0, restore0, pushes0;
    match p.flags {
      case FlagsFree =>
      case ByPushf =>
        save := save + [PushFlags];
        restore := [PopFlags] + restore;
        pushes := pushes + 1;
      case ByLahf =>
        pushes := pushes + 1;
        save := save + [Mov(RAX, p.r2)];
        save := save + [Lahf, SetoAl, Push(RAX)];
        save := save + [Mov(p.r2, RAX)];
        restore := [Mov(p.r2, RAX)] + restore;
        restore := [Pop(RAX), AddAl7f, Sahf] + restore;
        restore := [Mov(RAX, p.r2)] + restore;
      case ByLahfRaxFree =>
        pushes := pushes + 1;
        save := save + [Lahf, SetoAl, Push(RAX)];
        restore := [Pop(RAX), AddAl7f, Sahf] + restore;
    }
  }

  method EmitSaveRestore(p: Plan, leaf: bool) returns (save: seq<Asm>, restore: seq<Asm>)
    ensures save == SaveCode(p, leaf) && restore == RestoreCode(p, leaf)
  {
    var pushes;
    save, restore, pushes := EmitRegs(p, leaf);
    save, restore, pushes := EmitFlags(p, save, restore, pushes);
    save, restore := EmitStackMove(save, restore, pushes);
  }

  /** The check itself runs with the stack pointer where the program left it. */
  method EmitStackMove(save0: seq<Asm>, restore0: seq<Asm>, pushes: int) returns (save: seq<Asm>, restore: seq<Asm>)
    ensures save == save0 + When(pushes > 0, StackUp(pushes * 8))
    ensures restore == When(pushes > 0, StackDown(pushes * 8)) + restore0
  {
    save, restore := save0, restore0;
    if pushes > 0 {
      save := save + [StackUp(pushes * 8)];
      restore := [StackDown(pushes * 8)] + restore;
    }
  }

  method GetMemInstrumentation(size: Size, free: set<Name>, leaf: bool) returns (code: seq<Asm>, plan: Plan)
    ensures Fits(plan, free) && Chosen(plan, FreeIn(AFFINITY, free), free)
    ensures code == CheckedAccess(plan, leaf, size)
  {
    plan := ChoosePlan(free);
    var save, restore := EmitSaveRestore(plan, leaf);
    var check := EmitCheck(size, plan.r1, plan.r2);
    code := save + check + [ExitLabel] + restore;
  }
}
