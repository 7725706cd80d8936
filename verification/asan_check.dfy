/** What the check proper does when it runs: it decides by the shadow byte of the address it
    computes, and otherwise touches nothing but its two scratch registers and the flags. */
module AsanCheck {
  import opened Registers
  import opened Machine
  import opened AsanMachine
  import opened Asan
  import opened AsanShadow

  /** `t` differs from `s` at most in the two registers and the flags. */
  ghost predicate OnlyScratch(s: State, t: State, clob: Reg, tgt: Reg) {
    && t.sp == s.sp && t.mem == s.mem && t.shadow == s.shadow
    && forall r: Reg :: r != clob && r != tgt ==> t.R(r) == s.R(r)
  }

  /** The address arithmetic common to all sizes. */
  lemma AddressBlock(clob: Reg, tgt: Reg, m: Processor, s: State)
    requires Conforms(m) && clob != tgt
    ensures var t := ExecAll([LeaAddress(clob), Mov(clob, tgt), ShiftRight3(tgt)], m, s);
            t.R(clob) == m.address(s) && t.R(tgt) == m.address(s) / 8 && OnlyScratch(s, t, clob, tgt)
  {
    ExecThree(LeaAddress(clob), Mov(clob, tgt), ShiftRight3(tgt), m, s);
    var s1 := m.step(LeaAddress(clob), s);
    var s2 := m.step(Mov(clob, tgt), s1);
    assert DoesLeaAddress(m, s, clob) && DoesMov(m, s1, clob, tgt) && DoesShiftRight3(m, s2, tgt);
  }

  lemma ShadowSteps(clob: Reg, tgt: Reg, m: Processor, s: State, s1: State, v: int, k: int)
    requires clob != tgt && s1 == SetReg(s, tgt, v) && Low8(v) == k && DoesTestLow(m, s1, tgt)
    ensures var t := m.step(TestLow(tgt), s1);
            t.R(clob) == s.R(clob) && Low8(t.R(tgt)) == k && (t.flags.zf <==> k == 0) && OnlyScratch(s, t, clob, tgt)
  {
  }

  lemma ShadowBlock(clob: Reg, tgt: Reg, m: Processor, s: State)
    requires Conforms(m) && clob != tgt && 0 <= LoadedShadow(s, tgt) < 256
    ensures var k := LoadedShadow(s, tgt);
            var t := ExecAll([LoadShadow(tgt), TestLow(tgt)], m, s);
            t.R(clob) == s.R(clob) && Low8(t.R(tgt)) == k && (t.flags.zf <==> k == 0) && OnlyScratch(s, t, clob, tgt)
  {
    ExecTwo(LoadShadow(tgt), TestLow(tgt), m, s);
    var s1 := m.step(LoadShadow(tgt), s);
    assert DoesLoadShadow(m, s, tgt) && DoesTestLow(m, s1, tgt);
    LowReplaced(s.R(tgt), LoadedShadow(s, tgt));
    ShadowSteps(clob, tgt, m, s, s1, WithLow8(s.R(tgt), LoadedShadow(s, tgt)), LoadedShadow(s, tgt));
  }

  lemma LowReplaced(v: int, b: int)
    requires 0 <= b < 256
    ensures Low8(WithLow8(v, b)) == b
  {
  }

  /** The middle instruction that adds size - 1 to the offset; there is none for size 1. */
  function Middle(size: Size, clob: Reg): seq<Asm> {
    match size
    case Two => [Inc32(clob)]
    case Four => [Add32(3, clob)]
    case _ => []
  }

  lemma AndBlock(clob: Reg, tgt: Reg, m: Processor, s: State)
    requires DoesAnd7(m, s, clob) && clob != tgt
    ensures var t := m.step(And7(clob), s);
            t.R(clob) == s.R(clob) % 8 && t.R(tgt) == s.R(tgt) && OnlyScratch(s, t, clob, tgt)
  {
  }

  lemma IncBlock(clob: Reg, tgt: Reg, m: Processor, s: State)
    requires DoesInc32(m, s, clob) && clob != tgt && 0 <= s.R(clob) < 8
    ensures var t := m.step(Inc32(clob), s);
            t.R(clob) == s.R(clob) + 1 && t.R(tgt) == s.R(tgt) && OnlyScratch(s, t, clob, tgt)
  {
  }

  lemma AddBlock(clob: Reg, tgt: Reg, m: Processor, s: State)
    requires DoesAdd32(m, s, 3, clob) && clob != tgt && 0 <= s.R(clob) < 8
    ensures var t := m.step(Add32(3, clob), s);
            t.R(clob) == s.R(clob) + 3 && t.R(tgt) == s.R(tgt) && OnlyScratch(s, t, clob, tgt)
  {
  }

  lemma OffsetBlock(size: Size, clob: Reg, tgt: Reg, m: Processor, s: State)
    requires Conforms(m) && clob != tgt && size != Eight
    ensures var t := ExecAll([And7(clob)] + Middle(size, clob), m, s);
            t.R(clob) == s.R(clob) % 8 + Bytes(size) - 1 && t.R(tgt) == s.R(tgt) && OnlyScratch(s, t, clob, tgt)
  {
    assert DoesAnd7(m, s, clob);
    AndBlock(clob, tgt, m, s);
    var s1 := m.step(And7(clob), s);
    ExecAppend([And7(clob)], Middle(size, clob), m, s);
    ExecOne(And7(clob), m, s);
    if size == Two {
      assert DoesInc32(m, s1, clob);
      IncBlock(clob, tgt, m, s1);
      ExecOne(Inc32(clob), m, s1);
    } else if size == Four {
      assert DoesAdd32(m, s1, 3, clob);
      AddBlock(clob, tgt, m, s1);
      ExecOne(Add32(3, clob), m, s1);
    }
  }

  /** A signed comparison is what the sign and overflow flags tell together. */
  lemma LessByFlags(a: int, b: int)
    requires 0 <= a < DWORDS && 0 <= b < DWORDS
    ensures CompareSign(a, b) != CompareOverflows(a, b) <==> Signed32(a) < Signed32(b)
  {
  }

  lemma Extended(b: int)
    requires 0 <= b < 256
    ensures 0 <= SignExtend(b) < DWORDS && Signed32(SignExtend(b)) == Signed8(b)
  {
  }

  lemma CompareSteps(clob: Reg, tgt: Reg, m: Processor, s: State, s1: State)
    requires s1 == m.step(SignExtendLow(tgt), s) && DoesSignExtendLow(m, s, tgt) && DoesCompare32(m, s1, tgt, clob)
    requires clob != tgt && 0 <= s.R(clob) < 16
    ensures var t := m.step(Compare32(tgt, clob), s1);
            var k := SignExtend(Low8(s.R(tgt)));
            t.flags.sf == CompareSign(s.R(clob), k) && t.flags.of == CompareOverflows(s.R(clob), k) && OnlyScratch(s, t, clob, tgt)
  {
    Extended(Low8(s.R(tgt)));
    assert Low32(s1.R(tgt)) == SignExtend(Low8(s.R(tgt)));
    assert Low32(s1.R(clob)) == s.R(clob);
  }

  lemma CompareBlock(clob: Reg, tgt: Reg, m: Processor, s: State)
    requires Conforms(m) && clob != tgt && 0 <= s.R(clob) < 16
    ensures var t := ExecAll([SignExtendLow(tgt), Compare32(tgt, clob)], m, s);
            (t.flags.sf != t.flags.of <==> s.R(clob) < Signed8(Low8(s.R(tgt)))) && OnlyScratch(s, t, clob, tgt)
  {
    ExecTwo(SignExtendLow(tgt), Compare32(tgt, clob), m, s);
    var s1 := m.step(SignExtendLow(tgt), s);
    assert DoesSignExtendLow(m, s, tgt) && DoesCompare32(m, s1, tgt, clob);
    CompareSteps(clob, tgt, m, s, s1);
    Extended(Low8(s.R(tgt)));
    LessByFlags(s.R(clob), SignExtend(Low8(s.R(tgt))));
  }

  lemma Reassociate(a: seq<Asm>, b: seq<Asm>, c: seq<Asm>)
    ensures (a + b) + c == a + (b + c)
  {
  }

  // ----- Jumps -----

  lemma RunJumpIfEqual(rest: seq<Asm>, m: Processor, s: State)
    ensures RunCode([JumpIfEqual] + rest, m, s) == if s.flags.zf then RunCode(AfterExit(rest), m, s) else RunCode(rest, m, s)
  {
    assert ([JumpIfEqual] + rest)[1..] == rest;
  }

  lemma RunJumpIfLess(rest: seq<Asm>, m: Processor, s: State)
    ensures RunCode([JumpIfLess] + rest, m, s) ==
            if s.flags.sf != s.flags.of then RunCode(AfterExit(rest), m, s) else RunCode(rest, m, s)
  {
    assert ([JumpIfLess] + rest)[1..] == rest;
  }

  lemma {:induction false} ExitFound(code: seq<Asm>, rest: seq<Asm>)
    requires ExitLabel !in code
    ensures AfterExit(code + ([ExitLabel] + rest)) == rest
    decreases |code|
  {
    var all := code + ([ExitLabel] + rest);
    if code == [] {
      assert all == [ExitLabel] + rest;
      assert all[1..] == rest;
    } else {
      assert all[0] == code[0];
      assert all[1..] == code[1..] + ([ExitLabel] + rest);
      ExitFound(code[1..], rest);
    }
  }

  // ----- The whole check -----

  /** The check decides by the shadow byte of the address, and a run that passes goes on after
      the exit label with only the scratch registers and the flags changed. */
  ghost predicate Decides(size: Size, clob: Reg, tgt: Reg, m: Processor, s: State, rest: seq<Asm>) {
    var a := m.address(s);
    var out := RunCode(CheckCode(size, clob, tgt) + ([ExitLabel] + rest), m, s);
    if Decision(size, a, ShadowOf(s.shadow, a)) then out == Reported
    else exists t :: OnlyScratch(s, t, clob, tgt) && out == RunCode(rest, m, t)
  }

  /** Straight code, then a jump to the exit label that is taken or falls into the report. */
  lemma RunToReport(code: seq<Asm>, jump: Asm, rest: seq<Asm>, m: Processor, s: State)
    requires jump == JumpIfLess || jump == JumpIfEqual
    requires forall k :: 0 <= k < |code| ==> Straight(code[k])
    ensures var t := ExecAll(code, m, s);
            RunCode(code + ([jump] + ([CallReport] + ([ExitLabel] + rest))), m, s) ==
            if (if jump == JumpIfLess then t.flags.sf != t.flags.of else t.flags.zf) then RunCode(rest, m, t) else Reported
  {
    var after := [CallReport] + ([ExitLabel] + rest);
    RunStraight(code, [jump] + after, m, s);
    ExitFound([CallReport], rest);
    if jump == JumpIfLess {
      RunJumpIfLess(after, m, ExecAll(code, m, s));
    } else {
      RunJumpIfEqual(after, m, ExecAll(code, m, s));
    }
  }

  /** The two-stage shape of the small checks: exit early, or compute on and exit or report. */
  lemma RunTwoStages(first: seq<Asm>, last: seq<Asm>, rest: seq<Asm>, m: Processor, s: State)
    requires forall k :: 0 <= k < |first| ==> Straight(first[k])
    requires forall k :: 0 <= k < |last| ==> Straight(last[k])
    ensures var t := ExecAll(first, m, s);
            var u := ExecAll(last, m, t);
            RunCode(first + ([JumpIfEqual] + ((last + ([JumpIfLess] + [CallReport])) + ([ExitLabel] + rest))), m, s) ==
            if t.flags.zf then RunCode(rest, m, t)
            else if u.flags.sf != u.flags.of then RunCode(rest, m, u) else Reported
  {
    var t := ExecAll(first, m, s);
    var tail := [ExitLabel] + rest;
    var half := last + ([JumpIfLess] + [CallReport]);
    RunStraight(first, [JumpIfEqual] + (half + tail), m, s);
    RunJumpIfEqual(half + tail, m, t);
    assert ExitLabel !in half;
    ExitFound(half, rest);
    Reassociate(last, [JumpIfLess] + [CallReport], tail);
    Reassociate([JumpIfLess], [CallReport], tail);
    RunToReport(last, JumpIfLess, rest, m, t);
  }

  function AddressCode(clob: Reg, tgt: Reg): seq<Asm> {
    [LeaAddress(clob), Mov(clob, tgt), ShiftRight3(tgt)]
  }

  function ShadowCode(tgt: Reg): seq<Asm> {
    [LoadShadow(tgt), TestLow(tgt)]
  }

  function OffsetCode(size: Size, clob: Reg): seq<Asm> {
    [And7(clob)] + Middle(size, clob)
  }

  function CompareCode(clob: Reg, tgt: Reg): seq<Asm> {
    [SignExtendLow(tgt), Compare32(tgt, clob)]
  }

  lemma CheckInBlocks(size: Size, clob: Reg, tgt: Reg, tail: seq<Asm>)
    requires size != Eight
    ensures CheckCode(size, clob, tgt) + tail ==
            (AddressCode(clob, tgt) + ShadowCode(tgt)) +
            ([JumpIfEqual] + (((OffsetCode(size, clob) + CompareCode(clob, tgt)) + ([JumpIfLess] + [CallReport])) + tail))
    ensures forall op :: op in AddressCode(clob, tgt) + ShadowCode(tgt) ==> Straight(op)
    ensures forall op :: op in OffsetCode(size, clob) + CompareCode(clob, tgt) ==> Straight(op)
  {
  }

  lemma EightInBlocks(clob: Reg, tgt: Reg, tail: seq<Asm>)
    ensures CheckCode(Eight, clob, tgt) + tail ==
            (AddressCode(clob, tgt) + [CompareShadowZero(tgt)]) + ([JumpIfEqual] + ([CallReport] + tail))
    ensures forall op :: op in AddressCode(clob, tgt) + [CompareShadowZero(tgt)] ==> Straight(op)
  {
  }

  lemma FirstBlocks(clob: Reg, tgt: Reg, m: Processor, s: State)
    requires Conforms(m) && HoldsBytes(s.shadow) && clob != tgt
    ensures var k := ShadowOf(s.shadow, m.address(s));
            var t := ExecAll(AddressCode(clob, tgt) + ShadowCode(tgt), m, s);
            t.R(clob) == m.address(s) && Low8(t.R(tgt)) == k && (t.flags.zf <==> k == 0) && OnlyScratch(s, t, clob, tgt)
    ensures var t := ExecAll(AddressCode(clob, tgt) + [CompareShadowZero(tgt)], m, s);
            (t.flags.zf <==> ShadowOf(s.shadow, m.address(s)) == 0) && OnlyScratch(s, t, clob, tgt)
  {
    assert AddressIsWord(m, s);
    AddressBlock(clob, tgt, m, s);
    var s1 := ExecAll(AddressCode(clob, tgt), m, s);
    assert LoadedShadow(s1, tgt) == ShadowOf(s.shadow, m.address(s));
    ExecAppend(AddressCode(clob, tgt), ShadowCode(tgt), m, s);
    ShadowBlock(clob, tgt, m, s1);
    ExecAppend(AddressCode(clob, tgt), [CompareShadowZero(tgt)], m, s);
    ExecOne(CompareShadowZero(tgt), m, s1);
    assert DoesCompareShadowZero(m, s1, tgt);
  }

  lemma LastBlocks(size: Size, clob: Reg, tgt: Reg, m: Processor, s: State)
    requires Conforms(m) && size != Eight && clob != tgt
    ensures var t := ExecAll(OffsetCode(size, clob) + CompareCode(clob, tgt), m, s);
            (t.flags.sf != t.flags.of <==> s.R(clob) % 8 + Bytes(size) - 1 < Signed8(Low8(s.R(tgt)))) && OnlyScratch(s, t, clob, tgt)
  {
    OffsetBlock(size, clob, tgt, m, s);
    ExecAppend(OffsetCode(size, clob), CompareCode(clob, tgt), m, s);
    CompareBlock(clob, tgt, m, ExecAll(OffsetCode(size, clob), m, s));
  }

  lemma CheckEight(clob: Reg, tgt: Reg, m: Processor, s: State, rest: seq<Asm>)
    requires Conforms(m) && HoldsBytes(s.shadow) && clob != tgt
    ensures Decides(Eight, clob, tgt, m, s, rest)
  {
    var first := AddressCode(clob, tgt) + [CompareShadowZero(tgt)];
    EightInBlocks(clob, tgt, [ExitLabel] + rest);
    RunToReport(first, JumpIfEqual, rest, m, s);
    FirstBlocks(clob, tgt, m, s);
    assert OnlyScratch(s, ExecAll(first, m, s), clob, tgt);
  }

  lemma CheckSmall(size: Size, clob: Reg, tgt: Reg, m: Processor, s: State, rest: seq<Asm>)
    requires Conforms(m) && HoldsBytes(s.shadow) && size != Eight && clob != tgt
    ensures Decides(size, clob, tgt, m, s, rest)
  {
    var first := AddressCode(clob, tgt) + ShadowCode(tgt);
    var last := OffsetCode(size, clob) + CompareCode(clob, tgt);
    CheckInBlocks(size, clob, tgt, [ExitLabel] + rest);
    RunTwoStages(first, last, rest, m, s);
    var t := ExecAll(first, m, s);
    FirstBlocks(clob, tgt, m, s);
    LastBlocks(size, clob, tgt, m, t);
    assert OnlyScratch(s, ExecAll(last, m, t), clob, tgt);
  }

  lemma CheckDecides(size: Size, clob: Reg, tgt: Reg, m: Processor, s: State, rest: seq<Asm>)
    requires Conforms(m) && HoldsBytes(s.shadow) && clob != tgt
    ensures Decides(size, clob, tgt, m, s, rest)
  {
    if size == Eight {
      CheckEight(clob, tgt, m, s, rest);
    } else {
      CheckSmall(size, clob, tgt, m, s, rest);
    }
  }
}
