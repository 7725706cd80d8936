/** Saving and restoring around the check. */
module AsanFrame {
  import opened Registers
  import opened Machine
  import opened AsanMachine
  import opened Asan

  /** Memory is the same outside the bytes from `lo` up to `hi`. */
  ghost predicate SameOutside(m: Memory, m': Memory, lo: int, hi: int) {
    forall b :: b < lo || hi <= b ==> Peek(m', b) == Peek(m, b)
  }

  lemma ExecFive(a: Asm, b: Asm, c: Asm, d: Asm, e: Asm, m: Processor, s: State)
    ensures ExecAll([a, b, c, d, e], m, s) == m.step(e, m.step(d, m.step(c, m.step(b, m.step(a, s)))))
  {
    assert [a, b, c, d, e] == [a, b] + [c, d, e];
    ExecAppend([a, b], [c, d, e], m, s);
    ExecTwo(a, b, m, s);
    ExecThree(c, d, e, m, m.step(b, m.step(a, s)));
  }

  lemma ExecWhen(b: bool, op: Asm, m: Processor, s: State)
    ensures ExecAll(When(b, op), m, s) == if b then m.step(op, s) else s
  {
    ExecOne(op, m, s);
  }

  lemma PushedWord(s: State, v: int)
    requires 0 <= v < WORDS
    ensures var t := PushWord(s, v);
            Load64(t.mem, t.sp) == v && SameOutside(s.mem, t.mem, t.sp, s.sp)
  {
    LoadAfterStore(s.mem, s.sp - 8, v);
    StoredOutside(s.mem, s.sp - 8, v);
  }

  lemma StoredOutside(m: Memory, a: int, v: int)
    ensures SameOutside(m, Store64(m, a, v), a, a + 8)
  {
    forall b | b < a || a + 8 <= b
      ensures Peek(Store64(m, a, v), b) == Peek(m, b)
    {
      StoreElsewhere(m, a, v, b);
    }
  }

  /** A slot survives writes that end below it. */
  lemma SlotSurvives(m: Memory, m': Memory, lo: int, hi: int, a: int)
    requires SameOutside(m, m', lo, hi) && (hi <= a || a + 8 <= lo)
    ensures Load64(m', a) == Load64(m, a)
  {
    LoadDepends(m', m, a);
  }

  lemma WiderOutside(m: Memory, m': Memory, m'': Memory, lo: int, mid: int, hi: int)
    requires SameOutside(m, m', mid, hi) && SameOutside(m', m'', lo, mid) && lo <= mid <= hi
    ensures SameOutside(m, m'', lo, hi)
  {
  }

  // ----- Flags -----

  /** The word `w` on the stack holds the flags `f` the way the plan stores them. */
  ghost predicate HoldsFlags(plan: FlagsPlan, f: Flags, w: int) {
    match plan
    case FlagsFree => true
    case ByPushf => w == FlagsImage(f)
    case _ => High8(w) == AhImage(f) && Low8(w) == Bit(f.of)
  }

  lemma ImageIsWord(f: Flags)
    ensures 2 <= AhImage(f) < 256 && 0 <= FlagsImage(f) < WORDS
  {
  }

  lemma BitsOut(c: int, p: int, a: int, z: int, g: int)
    requires 0 <= c <= 1 && 0 <= p <= 1 && 0 <= a <= 1 && 0 <= z <= 1 && 0 <= g <= 1
    ensures var b := 2 + c + 4 * p + 16 * a + 64 * z + 128 * g;
            b % 2 == c && b / 4 % 2 == p && b / 16 % 2 == a && b / 64 % 2 == z && b / 128 % 2 == g
  {
    var b := 2 + c + 4 * p + 16 * a + 64 * z + 128 * g;
    assert b / 4 == p + 4 * a + 16 * z + 32 * g;
    assert b / 16 == a + 4 * z + 8 * g;
    assert b / 64 == z + 2 * g;
    assert b / 128 == g;
  }

  lemma ByteRoundTrip(f: Flags)
    ensures FlagsOfByte(AhImage(f), f.of) == f
  {
    BitsOut(Bit(f.cf), Bit(f.pf), Bit(f.af), Bit(f.zf), Bit(f.sf));
  }

  lemma ImageRoundTrip(f: Flags)
    ensures FlagsOfImage(FlagsImage(f)) == f
  {
    ImageIsWord(f);
    ByteRoundTrip(f);
    LowAndEleventh(AhImage(f), Bit(f.of));
  }

  lemma LowAndEleventh(b: int, o: int)
    requires 0 <= b < 256 && 0 <= o <= 1
    ensures (b + 2048 * o) % 256 == b && (b + 2048 * o) / 2048 == o
  {
  }

  lemma MergedBytes(v: int, ah: int, al: int)
    requires 0 <= v < WORDS && 0 <= ah < 256 && 0 <= al < 256
    ensures var w := WithLow8(WithHigh8(v, ah), al);
            0 <= w < WORDS && High8(w) == ah && Low8(w) == al
  {
    var q := v / 65536;
    assert v == 65536 * q + 256 * High8(v) + v % 256;
    var h := WithHigh8(v, ah);
    assert h == 65536 * q + 256 * ah + v % 256;
    var w := WithLow8(h, al);
    assert w == 65536 * q + 256 * ah + al;
    assert w / 256 == 256 * q + ah;
  }

  /** The overflow flag comes back from al by an addition that overflows exactly on 1. */
  lemma OverflowComesBack(of: bool)
    ensures Add7fOverflows(Bit(of)) == of
  {
  }

  lemma HighKept(w: int, al: int)
    requires 0 <= al < 256
    ensures High8(WithLow8(w, al)) == High8(w)
  {
    assert WithLow8(w, al) == 256 * (w / 256) + al;
    assert WithLow8(w, al) / 256 == w / 256;
  }

  // ----- Saving -----

  ghost predicate SameBut(s: State, t: State, except: set<Reg>) {
    forall r: Reg :: r !in except ==> t.R(r) == s.R(r)
  }

  /** What every save of a word does: the word is on top, nothing else in memory changed. */
  ghost predicate Saved(s: State, t: State, w: int) {
    t.sp == s.sp - 8 && t.shadow == s.shadow && t.flags == s.flags
    && Load64(t.mem, t.sp) == w && SameOutside(s.mem, t.mem, t.sp, s.sp)
  }

  lemma SaveReg(m: Processor, s: State, r: Reg)
    requires DoesPush(m, s, r) && 0 <= s.R(r) < WORDS
    ensures var t := m.step(Push(r), s); Saved(s, t, s.R(r)) && t.regs == s.regs
  {
    PushedWord(s, s.R(r));
  }

  lemma SaveByPushf(m: Processor, s: State)
    requires DoesPushFlags(m, s)
    ensures var t := m.step(PushFlags, s); Saved(s, t, FlagsImage(s.flags)) && t.regs == s.regs
  {
    ImageIsWord(s.flags);
    PushedWord(s, FlagsImage(s.flags));
  }

  /** lahf and seto put the flags into rax, and touch nothing else. */
  lemma FlagsIntoRax(m: Processor, s: State, s1: State)
    requires 0 <= s.R(RAX) < WORDS && s1 == m.step(Lahf, s) && DoesLahf(m, s) && DoesSetoAl(m, s1)
    ensures var t := m.step(SetoAl, s1);
            t == SetReg(SetReg(s, RAX, s1.R(RAX)), RAX, t.R(RAX)) &&
            0 <= t.R(RAX) < WORDS && HoldsFlags(ByLahf, s.flags, t.R(RAX))
  {
    ImageIsWord(s.flags);
    MergedBytes(s.R(RAX), AhImage(s.flags), Bit(s.flags.of));
  }

  /** lahf, seto, push: the word pushed carries the flags; only rax changes. */
  lemma SaveByLahf(m: Processor, s: State, s2: State, x: int, y: int)
    requires s2 == SetReg(SetReg(s, RAX, x), RAX, y) && 0 <= y < WORDS && DoesPush(m, s2, RAX)
    ensures var t := m.step(Push(RAX), s2); Saved(s, t, y) && SameBut(s, t, {RAX})
  {
    PushedWord(s2, y);
  }

  lemma SaveByLahfCode(m: Processor, s: State)
    requires Conforms(m) && s.RegsAreWords()
    ensures var t := ExecAll([Lahf, SetoAl, Push(RAX)], m, s);
            exists w :: Saved(s, t, w) && HoldsFlags(ByLahf, s.flags, w) && SameBut(s, t, {RAX})
  {
    ExecThree(Lahf, SetoAl, Push(RAX), m, s);
    var s1 := m.step(Lahf, s);
    var s2 := m.step(SetoAl, s1);
    assert DoesLahf(m, s) && DoesSetoAl(m, s1) && DoesPush(m, s2, RAX);
    FlagsIntoRax(m, s, s1);
    SaveByLahf(m, s, s2, s1.R(RAX), s2.R(RAX));
  }

  /** The registers saving may change: free ones, in every plan that fits. */
  function Parked(plan: Plan): set<Reg> {
    match plan.flags
    case ByLahf => {plan.r2}
    case ByLahfRaxFree => {RAX}
    case _ => {}
  }

  /** What saving the flags does: a word with the flags is on top, unless they are free. */
  ghost predicate FlagsSaved(plan: Plan, s: State, t: State) {
    && SameBut(s, t, Parked(plan))
    && if plan.flags.FlagsFree? then t == s
       else exists w :: Saved(s, t, w) && HoldsFlags(plan.flags, s.flags, w)
  }

  lemma SaveFlagsPlain(plan: Plan, m: Processor, s: State)
    requires Conforms(m) && s.RegsAreWords() && !plan.flags.ByLahf?
    ensures FlagsSaved(plan, s, ExecAll(SaveFlags(plan), m, s))
  {
    match plan.flags {
      case FlagsFree =>
      case ByPushf =>
        ExecOne(PushFlags, m, s);
        assert DoesPushFlags(m, s);
        SaveByPushf(m, s);
      case ByLahfRaxFree => SaveByLahfCode(m, s);
    }
  }

  /** rax is parked in the second scratch register while it carries the flags. */
  lemma SaveFlagsParked(plan: Plan, m: Processor, s: State, s1: State, s2: State)
    requires Conforms(m) && s.RegsAreWords() && plan.flags.ByLahf? && plan.r2 != RAX
    requires s1 == SetReg(s, plan.r2, s.R(RAX))
    requires SameBut(s1, s2, {RAX}) && exists w :: Saved(s1, s2, w) && HoldsFlags(ByLahf, s1.flags, w)
    ensures FlagsSaved(plan, s, SetReg(s2, RAX, s2.R(plan.r2)))
  {
    var w :| Saved(s1, s2, w) && HoldsFlags(ByLahf, s1.flags, w);
    var t := SetReg(s2, RAX, s2.R(plan.r2));
    assert Saved(s, t, w);
    forall r: Reg | r != plan.r2
      ensures t.R(r) == s.R(r)
    {
      assert s1.R(r) == s.R(r);
      assert r != RAX ==> s2.R(r) == s1.R(r);
    }
    assert s2.R(plan.r2) == s1.R(plan.r2);
  }

  lemma SetKeepsValid(s: State, r: Reg, v: int)
    requires s.RegsAreWords() && 0 <= v < WORDS
    ensures SetReg(s, r, v).RegsAreWords()
  {
    forall q: Reg
      ensures 0 <= SetReg(s, r, v).R(q) < WORDS
    {
      assert 0 <= s.R(q) < WORDS;
    }
  }

  lemma SaveFlagsEffect(plan: Plan, m: Processor, s: State)
    requires Conforms(m) && s.RegsAreWords() && (plan.flags.ByLahf? ==> plan.r2 != RAX)
    ensures FlagsSaved(plan, s, ExecAll(SaveFlags(plan), m, s))
  {
    if !plan.flags.ByLahf? {
      SaveFlagsPlain(plan, m, s);
      return;
    }
    var r2 := plan.r2;
    var s1 := m.step(Mov(RAX, r2), s);
    assert DoesMov(m, s, RAX, r2);
    SetKeepsValid(s, r2, s.R(RAX));
    SaveByLahfCode(m, s1);
    var s2 := ExecAll([Lahf, SetoAl, Push(RAX)], m, s1);
    assert DoesMov(m, s2, r2, RAX);
    SaveFlagsParked(plan, m, s, s1, s2);
    ExecFive(Mov(RAX, r2), Lahf, SetoAl, Push(RAX), Mov(r2, RAX), m, s);
    ExecThree(Lahf, SetoAl, Push(RAX), m, s1);
  }

  // ----- Saving, as a whole -----

  function RegSlots(plan: Plan): int {
    (if plan.save1 then 1 else 0) + (if plan.save2 then 1 else 0)
  }

  /** `base` is where the saved values end, below the red zone in a leaf function. */
  function Base(plan: Plan, leaf: bool, s: State): int {
    s.sp - Skip(plan, leaf)
  }

  ghost predicate RegsHeld(plan: Plan, base: int, s: State, mem: Memory) {
    && (plan.save1 ==> Load64(mem, base - 8) == s.R(plan.r1))
    && (plan.save2 ==> Load64(mem, base - 16) == s.R(plan.r2))
  }

  ghost predicate RegsSaved(plan: Plan, base: int, s: State, t: State) {
    && t.regs == s.regs && t.flags == s.flags && t.shadow == s.shadow
    && t.sp == base - 8 * RegSlots(plan)
    && RegsHeld(plan, base, s, t.mem) && SameOutside(s.mem, t.mem, t.sp, base)
  }

  lemma SaveRegsEffect(plan: Plan, leaf: bool, m: Processor, s: State)
    requires Conforms(m) && s.RegsAreWords() && (plan.save2 ==> plan.save1)
    ensures RegsSaved(plan, Base(plan, leaf, s), s, ExecAll(SaveRegs(plan, leaf), m, s))
  {
    var down, push1, push2 := When(Skip(plan, leaf) > 0, StackDown(256)), When(plan.save1, Push(plan.r1)), When(plan.save2, Push(plan.r2));
    ExecAppend(down + push1, push2, m, s);
    ExecAppend(down, push1, m, s);
    ExecWhen(Skip(plan, leaf) > 0, StackDown(256), m, s);
    assert DoesStackDown(m, s, 256);
    var s1 := ExecAll(down, m, s);
    ExecWhen(plan.save1, Push(plan.r1), m, s1);
    var s2 := ExecAll(push1, m, s1);
    ExecWhen(plan.save2, Push(plan.r2), m, s2);
    SameRegsValid(s, s1);
    PushBoth(plan, m, s1);
    assert RegsSaved(plan, Base(plan, leaf, s), s, ExecAll(push2, m, s2));
  }

  lemma PushBoth(plan: Plan, m: Processor, s: State)
    requires Conforms(m) && s.RegsAreWords() && (plan.save2 ==> plan.save1)
    ensures var s1 := if plan.save1 then m.step(Push(plan.r1), s) else s;
            var s2 := if plan.save2 then m.step(Push(plan.r2), s1) else s1;
            RegsSaved(plan, s.sp, s, s2)
  {
    if plan.save1 {
      assert DoesPush(m, s, plan.r1);
      assert 0 <= s.R(plan.r1) < WORDS && 0 <= s.R(plan.r2) < WORDS;
      SaveReg(m, s, plan.r1);
      var s1 := m.step(Push(plan.r1), s);
      if plan.save2 {
        assert DoesPush(m, s1, plan.r2);
        SaveReg(m, s1, plan.r2);
        TwoSaved(s, s1, m.step(Push(plan.r2), s1), s.R(plan.r1), s.R(plan.r2));
      }
    }
  }

  lemma TwoSaved(s: State, s1: State, s2: State, v: int, w: int)
    requires Saved(s, s1, v) && Saved(s1, s2, w)
    ensures Load64(s2.mem, s.sp - 8) == v && Load64(s2.mem, s.sp - 16) == w && SameOutside(s.mem, s2.mem, s2.sp, s.sp)
  {
    SlotSurvives(s1.mem, s2.mem, s2.sp, s1.sp, s.sp - 8);
    WiderOutside(s.mem, s1.mem, s2.mem, s2.sp, s1.sp, s.sp);
  }

  /** Everything the plan saves is in memory below `base`, and the rest is as it was. */
  ghost predicate AllSaved(plan: Plan, base: int, s: State, t: State) {
    && SameBut(s, t, Parked(plan)) && t.shadow == s.shadow
    && t.sp == base - 8 * Slots(plan)
    && RegsHeld(plan, base, s, t.mem)
    && (!plan.flags.FlagsFree? ==> HoldsFlags(plan.flags, s.flags, Load64(t.mem, base - 8 * Slots(plan))))
    && SameOutside(s.mem, t.mem, base - 8 * Slots(plan), base)
  }

  lemma BothSaved(plan: Plan, base: int, s: State, s1: State, t: State)
    requires RegsSaved(plan, base, s, s1) && FlagsSaved(plan, s1, t) && (plan.save2 ==> plan.save1)
    ensures AllSaved(plan, base, s, t)
  {
    if !plan.flags.FlagsFree? {
      var w :| Saved(s1, t, w) && HoldsFlags(plan.flags, s1.flags, w);
      if plan.save1 { SlotSurvives(s1.mem, t.mem, t.sp, s1.sp, base - 8); }
      if plan.save2 { SlotSurvives(s1.mem, t.mem, t.sp, s1.sp, base - 16); }
      WiderOutside(s.mem, s1.mem, t.mem, t.sp, s1.sp, base);
    }
  }

  lemma SameRegsValid(s: State, t: State)
    requires s.RegsAreWords() && t.regs == s.regs
    ensures t.RegsAreWords()
  {
    forall q: Reg
      ensures 0 <= t.R(q) < WORDS
    {
      assert 0 <= s.R(q) < WORDS;
    }
  }

  /** After saving, the stack pointer is back where the program had it. */
  lemma SaveEffect(plan: Plan, leaf: bool, m: Processor, s: State)
    requires Conforms(m) && s.RegsAreWords() && (plan.save2 ==> plan.save1) && (plan.flags.ByLahf? ==> plan.r2 != RAX)
    ensures var t := ExecAll(SaveCode(plan, leaf), m, s);
            AllSaved(plan, Base(plan, leaf, s), s, t.(sp := Base(plan, leaf, s) - 8 * Slots(plan))) && t.sp == s.sp
  {
    var base := Base(plan, leaf, s);
    SaveRegsEffect(plan, leaf, m, s);
    var s1 := ExecAll(SaveRegs(plan, leaf), m, s);
    SameRegsValid(s, s1);
    SaveFlagsEffect(plan, m, s1);
    var s2 := ExecAll(SaveFlags(plan), m, s1);
    BothSaved(plan, base, s, s1, s2);
    ExecAppend(SaveRegs(plan, leaf) + SaveFlags(plan), When(PushCount(plan, leaf) > 0, StackUp(PushCount(plan, leaf) * 8)), m, s);
    ExecAppend(SaveRegs(plan, leaf), SaveFlags(plan), m, s);
    ExecWhen(PushCount(plan, leaf) > 0, StackUp(PushCount(plan, leaf) * 8), m, s2);
    assert DoesStackUp(m, s2, PushCount(plan, leaf) * 8);
  }

  // ----- Restoring -----

  /** What restoring steps have in common: memory and shadow stay, the stack pointer moves up. */
  ghost predicate Popped(s: State, t: State, bytes: int) {
    t.mem == s.mem && t.shadow == s.shadow && t.sp == s.sp + bytes
  }

  /** pop, add, sahf: the flags in the word on top are back; only rax changes. */
  lemma FlagsFromRax(m: Processor, s: State, s1: State, s2: State, f: Flags, w: int)
    requires w == Load64(s.mem, s.sp) && HoldsFlags(ByLahf, f, w)
    requires s1 == m.step(Pop(RAX), s) && s2 == m.step(AddAl7f, s1)
    requires DoesPop(m, s, RAX) && DoesAddAl7f(m, s1) && DoesSahf(m, s2)
    ensures var t := m.step(Sahf, s2);
            Popped(s, t, 8) && t.flags == FlagsOfByte(AhImage(f), f.of) && SameBut(s, t, {RAX})
  {
    assert s1.R(RAX) == w;
    OverflowComesBack(f.of);
    assert 0 <= (Bit(f.of) + 0x7f) % 256 < 256;
    HighKept(w, (Bit(f.of) + 0x7f) % 256);
    assert s2.R(RAX) == WithLow8(w, (Bit(f.of) + 0x7f) % 256);
  }

  lemma RestoreByLahfCode(m: Processor, s: State, f: Flags)
    requires Conforms(m) && HoldsFlags(ByLahf, f, Load64(s.mem, s.sp))
    ensures var t := ExecAll([Pop(RAX), AddAl7f, Sahf], m, s);
            Popped(s, t, 8) && t.flags == f && SameBut(s, t, {RAX})
  {
    ExecThree(Pop(RAX), AddAl7f, Sahf, m, s);
    var s1 := m.step(Pop(RAX), s);
    var s2 := m.step(AddAl7f, s1);
    assert DoesPop(m, s, RAX) && DoesAddAl7f(m, s1) && DoesSahf(m, s2);
    FlagsFromRax(m, s, s1, s2, f, Load64(s.mem, s.sp));
    ByteRoundTrip(f);
  }

  ghost predicate FlagsRestored(plan: Plan, s: State, t: State, f: Flags) {
    && SameBut(s, t, Parked(plan))
    && if plan.flags.FlagsFree? then t == s else Popped(s, t, 8) && t.flags == f
  }

  lemma RestoreFlagsPlain(plan: Plan, m: Processor, s: State, f: Flags)
    requires Conforms(m) && HoldsFlags(plan.flags, f, Load64(s.mem, s.sp)) && !plan.flags.ByLahf?
    ensures FlagsRestored(plan, s, ExecAll(RestoreFlags(plan), m, s), f)
  {
    match plan.flags {
      case FlagsFree =>
      case ByPushf =>
        ExecOne(PopFlags, m, s);
        assert DoesPopFlags(m, s);
        ImageRoundTrip(f);
      case ByLahfRaxFree => RestoreByLahfCode(m, s, f);
    }
  }

  lemma RestoreFlagsParked(plan: Plan, s: State, s1: State, s2: State, f: Flags)
    requires plan.flags.ByLahf? && plan.r2 != RAX && s1 == SetReg(s, plan.r2, s.R(RAX))
    requires Popped(s1, s2, 8) && s2.flags == f && SameBut(s1, s2, {RAX})
    ensures FlagsRestored(plan, s, SetReg(s2, RAX, s2.R(plan.r2)), f)
  {
    var t := SetReg(s2, RAX, s2.R(plan.r2));
    forall r: Reg | r != plan.r2
      ensures t.R(r) == s.R(r)
    {
      assert s1.R(r) == s.R(r);
      assert r != RAX ==> s2.R(r) == s1.R(r);
    }
    assert s2.R(plan.r2) == s1.R(plan.r2);
  }

  lemma RestoreFlagsEffect(plan: Plan, m: Processor, s: State, f: Flags)
    requires Conforms(m) && HoldsFlags(plan.flags, f, Load64(s.mem, s.sp)) && (plan.flags.ByLahf? ==> plan.r2 != RAX)
    ensures FlagsRestored(plan, s, ExecAll(RestoreFlags(plan), m, s), f)
  {
    if !plan.flags.ByLahf? {
      RestoreFlagsPlain(plan, m, s, f);
      return;
    }
    var r2 := plan.r2;
    var s1 := m.step(Mov(RAX, r2), s);
    assert DoesMov(m, s, RAX, r2);
    RestoreByLahfCode(m, s1, f);
    var s2 := ExecAll([Pop(RAX), AddAl7f, Sahf], m, s1);
    assert DoesMov(m, s2, r2, RAX);
    RestoreFlagsParked(plan, s, s1, s2, f);
    ExecFive(Mov(RAX, r2), Pop(RAX), AddAl7f, Sahf, Mov(r2, RAX), m, s);
    ExecThree(Pop(RAX), AddAl7f, Sahf, m, s1);
  }

  /** The saved registers are back and no other register changed. */
  ghost predicate RegsRestored(plan: Plan, base: int, s: State, t: State) {
    && t.mem == s.mem && t.shadow == s.shadow && t.flags == s.flags
    && (forall r: Reg :: t.R(r) ==
          if plan.save1 && r == plan.r1 then Load64(s.mem, base - 8)
          else if plan.save2 && r == plan.r2 then Load64(s.mem, base - 16)
          else s.R(r))
  }

  lemma PopBoth(plan: Plan, m: Processor, s: State, base: int)
    requires Conforms(m) && plan.r1 != plan.r2 && (plan.save2 ==> plan.save1) && s.sp == base - 8 * RegSlots(plan)
    ensures var s1 := if plan.save2 then m.step(Pop(plan.r2), s) else s;
            var s2 := if plan.save1 then m.step(Pop(plan.r1), s1) else s1;
            RegsRestored(plan, base, s, s2) && s2.sp == base
  {
    assert DoesPop(m, s, plan.r2);
    var s1 := if plan.save2 then m.step(Pop(plan.r2), s) else s;
    assert DoesPop(m, s1, plan.r1);
    PopStates(plan, s, s1, if plan.save1 then m.step(Pop(plan.r1), s1) else s1, base);
  }

  lemma PopStates(plan: Plan, s: State, s1: State, s2: State, base: int)
    requires plan.r1 != plan.r2 && (plan.save2 ==> plan.save1) && s.sp == base - 8 * RegSlots(plan)
    requires s1 == if plan.save2 then SetReg(s, plan.r2, Load64(s.mem, s.sp)).(sp := s.sp + 8) else s
    requires s2 == if plan.save1 then SetReg(s1, plan.r1, Load64(s1.mem, s1.sp)).(sp := s1.sp + 8) else s1
    ensures RegsRestored(plan, base, s, s2) && s2.sp == base
  {
    forall r: Reg
      ensures s2.R(r) == if plan.save1 && r == plan.r1 then Load64(s.mem, base - 8)
                         else if plan.save2 && r == plan.r2 then Load64(s.mem, base - 16)
                         else s.R(r)
    {
      assert s1.R(r) == if plan.save2 && r == plan.r2 then Load64(s.mem, base - 16) else s.R(r);
    }
  }

  lemma RestoreRegsEffect(plan: Plan, leaf: bool, m: Processor, s: State, base: int)
    requires Conforms(m) && plan.r1 != plan.r2 && (plan.save2 ==> plan.save1) && s.sp == base - 8 * RegSlots(plan)
    ensures var t := ExecAll(RestoreRegs(plan, leaf), m, s);
            RegsRestored(plan, base, s, t) && t.sp == base + Skip(plan, leaf)
  {
    var pop2, pop1, up := When(plan.save2, Pop(plan.r2)), When(plan.save1, Pop(plan.r1)), When(Skip(plan, leaf) > 0, StackUp(256));
    ExecAppend(pop2 + pop1, up, m, s);
    ExecAppend(pop2, pop1, m, s);
    ExecWhen(plan.save2, Pop(plan.r2), m, s);
    var s1 := ExecAll(pop2, m, s);
    ExecWhen(plan.save1, Pop(plan.r1), m, s1);
    var s2 := ExecAll(pop1, m, s1);
    PopBoth(plan, m, s, base);
    ExecWhen(Skip(plan, leaf) > 0, StackUp(256), m, s2);
    assert DoesStackUp(m, s2, 256);
    var t := ExecAll(up, m, s2);
    forall r: Reg
      ensures t.R(r) == s2.R(r)
    {
    }
  }
}
