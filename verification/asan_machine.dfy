/** Meaning of the instructions the sanitizer templates are made of. */
module AsanMachine {
  import opened Registers
  import opened Machine

  const SHADOW_OFFSET := 2147450880

  datatype Asm =
    | StackUp(bytes: int)           // leaq n(%rsp), %rsp
    | StackDown(bytes: int)         // leaq -n(%rsp), %rsp
    | Push(r: Reg)
    | Pop(r: Reg)
    | PushFlags
    | PopFlags
    | Mov(src: Reg, dst: Reg)
    | Lahf
    | SetoAl
    | AddAl7f
    | Sahf
    | LeaAddress(dst: Reg)          // leaq {lexp}, dst
    | ShiftRight3(r: Reg)
    | LoadShadow(r: Reg)            // movb offset(r), r8
    | CompareShadowZero(r: Reg)     // cmpb $0, offset(r)
    | TestLow(r: Reg)               // testb r8, r8
    | And7(r: Reg)
    | Add32(n: nat, r: Reg)
    | Inc32(r: Reg)
    | SignExtendLow(r: Reg)         // movsbl r8, r32
    | Compare32(src: Reg, dst: Reg)
    | JumpIfEqual                   // to the exit label
    | JumpIfLess                    // to the exit label
    | CallReport
    | ExitLabel

  /** A processor running a template: the address expression of the instrumented operand, and
      the state each instruction makes of a state. What it must do is said below. */
  datatype Processor = Processor(address: State -> int, step: (Asm, State) -> State)

  // ----- Byte memory -----

  function Store64(m: Memory, a: int, v: int): Memory {
    var v1 := v / 256;
    var v2 := v1 / 256;
    var v3 := v2 / 256;
    var v4 := v3 / 256;
    var v5 := v4 / 256;
    var v6 := v5 / 256;
    var v7 := v6 / 256;
    m[a := v % 256][a + 1 := v1 % 256][a + 2 := v2 % 256][a + 3 := v3 % 256]
     [a + 4 := v4 % 256][a + 5 := v5 % 256][a + 6 := v6 % 256][a + 7 := v7 % 256]
  }

  function Load64(m: Memory, a: int): int {
    Peek(m, a) + 256 * (Peek(m, a + 1) + 256 * (Peek(m, a + 2) + 256 * (Peek(m, a + 3)
    + 256 * (Peek(m, a + 4) + 256 * (Peek(m, a + 5) + 256 * (Peek(m, a + 6) + 256 * Peek(m, a + 7)))))))
  }

  lemma SplitsIntoBytes(v: int, v1: int, v2: int, v3: int, v4: int, v5: int, v6: int, v7: int)
    requires 0 <= v < WORDS && v1 == v / 256 && v2 == v1 / 256 && v3 == v2 / 256
    requires v4 == v3 / 256 && v5 == v4 / 256 && v6 == v5 / 256 && v7 == v6 / 256
    ensures v == v % 256 + 256 * (v1 % 256 + 256 * (v2 % 256 + 256 * (v3 % 256
                 + 256 * (v4 % 256 + 256 * (v5 % 256 + 256 * (v6 % 256 + 256 * (v7 % 256)))))))
  {
    assert v7 < 256;
  }

  lemma LoadAfterStore(m: Memory, a: int, v: int)
    requires 0 <= v < WORDS
    ensures Load64(Store64(m, a, v), a) == v
  {
    var v1 := v / 256;
    var v2 := v1 / 256;
    var v3 := v2 / 256;
    var v4 := v3 / 256;
    var v5 := v4 / 256;
    var v6 := v5 / 256;
    SplitsIntoBytes(v, v1, v2, v3, v4, v5, v6, v6 / 256);
  }

  lemma StoreElsewhere(m: Memory, a: int, v: int, b: int)
    requires b < a || a + 8 <= b
    ensures Peek(Store64(m, a, v), b) == Peek(m, b)
  {
  }

  /** A load sees only its eight bytes. */
  lemma LoadDepends(m: Memory, m': Memory, a: int)
    requires forall b :: a <= b < a + 8 ==> Peek(m, b) == Peek(m', b)
    ensures Load64(m, a) == Load64(m', a)
  {
  }

  // ----- Flags -----

  function Bit(b: bool): int {
    if b then 1 else 0
  }

  /** What lahf puts in ah, and the low byte of the flags image; bit 1 is always set. */
  function AhImage(f: Flags): int {
    2 + Bit(f.cf) + 4 * Bit(f.pf) + 16 * Bit(f.af) + 64 * Bit(f.zf) + 128 * Bit(f.sf)
  }

  /** The stack image of the flags. */
  function FlagsImage(f: Flags): int {
    AhImage(f) + 2048 * Bit(f.of)
  }

  /** The status flags in a byte laid out as ah is, with the given overflow flag. */
  function FlagsOfByte(b: int, of: bool): Flags {
    Flags(b % 2 == 1, b / 4 % 2 == 1, b / 16 % 2 == 1, b / 64 % 2 == 1, b / 128 % 2 == 1, of)
  }

  function FlagsOfImage(v: int): Flags {
    FlagsOfByte(v % 256, v / 2048 % 2 == 1)
  }

  function Low8(v: int): int {
    v % 256
  }

  /** Bits 8 to 15: ah, when the word is rax. */
  function High8(v: int): int {
    v / 256 % 256
  }

  function WithLow8(v: int, b: int): int {
    v - v % 256 + b
  }

  function WithHigh8(v: int, b: int): int {
    v - High8(v) * 256 + b * 256
  }

  const DWORDS := 0x1_0000_0000

  function Low32(v: int): int {
    v % DWORDS
  }

  /** Two's complement readings. */
  function Signed8(b: int): int {
    if b < 128 then b else b - 256
  }

  function Signed32(v: int): int {
    if v < 0x8000_0000 then v else v - DWORDS
  }

  function SignExtend(b: int): int {
    if b < 128 then b else b + 0xffff_ff00
  }

  /** Adding 0x7f to a byte overflows as a signed addition. */
  predicate Add7fOverflows(al: int) {
    !(-128 <= Signed8(al) + 0x7f < 128)
  }

  /** The sign and overflow flags after comparing two 32-bit values. */
  predicate CompareSign(a: int, b: int) {
    (a - b) % DWORDS >= 0x8000_0000
  }

  predicate CompareOverflows(a: int, b: int) {
    !(-0x8000_0000 <= Signed32(a) - Signed32(b) < 0x8000_0000)
  }

  // ----- Instructions -----

  function SetReg(s: State, r: Reg, v: int): State {
    s.(regs := s.regs[r := v])
  }

  function PushWord(s: State, v: int): State {
    s.(sp := s.sp - 8, mem := Store64(s.mem, s.sp - 8, v))
  }

  /** The sum of two words, wrapped. */
  function Wrapped(v: int): int {
    if v < WORDS then v else v - WORDS
  }

  function LoadedShadow(s: State, r: Reg): int {
    Peek(s.shadow, Wrapped(s.R(r) + SHADOW_OFFSET))
  }

  /** `t` is `s` but for its flags. */
  ghost predicate UpToFlags(s: State, t: State) {
    t.regs == s.regs && t.sp == s.sp && t.mem == s.mem && t.shadow == s.shadow
  }

  ghost predicate DoesStackUp(m: Processor, s: State, n: int) {
    m.step(StackUp(n), s) == s.(sp := s.sp + n)
  }

  ghost predicate DoesStackDown(m: Processor, s: State, n: int) {
    m.step(StackDown(n), s) == s.(sp := s.sp - n)
  }

  ghost predicate DoesPush(m: Processor, s: State, r: Reg) {
    m.step(Push(r), s) == PushWord(s, s.R(r))
  }

  ghost predicate DoesPop(m: Processor, s: State, r: Reg) {
    m.step(Pop(r), s) == SetReg(s, r, Load64(s.mem, s.sp)).(sp := s.sp + 8)
  }

  ghost predicate DoesPushFlags(m: Processor, s: State) {
    m.step(PushFlags, s) == PushWord(s, FlagsImage(s.flags))
  }

  ghost predicate DoesPopFlags(m: Processor, s: State) {
    m.step(PopFlags, s) == s.(sp := s.sp + 8, flags := FlagsOfImage(Load64(s.mem, s.sp)))
  }

  ghost predicate DoesMov(m: Processor, s: State, src: Reg, dst: Reg) {
    m.step(Mov(src, dst), s) == SetReg(s, dst, s.R(src))
  }

  ghost predicate DoesLahf(m: Processor, s: State) {
    m.step(Lahf, s) == SetReg(s, RAX, WithHigh8(s.R(RAX), AhImage(s.flags)))
  }

  ghost predicate DoesSetoAl(m: Processor, s: State) {
    m.step(SetoAl, s) == SetReg(s, RAX, WithLow8(s.R(RAX), Bit(s.flags.of)))
  }

  /** Of the flags this sets, only the overflow flag outlives the next instruction. */
  ghost predicate DoesAddAl7f(m: Processor, s: State) {
    var al := Low8(s.R(RAX));
    var t := m.step(AddAl7f, s);
    UpToFlags(SetReg(s, RAX, WithLow8(s.R(RAX), (al + 0x7f) % 256)), t) && t.flags.of == Add7fOverflows(al)
  }

  ghost predicate DoesSahf(m: Processor, s: State) {
    m.step(Sahf, s) == s.(flags := FlagsOfByte(High8(s.R(RAX)), s.flags.of))
  }

  ghost predicate DoesLeaAddress(m: Processor, s: State, dst: Reg) {
    m.step(LeaAddress(dst), s) == SetReg(s, dst, m.address(s))
  }

  ghost predicate DoesShiftRight3(m: Processor, s: State, r: Reg) {
    UpToFlags(SetReg(s, r, s.R(r) / 8), m.step(ShiftRight3(r), s))
  }

  ghost predicate DoesLoadShadow(m: Processor, s: State, r: Reg) {
    m.step(LoadShadow(r), s) == SetReg(s, r, WithLow8(s.R(r), LoadedShadow(s, r)))
  }

  ghost predicate DoesCompareShadowZero(m: Processor, s: State, r: Reg) {
    var t := m.step(CompareShadowZero(r), s);
    UpToFlags(s, t) && t.flags.zf == (LoadedShadow(s, r) == 0)
  }

  ghost predicate DoesTestLow(m: Processor, s: State, r: Reg) {
    var t := m.step(TestLow(r), s);
    UpToFlags(s, t) && t.flags.zf == (Low8(s.R(r)) == 0)
  }

  /** Keeps the three low bits; a 32-bit result clears the upper half of its register. */
  ghost predicate DoesAnd7(m: Processor, s: State, r: Reg) {
    UpToFlags(SetReg(s, r, s.R(r) % 8), m.step(And7(r), s))
  }

  ghost predicate DoesAdd32(m: Processor, s: State, n: nat, r: Reg) {
    UpToFlags(SetReg(s, r, (Low32(s.R(r)) + n) % DWORDS), m.step(Add32(n, r), s))
  }

  ghost predicate DoesInc32(m: Processor, s: State, r: Reg) {
    UpToFlags(SetReg(s, r, (Low32(s.R(r)) + 1) % DWORDS), m.step(Inc32(r), s))
  }

  ghost predicate DoesSignExtendLow(m: Processor, s: State, r: Reg) {
    m.step(SignExtendLow(r), s) == SetReg(s, r, SignExtend(Low8(s.R(r))))
  }

  ghost predicate DoesCompare32(m: Processor, s: State, src: Reg, dst: Reg) {
    var t := m.step(Compare32(src, dst), s);
    && UpToFlags(s, t)
    && t.flags.sf == CompareSign(Low32(s.R(dst)), Low32(s.R(src)))
    && t.flags.of == CompareOverflows(Low32(s.R(dst)), Low32(s.R(src)))
  }

  ghost predicate StackConforms(m: Processor) {
    && (forall s, n :: DoesStackUp(m, s, n))
    && (forall s, n :: DoesStackDown(m, s, n))
    && (forall s, r :: DoesPush(m, s, r))
    && (forall s, r :: DoesPop(m, s, r))
    && (forall s :: DoesPushFlags(m, s))
    && (forall s :: DoesPopFlags(m, s))
  }

  ghost predicate FlagsConform(m: Processor) {
    && (forall s, src, dst :: DoesMov(m, s, src, dst))
    && (forall s :: DoesLahf(m, s))
    && (forall s :: DoesSetoAl(m, s))
    && (forall s :: DoesAddAl7f(m, s))
    && (forall s :: DoesSahf(m, s))
  }

  ghost predicate CheckConforms(m: Processor) {
    && (forall s, r :: DoesLeaAddress(m, s, r))
    && (forall s, r :: DoesShiftRight3(m, s, r))
    && (forall s, r :: DoesLoadShadow(m, s, r))
    && (forall s, r :: DoesCompareShadowZero(m, s, r))
    && (forall s, r :: DoesTestLow(m, s, r))
    && (forall s, r :: DoesAnd7(m, s, r))
    && (forall s, n, r :: DoesAdd32(m, s, n, r))
    && (forall s, r :: DoesInc32(m, s, r))
    && (forall s, r :: DoesSignExtendLow(m, s, r))
    && (forall s, src, dst :: DoesCompare32(m, s, src, dst))
    && (forall s :: AddressIsWord(m, s))
  }

  ghost predicate AddressIsWord(m: Processor, s: State) {
    0 <= m.address(s) < WORDS
  }

  /** A processor that does what the manual says; flags the manual leaves undefined, and the
      ones no template looks at, are not constrained. */
  ghost predicate Conforms(m: Processor) {
    StackConforms(m) && FlagsConform(m) && CheckConforms(m)
  }

  // ----- Running code -----

  datatype Outcome = Reported | Finished(s: State)

  function ExecAll(code: seq<Asm>, m: Processor, s: State): State
    decreases |code|
  {
    if code == [] then s else ExecAll(code[1..], m, m.step(code[0], s))
  }

  /** Running a template: a taken jump skips to the exit label, and a report does not return. */
  function RunCode(code: seq<Asm>, m: Processor, s: State): Outcome
    decreases |code|
  {
    if code == [] then Finished(s)
    else
      match code[0]
      case JumpIfEqual => if s.flags.zf then RunCode(AfterExit(code[1..]), m, s) else RunCode(code[1..], m, s)
      case JumpIfLess => if s.flags.sf != s.flags.of then RunCode(AfterExit(code[1..]), m, s) else RunCode(code[1..], m, s)
      case CallReport => Reported
      case ExitLabel => RunCode(code[1..], m, s)
      case op => RunCode(code[1..], m, m.step(op, s))
  }

  function AfterExit(code: seq<Asm>): (rest: seq<Asm>)
    ensures |rest| <= |code|
  {
    if code == [] then [] else if code[0] == ExitLabel then code[1..] else AfterExit(code[1..])
  }

  predicate Straight(op: Asm) {
    !op.JumpIfEqual? && !op.JumpIfLess? && !op.CallReport? && !op.ExitLabel?
  }

  lemma {:induction false} RunStraight(code: seq<Asm>, rest: seq<Asm>, m: Processor, s: State)
    requires forall k :: 0 <= k < |code| ==> Straight(code[k])
    ensures RunCode(code + rest, m, s) == RunCode(rest, m, ExecAll(code, m, s))
    decreases |code|
  {
    if code == [] {
      assert code + rest == rest;
    } else {
      assert (code + rest)[1..] == code[1..] + rest;
      RunStraight(code[1..], rest, m, m.step(code[0], s));
    }
  }

  lemma {:induction false} ExecAppend(a: seq<Asm>, b: seq<Asm>, m: Processor, s: State)
    ensures ExecAll(a + b, m, s) == ExecAll(b, m, ExecAll(a, m, s))
    decreases |a|
  {
    if a == [] {
      assert a + b == b;
    } else {
      assert (a + b)[1..] == a[1..] + b;
      ExecAppend(a[1..], b, m, m.step(a[0], s));
    }
  }

  lemma ExecOne(op: Asm, m: Processor, s: State)
    ensures ExecAll([op], m, s) == m.step(op, s)
  {
    assert [op][1..] == [];
  }

  lemma ExecTwo(a: Asm, b: Asm, m: Processor, s: State)
    ensures ExecAll([a, b], m, s) == m.step(b, m.step(a, s))
  {
    assert [a, b][1..] == [b];
    ExecOne(b, m, m.step(a, s));
  }

  lemma ExecThree(a: Asm, b: Asm, c: Asm, m: Processor, s: State)
    ensures ExecAll([a, b, c], m, s) == m.step(c, m.step(b, m.step(a, s)))
  {
    assert [a, b, c][1..] == [b, c];
    ExecTwo(b, c, m, m.step(a, s));
  }
}
