/** A processor that does what the theorems ask of one: they are not about nothing. */
module AsanReference {
  import opened Registers
  import opened Machine
  import opened AsanMachine
  import opened AsanTheorem

  /** One instruction; the flags that no template looks at stay as they are. */
  function Step(address: State -> int, op: Asm, s: State): State {
    match op
    case StackUp(n) => s.(sp := s.sp + n)
    case StackDown(n) => s.(sp := s.sp - n)
    case Push(r) => PushWord(s, s.R(r))
    case Pop(r) => SetReg(s, r, Load64(s.mem, s.sp)).(sp := s.sp + 8)
    case PushFlags => PushWord(s, FlagsImage(s.flags))
    case PopFlags => s.(sp := s.sp + 8, flags := FlagsOfImage(Load64(s.mem, s.sp)))
    case Mov(src, dst) => SetReg(s, dst, s.R(src))
    case Lahf => SetReg(s, RAX, WithHigh8(s.R(RAX), AhImage(s.flags)))
    case SetoAl => SetReg(s, RAX, WithLow8(s.R(RAX), Bit(s.flags.of)))
    case AddAl7f =>
      var al := Low8(s.R(RAX));
      SetReg(s, RAX, WithLow8(s.R(RAX), (al + 0x7f) % 256)).(flags := s.flags.(of := Add7fOverflows(al)))
    case Sahf => s.(flags := FlagsOfByte(High8(s.R(RAX)), s.flags.of))
    case LeaAddress(dst) => SetReg(s, dst, address(s))
    case ShiftRight3(r) => SetReg(s, r, s.R(r) / 8)
    case LoadShadow(r) => SetReg(s, r, WithLow8(s.R(r), LoadedShadow(s, r)))
    case CompareShadowZero(r) => s.(flags := s.flags.(zf := LoadedShadow(s, r) == 0))
    case TestLow(r) => s.(flags := s.flags.(zf := Low8(s.R(r)) == 0))
    case And7(r) => SetReg(s, r, s.R(r) % 8)
    case Add32(n, r) => SetReg(s, r, (Low32(s.R(r)) + n) % DWORDS)
    case Inc32(r) => SetReg(s, r, (Low32(s.R(r)) + 1) % DWORDS)
    case SignExtendLow(r) => SetReg(s, r, SignExtend(Low8(s.R(r))))
    case Compare32(src, dst) =>
      var a, b := Low32(s.R(dst)), Low32(s.R(src));
      s.(flags := s.flags.(sf := CompareSign(a, b), of := CompareOverflows(a, b)))
    case _ => s
  }

  ghost function Reference(address: State -> int): Processor {
    Processor(address, (op: Asm, s: State) => Step(address, op, s))
  }

  lemma SetRegValid(s: State, r: Reg, v: int)
    requires s.Valid() && 0 <= v < WORDS
    ensures SetReg(s, r, v).Valid()
  {
    var t := SetReg(s, r, v);
    forall q: Reg
      ensures 0 <= t.R(q) < WORDS
    {
      assert 0 <= s.R(q) < WORDS;
    }
  }

  lemma PushWordValid(s: State, v: int)
    requires s.Valid()
    ensures PushWord(s, v).Valid()
  {
    var t := PushWord(s, v);
    forall a
      ensures 0 <= Peek(t.mem, a) < 256
    {
      assert 0 <= Peek(s.mem, a) < 256;
    }
    forall q: Reg
      ensures 0 <= t.R(q) < WORDS
    {
      assert 0 <= s.R(q) < WORDS;
    }
  }

  lemma PartsFit(v: int, b: int)
    requires 0 <= v < WORDS && 0 <= b < 256
    ensures 0 <= WithLow8(v, b) < WORDS && 0 <= WithHigh8(v, b) < WORDS
  {
    var low, high, rest := v % 256, v / 256 % 256, v / 256 / 256;
    assert v == low + 256 * high + 65536 * rest;
  }

  lemma LoadFits(m: Memory, a: int)
    requires HoldsBytes(m)
    ensures 0 <= Load64(m, a) < WORDS
  {
    assert 0 <= Peek(m, a) < 256 && 0 <= Peek(m, a + 1) < 256 && 0 <= Peek(m, a + 2) < 256 && 0 <= Peek(m, a + 3) < 256;
    assert 0 <= Peek(m, a + 4) < 256 && 0 <= Peek(m, a + 5) < 256 && 0 <= Peek(m, a + 6) < 256 && 0 <= Peek(m, a + 7) < 256;
  }

  lemma FlagsValid(s: State, f: Flags, sp: int)
    requires s.Valid()
    ensures s.(flags := f, sp := sp).Valid()
  {
    forall q: Reg
      ensures 0 <= s.(flags := f, sp := sp).R(q) < WORDS
    {
      assert 0 <= s.R(q) < WORDS;
    }
  }

  predicate MovesWord(op: Asm) {
    op.Pop? || op.Mov? || op.LeaAddress? || op.ShiftRight3?
  }

  predicate ComputesDword(op: Asm) {
    op.And7? || op.Add32? || op.Inc32? || op.SignExtendLow?
  }

  /** The value an instruction gives the register it writes. */
  lemma MoveOps(address: State -> int, op: Asm, s: State)
    requires s.Valid() && 0 <= address(s) < WORDS && MovesWord(op)
    ensures Step(address, op, s).Valid()
  {
    if op.Pop? {
      LoadFits(s.mem, s.sp);
      SetRegValid(s, op.r, Load64(s.mem, s.sp));
      var t := SetReg(s, op.r, Load64(s.mem, s.sp));
      FlagsValid(t, t.flags, s.sp + 8);
    } else if op.Mov? {
      SetRegValid(s, op.dst, s.R(op.src));
    } else if op.LeaAddress? {
      SetRegValid(s, op.dst, address(s));
    } else {
      SetRegValid(s, op.r, s.R(op.r) / 8);
    }
  }

  lemma DwordOps(address: State -> int, op: Asm, s: State)
    requires s.Valid() && ComputesDword(op)
    ensures Step(address, op, s).Valid()
  {
    if op.And7? {
      SetRegValid(s, op.r, s.R(op.r) % 8);
    } else if op.Add32? {
      SetDwordValid(s, op.r, Low32(s.R(op.r)) + op.n);
    } else if op.Inc32? {
      SetDwordValid(s, op.r, Low32(s.R(op.r)) + 1);
    } else {
      SetRegValid(s, op.r, SignExtend(Low8(s.R(op.r))));
    }
  }

  lemma SetDwordValid(s: State, r: Reg, v: int)
    requires s.Valid()
    ensures SetReg(s, r, v % DWORDS).Valid()
  {
    SetRegValid(s, r, v % DWORDS);
  }

  lemma ByteOps(address: State -> int, op: Asm, s: State)
    requires s.Valid() && (op.Lahf? || op.SetoAl? || op.AddAl7f? || op.LoadShadow?)
    ensures Step(address, op, s).Valid()
  {
    match op
    case Lahf => SetPartValid(s, RAX, AhImage(s.flags));
    case SetoAl => SetPartValid(s, RAX, Bit(s.flags.of));
    case AddAl7f =>
      var b := (Low8(s.R(RAX)) + 0x7f) % 256;
      SetPartValid(s, RAX, b);
      FlagsValid(SetReg(s, RAX, WithLow8(s.R(RAX), b)), s.flags.(of := Add7fOverflows(Low8(s.R(RAX)))), s.sp);
    case LoadShadow(r) => SetPartValid(s, r, LoadedShadow(s, r));
  }

  lemma SetPartValid(s: State, r: Reg, b: int)
    requires s.Valid() && 0 <= b < 256
    ensures SetReg(s, r, WithLow8(s.R(r), b)).Valid() && SetReg(s, r, WithHigh8(s.R(r), b)).Valid()
  {
    PartsFit(s.R(r), b);
    SetRegValid(s, r, WithLow8(s.R(r), b));
    SetRegValid(s, r, WithHigh8(s.R(r), b));
  }

  lemma StepValid(address: State -> int, op: Asm, s: State)
    requires s.Valid() && 0 <= address(s) < WORDS
    ensures Step(address, op, s).Valid()
  {
    if MovesWord(op) {
      MoveOps(address, op, s);
    } else if ComputesDword(op) {
      DwordOps(address, op, s);
    } else if op.Lahf? || op.SetoAl? || op.AddAl7f? || op.LoadShadow? {
      ByteOps(address, op, s);
    } else if op.Push? {
      PushWordValid(s, s.R(op.r));
    } else if op.PushFlags? {
      PushWordValid(s, FlagsImage(s.flags));
    } else {
      var t := Step(address, op, s);
      assert t == s.(flags := t.flags, sp := t.sp);
      FlagsValid(s, t.flags, t.sp);
    }
  }

  /** For every address expression there is a processor that conforms. */
  lemma RealProcessorExists(address: State -> int)
    requires forall s :: 0 <= address(s) < WORDS
    ensures RealProcessor(Reference(address)) && Reference(address).address == address
  {
    var m := Reference(address);
    StackReference(address);
    FlagsReference(address);
    CheckReference(address);
    forall op, s
      ensures StepStaysValid(m, op, s)
    {
      if s.Valid() {
        StepValid(address, op, s);
      }
    }
  }

  lemma MoveReference(m: Processor, address: State -> int)
    requires m == Reference(address)
    ensures forall s, n :: DoesStackUp(m, s, n)
    ensures forall s, n :: DoesStackDown(m, s, n)
  {
  }

  lemma PushReference(m: Processor, address: State -> int)
    requires m == Reference(address)
    ensures forall s, r :: DoesPush(m, s, r)
    ensures forall s, r :: DoesPop(m, s, r)
  {
  }

  lemma PushFlagsReference(m: Processor, address: State -> int)
    requires m == Reference(address)
    ensures forall s :: DoesPushFlags(m, s)
    ensures forall s :: DoesPopFlags(m, s)
  {
  }

  lemma StackReference(address: State -> int)
    ensures StackConforms(Reference(address))
  {
    MoveReference(Reference(address), address);
    PushReference(Reference(address), address);
    PushFlagsReference(Reference(address), address);
  }

  lemma LahfReference(m: Processor, address: State -> int)
    requires m == Reference(address)
    ensures forall s, src, dst :: DoesMov(m, s, src, dst)
    ensures forall s :: DoesLahf(m, s)
    ensures forall s :: DoesSetoAl(m, s)
  {
  }

  lemma SahfReference(m: Processor, address: State -> int)
    requires m == Reference(address)
    ensures forall s :: DoesAddAl7f(m, s)
    ensures forall s :: DoesSahf(m, s)
  {
  }

  lemma FlagsReference(address: State -> int)
    ensures FlagsConform(Reference(address))
  {
    LahfReference(Reference(address), address);
    SahfReference(Reference(address), address);
  }

  lemma AddressReference(m: Processor, address: State -> int)
    requires m == Reference(address)
    ensures forall s, r :: DoesLeaAddress(m, s, r)
    ensures forall s, r :: DoesShiftRight3(m, s, r)
    ensures forall s, r :: DoesLoadShadow(m, s, r)
  {
  }

  lemma TestReference(m: Processor, address: State -> int)
    requires m == Reference(address)
    ensures forall s, r :: DoesCompareShadowZero(m, s, r)
    ensures forall s, r :: DoesTestLow(m, s, r)
  {
  }

  lemma MaskReference(m: Processor, address: State -> int)
    requires m == Reference(address)
    ensures forall s, r :: DoesAnd7(m, s, r)
    ensures forall s, r :: DoesSignExtendLow(m, s, r)
  {
  }

  lemma AddReference(m: Processor, address: State -> int)
    requires m == Reference(address)
    ensures forall s, n, r :: DoesAdd32(m, s, n, r)
    ensures forall s, r :: DoesInc32(m, s, r)
  {
  }

  lemma CompareReference(m: Processor, address: State -> int)
    requires m == Reference(address)
    ensures forall s, src, dst :: DoesCompare32(m, s, src, dst)
  {
  }

  lemma CheckReference(address: State -> int)
    requires forall s :: 0 <= address(s) < WORDS
    ensures CheckConforms(Reference(address))
  {
    var m := Reference(address);
    AddressReference(m, address);
    TestReference(m, address);
    MaskReference(m, address);
    AddReference(m, address);
    CompareReference(m, address);
  }
}
