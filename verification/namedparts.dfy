/** What the analysis makes of the register names that the decoder reports, against the values
    that those names stand for. */
module NamedParts {
  import opened Registers
  import opened ControlFlow
  import opened Liveness
  import opened Machine
  import opened Soundness
  import opened AsanMachine
  import opened AsanTheorem

  /** A name that exists: only some registers have a high byte. */
  ghost predicate Exists(fam: Families, n: Name) {
    n.Sub? && n.part == High ==> n.reg in fam.high && n.reg != RSP
  }

  ghost predicate WellNamed(fam: Families, d: Decoded) {
    (forall n :: n in d.regReads ==> Exists(fam, n)) && (forall n :: n in d.regWrites ==> Exists(fam, n))
  }

  // ----- Which names count as reads and as overwriting -----

  /** A list of names mentions the register, or a part of it. */
  ghost predicate Mentions(names: seq<Name>, r: Reg) {
    exists n :: n in names && (n == Full(r) || (n.Sub? && n.reg == r))
  }

  /** Exactly the registers that are mentioned as read are read. */
  lemma ReadsAreMentions(fam: Families, d: Decoded, r: Reg)
    requires fam.Valid() && WellNamed(fam, d) && r != RSP
    ensures Full(r) in Reads(fam, d) <==> Mentions(d.regReads, r)
    ensures RFlags in Reads(fam, d) <==> RFlags in d.regReads
  {
    assert InPool(Full(r)) && InPool(RFlags);
    if Mentions(d.regReads, r) {
      var n :| n in d.regReads && (n == Full(r) || (n.Sub? && n.reg == r));
      assert FullOf(fam, n) == Full(r);
    }
    if RFlags in d.regReads {
      assert FullOf(fam, RFlags) == RFlags;
    }
  }

  /** The whole register is written: by its own name, or by the 32-bit one, which clears the
      upper half. */
  ghost predicate WritesWhole(d: Decoded, r: Reg) {
    Full(r) in d.regWrites || Sub(r, Dword) in d.regWrites
  }

  /** Exactly such registers are taken out of the used sets, unless they are read as well; a
      16- or 8-bit name never takes one out. */
  lemma KillsAreWholeWrites(fam: Families, d: Decoded, r: Reg)
    requires fam.Valid() && WellNamed(fam, d) && r != RSP
    ensures Full(r) in Kills(fam, d) <==> WritesWhole(d, r) && !Mentions(d.regReads, r)
    ensures RFlags in Kills(fam, d) <==> RFlags in d.regWrites && RFlags !in d.regReads
  {
    ReadsAreMentions(fam, d, r);
    var w := set x | x in d.regWrites;
    ClosureOfWrites(fam, w, r);
  }

  lemma ClosureOfWrites(fam: Families, w: set<Name>, r: Reg)
    requires r != RSP
    ensures Full(r) in Closure(fam, w) <==> Full(r) in w || Sub(r, Dword) in w
    ensures RFlags in Closure(fam, w) <==> RFlags in w
  {
    if Sub(r, Dword) in w {
      assert Full(r) in ClosureList(fam, Sub(r, Dword));
    }
    if Full(r) in Closure(fam, w) && Full(r) !in w {
      var x :| x in w && Full(r) in ClosureList(fam, x);
      assert x == Sub(r, Dword);
    }
  }

  /** In every state of the analysis a register that an instruction reads, wholly or in part, is
      not free there. */
  lemma ReadIsNotFree(fam: Families, fn: Function, used: UseMap, free: map<Succ, set<Name>>, i: nat, r: Reg)
    requires Inv(fam, fn, used) && FreeFrom(fam, used, free) && i < |fn.cache| && WellNamed(fam, fn.cache[i]) && r != RSP
    ensures Mentions(fn.cache[i].regReads, r) ==> Full(r) !in FreeAt(free, i)
    ensures RFlags in fn.cache[i].regReads ==> RFlags !in FreeAt(free, i)
  {
    ReadsAreMentions(fam, fn.cache[i], r);
    assert InPool(Full(r)) && InPool(RFlags);
    if Mentions(fn.cache[i].regReads, r) {
      UsedContains(fam, fn, used, Full(r), i, Ret);
    }
    if RFlags in fn.cache[i].regReads {
      UsedContains(fam, fn, used, RFlags, i, Ret);
    }
  }

  // ----- Values of named parts -----

  function Value(s: State, r: Reg): int {
    if r == RSP then s.sp else s.R(r)
  }

  function PartOf(v: int, p: Part): int {
    match p
    case Dword => v % 0x1_0000_0000
    case Word => v % 0x1_0000
    case Low => v % 0x100
    case High => v / 0x100 % 0x100
  }

  /** Two states hold the same value under a name. */
  ghost predicate SameNamed(s: State, t: State, n: Name) {
    match n
    case Full(r) => Value(s, r) == Value(t, r)
    case Sub(r, p) => PartOf(Value(s, r), p) == PartOf(Value(t, r), p)
    case RFlags => s.flags == t.flags
    case _ => true
  }

  /** Two states agree on all names that an instruction reads, and on memory outside `stale`. */
  ghost predicate SameToReader(d: Decoded, s: State, t: State, stale: Bytes) {
    AgreeOn(s, t, {}, stale) && forall n :: n in d.regReads ==> SameNamed(s, t, n)
  }

  /** What the analysis counts as read is enough. */
  lemma ReadsAreEnough(fam: Families, d: Decoded, s: State, t: State, stale: Bytes)
    requires fam.Valid() && WellNamed(fam, d) && AgreeOn(s, t, Reads(fam, d), stale)
    ensures SameToReader(d, s, t, stale)
  {
    forall n | n in d.regReads ensures SameNamed(s, t, n) {
      if (n.Full? || n.Sub?) && n.reg != RSP {
        assert Mentions(d.regReads, n.reg);
        ReadsAreMentions(fam, d, n.reg);
        assert SameAt(s, t, Full(n.reg));
      } else if n.RFlags? {
        ReadsAreMentions(fam, d, RAX);
        assert SameAt(s, t, RFlags);
      }
    }
  }

  ghost predicate LowWritten(d: Decoded, r: Reg) {
    Sub(r, Low) in d.regWrites || Sub(r, Word) in d.regWrites
  }

  ghost predicate HighWritten(d: Decoded, r: Reg) {
    Sub(r, High) in d.regWrites || Sub(r, Word) in d.regWrites
  }

  /** What an instruction makes of a register, from states `s` and `t` that look the same to it:
      what it writes comes out the same, and the rest is kept. */
  ghost predicate WritesAsNamed(d: Decoded, r: Reg, s: State, t: State, a: State, b: State) {
    if WritesWhole(d, r) then a.R(r) == b.R(r)
    else
      && (if LowWritten(d, r) then PartOf(a.R(r), Low) == PartOf(b.R(r), Low)
          else PartOf(a.R(r), Low) == PartOf(s.R(r), Low) && PartOf(b.R(r), Low) == PartOf(t.R(r), Low))
      && (if HighWritten(d, r) then PartOf(a.R(r), High) == PartOf(b.R(r), High)
          else PartOf(a.R(r), High) == PartOf(s.R(r), High) && PartOf(b.R(r), High) == PartOf(t.R(r), High))
      && a.R(r) / 0x1_0000 == s.R(r) / 0x1_0000 && b.R(r) / 0x1_0000 == t.R(r) / 0x1_0000
  }

  ghost predicate FlagsAsNamed(d: Decoded, s: State, t: State, a: State, b: State) {
    if RFlags in d.regWrites then a.flags == b.flags else a.flags == s.flags && b.flags == t.flags
  }

  /** The frame condition of one instruction, in terms of the names that the decoder reports. */
  ghost predicate NamedFramed(p: Program, i: nat)
    requires i < |p.fn.cache|
  {
    var d := p.fn.cache[i];
    forall s, t, stale: Bytes :: SameToReader(d, s, t, stale) && p.loads(i, s) !! stale ==>
      && p.exec(i, s).to == p.exec(i, t).to
      && AgreeOn(p.exec(i, s).after, p.exec(i, t).after, {}, stale - p.stores(i, s))
      && (forall r: Reg :: r != RSP ==> WritesAsNamed(d, r, s, t, p.exec(i, s).after, p.exec(i, t).after))
      && FlagsAsNamed(d, s, t, p.exec(i, s).after, p.exec(i, t).after)
  }

  lemma FromFields(v: int, w: int)
    requires v % 0x100 == w % 0x100 && v / 0x100 % 0x100 == w / 0x100 % 0x100 && v / 0x1_0000 == w / 0x1_0000
    ensures v == w
  {
    Fields(v);
    Fields(w);
  }

  lemma Fields(v: int)
    ensures v == v % 0x100 + 0x100 * (v / 0x100 % 0x100) + 0x1_0000 * (v / 0x1_0000)
  {
    var h := v / 0x100;
    assert v == v % 0x100 + 0x100 * h;
    assert h == h % 0x100 + 0x100 * (h / 0x100);
    NestedQuotient(v);
  }

  lemma NestedQuotient(v: int)
    ensures v / 0x100 / 0x100 == v / 0x1_0000
  {
  }

  lemma RegisterComesOut(fam: Families, d: Decoded, r: Reg, s: State, t: State, a: State, b: State)
    requires fam.Valid() && WellNamed(fam, d) && r != RSP && WritesAsNamed(d, r, s, t, a, b)
    requires Full(r) in Kills(fam, d) || s.R(r) == t.R(r)
    ensures a.R(r) == b.R(r)
  {
    KillsAreWholeWrites(fam, d, r);
    if !WritesWhole(d, r) {
      FromFields(a.R(r), b.R(r));
    }
  }

  /** The frame condition by names gives the one that the analysis is sound for. */
  lemma NamedFramedIsFramed(fam: Families, p: Program, i: nat)
    requires fam.Valid() && i < |p.fn.cache| && WellNamed(fam, p.fn.cache[i]) && NamedFramed(p, i)
    ensures Framed(fam, p, i)
  {
    var d := p.fn.cache[i];
    forall s, t, stale: Bytes | AgreeOn(s, t, Reads(fam, d), stale) && p.loads(i, s) !! stale
      ensures var a, b := p.exec(i, s), p.exec(i, t);
              a.to == b.to && AgreeOn(a.after, b.after, {}, stale - p.stores(i, s)) &&
              forall n :: n in fam.pool && (n in Kills(fam, d) || SameAt(s, t, n)) ==> SameAt(a.after, b.after, n)
    {
      ReadsAreEnough(fam, d, s, t, stale);
      ComesOut(fam, p, i, s, t);
    }
  }

  lemma ComesOut(fam: Families, p: Program, i: nat, s: State, t: State)
    requires fam.Valid() && i < |p.fn.cache| && WellNamed(fam, p.fn.cache[i])
    requires forall r: Reg :: r != RSP ==> WritesAsNamed(p.fn.cache[i], r, s, t, p.exec(i, s).after, p.exec(i, t).after)
    requires FlagsAsNamed(p.fn.cache[i], s, t, p.exec(i, s).after, p.exec(i, t).after)
    ensures forall n :: n in fam.pool && (n in Kills(fam, p.fn.cache[i]) || SameAt(s, t, n)) ==>
              SameAt(p.exec(i, s).after, p.exec(i, t).after, n)
  {
    var d, a, b := p.fn.cache[i], p.exec(i, s).after, p.exec(i, t).after;
    forall n | n in fam.pool && (n in Kills(fam, d) || SameAt(s, t, n)) ensures SameAt(a, b, n) {
      assert InPool(n);
      if n.Full? {
        RegisterComesOut(fam, d, n.reg, s, t, a, b);
      } else {
        KillsAreWholeWrites(fam, d, RAX);
      }
    }
  }

  // ----- The calling convention -----

  /** A callee may look at every register but r10, r11 and the flags. */
  ghost predicate SameToCallee(s: State, t: State, stale: Bytes) {
    AgreeOn(s, t, {}, stale) && forall r: Reg :: r != RSP && r != R10 && r != R11 ==> s.R(r) == t.R(r)
  }

  /** What a callee does depends on that and on what it loads; a register comes out the same if
      it went in the same. */
  ghost predicate ConventionFramed(p: Program, i: nat) {
    forall s, t, stale: Bytes :: SameToCallee(s, t, stale) && p.calleeLoads(i, s) !! stale ==>
      && AgreeOn(p.callee(i, s), p.callee(i, t), {}, stale - p.calleeStores(i, s))
      && (forall r: Reg :: r != RSP && s.R(r) == t.R(r) ==> p.callee(i, s).R(r) == p.callee(i, t).R(r))
      && (s.flags == t.flags ==> p.callee(i, s).flags == p.callee(i, t).flags)
  }

  lemma ConventionIsCalleeFramed(fam: Families, p: Program, i: nat)
    requires fam.Valid() && ConventionFramed(p, i)
    ensures CalleeFramed(fam, p, i)
  {
    forall s, t, stale: Bytes | AgreeOn(s, t, fam.UsedAtCall(), stale) && p.calleeLoads(i, s) !! stale
      ensures AgreeOn(p.callee(i, s), p.callee(i, t), {}, stale - p.calleeStores(i, s))
      ensures forall n :: n in fam.pool && SameAt(s, t, n) ==> SameAt(p.callee(i, s), p.callee(i, t), n)
    {
      forall r: Reg | r != RSP && r != R10 && r != R11 ensures s.R(r) == t.R(r) {
        assert InPool(Full(r)) && Full(r) in fam.UsedAtCall();
        assert SameAt(s, t, Full(r));
      }
      assert SameToCallee(s, t, stale);
      forall n | n in fam.pool && SameAt(s, t, n) ensures SameAt(p.callee(i, s), p.callee(i, t), n) {
        assert InPool(n);
      }
    }
  }

  // ----- A program, and an address expression, by names -----

  /** A program whose instructions do what their names say and whose callees keep the
      convention. */
  ghost predicate FramedByNames(fam: Families, p: Program) {
    && (forall i: nat :: i < |p.fn.cache| ==> WellNamed(fam, p.fn.cache[i]) && NamedFramed(p, i) && ConventionFramed(p, i))
    && (forall i: nat, s :: StaysValid(p, i, s))
  }

  lemma FramedByNamesIsWellFramed(fam: Families, p: Program)
    requires fam.Valid() && FramedByNames(fam, p)
    ensures WellFramed(fam, p)
  {
    forall i: nat | i < |p.fn.cache| ensures Framed(fam, p, i) && CalleeFramed(fam, p, i) {
      NamedFramedIsFramed(fam, p, i);
      ConventionIsCalleeFramed(fam, p, i);
    }
  }

  /** The address depends on rsp and on the registers and parts that are read. */
  ghost predicate AddressNamed(d: Decoded, m: Processor) {
    forall s, t :: SameToAddress(d, s, t) ==> m.address(s) == m.address(t)
  }

  ghost predicate SameToAddress(d: Decoded, s: State, t: State) {
    s.sp == t.sp && forall n :: n in d.regReads && n != RFlags ==> SameNamed(s, t, n)
  }

  lemma AddressNamedIsRead(fam: Families, d: Decoded, m: Processor)
    requires fam.Valid() && WellNamed(fam, d) && AddressNamed(d, m)
    ensures AddressReads(fam, d, m)
  {
    forall s, t | SameRead(fam, d, s, t) ensures m.address(s) == m.address(t) {
      forall n | n in d.regReads && n != RFlags ensures SameNamed(s, t, n) {
        if (n.Full? || n.Sub?) && n.reg != RSP {
          assert Mentions(d.regReads, n.reg);
          ReadsAreMentions(fam, d, n.reg);
        }
      }
      assert SameToAddress(d, s, t);
    }
  }
}
