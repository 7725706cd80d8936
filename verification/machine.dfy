/** The part of an x86-64 machine the instrumentation can touch: full registers, the six
    status flags, byte memory and the sanitizer's shadow bytes. */
module Machine {
  import opened Registers

  datatype Flags = Flags(cf: bool, pf: bool, af: bool, zf: bool, sf: bool, of: bool)

  const WORDS := 0x1_0000_0000_0000_0000

  /** Memory by byte address; a byte that was never written is 0. */
  type Memory = map<int, int>

  function Peek(m: Memory, a: int): int {
    if a in m then m[a] else 0
  }

  ghost predicate HoldsBytes(m: Memory) {
    forall a :: 0 <= Peek(m, a) < 256
  }

  /** The stack pointer is kept apart from the other registers, as an address. */
  datatype State = State(regs: map<Reg, int>, sp: int, flags: Flags, mem: Memory, shadow: Memory) {
    function R(r: Reg): int {
      if r in regs then regs[r] else 0
    }

    /** Registers hold 64-bit values, and memory and shadow hold bytes. */
    ghost predicate Valid() {
      RegsAreWords() && HoldsBytes(mem) && HoldsBytes(shadow)
    }

    ghost predicate RegsAreWords() {
      forall r: Reg :: 0 <= R(r) < WORDS
    }
  }

  /** Two states hold the same value under a name; names of parts say nothing here. */
  ghost predicate SameAt(s: State, t: State, n: Name) {
    match n
    case Full(r) => if r == RSP then s.sp == t.sp else s.R(r) == t.R(r)
    case RFlags => s.flags == t.flags
    case _ => true
  }

  /** Two states agree on rsp, on the given names, on the shadow, and on every byte of
      memory outside `stale`. */
  ghost predicate AgreeOn(s: State, t: State, names: set<Name>, stale: iset<int>) {
    && s.sp == t.sp
    && s.shadow == t.shadow
    && (forall a :: a !in stale ==> Peek(s.mem, a) == Peek(t.mem, a))
    && (forall n :: n in names ==> SameAt(s, t, n))
  }
}
