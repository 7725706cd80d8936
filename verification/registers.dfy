/** The register names the rewriter reasons about, and how they overlap.
    A name is a full 64-bit register, one of its parts, the pseudo register for the
    flags, the empty string that a missing closure entry contributes, or any other
    name the disassembler may report (rip, vector registers, ...). */
module Registers {

  /** The sixteen general purpose registers. */
  type Reg = r: nat | r < 16

  const RAX: Reg := 0
  const RCX: Reg := 1
  const RDX: Reg := 2
  const RBX: Reg := 3
  const RBP: Reg := 4
  const RSI: Reg := 5
  const RDI: Reg := 6
  const R8: Reg := 7
  const R9: Reg := 8
  const R10: Reg := 9
  const R11: Reg := 10
  const R12: Reg := 11
  const R13: Reg := 12
  const R14: Reg := 13
  const R15: Reg := 14
  const RSP: Reg := 15

  datatype Part = Dword | Word | Low | High

  datatype Name =
    | Full(reg: Reg)
    | Sub(reg: Reg, part: Part)
    | RFlags
    | Blank
    | Other(id: nat)

  predicate InPool(n: Name) {
    (n.Full? && n.reg != RSP) || n.RFlags?
  }

  /** The two names outside the pool that can travel through the used sets: rsp, which
      the exit sets mention, and the empty string its missing closure entry adds. */
  const EXTRA: set<Name> := {Full(RSP), Blank}

  /** The register facts taken from the architecture description: the pool (every general
      purpose register but rsp and rip, and rflags), and which registers have a high byte. */
  datatype Families = Families(pool: set<Name>, high: set<Reg>) {
    ghost predicate Valid() {
      forall n :: n in pool <==> InPool(n)
    }

    /** What is used when the function returns: everything but the flags. */
    function UsedAtRet(): set<Name> {
      pool - {RFlags} + {Full(RSP)}
    }

    /** What is used when the function calls: r10, r11 and the flags are not. */
    function UsedAtCall(): set<Name> {
      pool - {RFlags, Full(R10), Full(R11)} + {Full(RSP)}
    }
  }

  /** The parts of a pool register. */
  function Parts(fam: Families, r: Reg): set<Name> {
    {Sub(r, Dword), Sub(r, Word), Sub(r, Low)} + (if r in fam.high then {Sub(r, High)} else {})
  }

  /** The closure entry of one name. A 32-bit name stands for the whole register, because
      writing it clears the upper half; shorter names only stand for what they overlap. */
  function ClosureList(fam: Families, n: Name): set<Name> {
    match n
    case Full(r) => if r == RSP then {Blank} else Parts(fam, r)
    case RFlags => {}
    case Sub(r, p) =>
      if r == RSP || n !in Parts(fam, r) then {Blank}
      else (match p
            case Dword => {Full(r)} + (Parts(fam, r) - {n})
            case Word => Parts(fam, r) - {Sub(r, Dword), n}
            case Low => {}
            case High => {})
    case Blank => {Blank}
    case Other(_) => {Blank}
  }

  function Closure(fam: Families, names: set<Name>): set<Name> {
    names + set x, n | x in names && n in ClosureList(fam, x) :: n
  }

  /** The full register of each pool register or part of one in the list. */
  function FullRegisters(fam: Families, names: seq<Name>): set<Name> {
    set x | x in names && FullOf(fam, x) in fam.pool :: FullOf(fam, x)
  }

  function FullOf(fam: Families, n: Name): Name {
    if n.Sub? && n.reg != RSP && n in Parts(fam, n.reg) then Full(n.reg)
    else if n in fam.pool then n
    else Blank
  }

  lemma PoolSize(fam: Families)
    requires fam.Valid()
    ensures |fam.pool| <= 16
  {
    FewNames(15);
    Fewer(fam.pool, (set r: Reg | r < 15 :: Full(r)) + {RFlags});
  }

  lemma {:induction false} FewNames(n: nat)
    requires n <= 16
    ensures |set r: Reg | r < n :: Full(r)| <= n
  {
    if n == 0 {
      assert (set r: Reg | r < n :: Full(r)) == {};
    } else {
      FewNames(n - 1);
      var rest := set r: Reg | r < n - 1 :: Full(r);
      var last: Reg := n - 1;
      assert (set r: Reg | r < n :: Full(r)) == rest + {Full(last)};
    }
  }

  lemma Fewer(a: set<Name>, b: set<Name>)
    requires a <= b
    ensures |a| <= |b| && (a != b ==> |a| < |b|)
  {
    assert b == a + (b - a);
    if a != b {
      assert b - a != {};
    }
  }
}
