/** Recovery of the successor lists of a function's instructions. */
module ControlFlow {
  import opened Options
  import opened Registers

  /** Where control can go after an instruction: another instruction of the function,
      or one of the three ways out. */
  datatype Succ = Idx(i: nat) | Ret | Call | Undef

  /** What the decoder says about control flow. A target is the immediate operand. */
  datatype Kind =
    | Plain
    | Return
    | CondJump(target: Option<int>)
    | Jump(target: Option<int>)
    | CallTo(target: Option<int>)

  datatype Decoded = Decoded(address: int, kind: Kind, regReads: seq<Name>, regWrites: seq<Name>)

  /** The transitions the processor can make out of instruction `i`, read off its kind:
      this does not mention successor lists. A jump to an address that is not that of an
      instruction of the function, or whose target is computed, leaves it. */
  ghost predicate CanGo(cache: seq<Decoded>, i: nat, k: Succ)
    requires i < |cache|
  {
    match cache[i].kind
    case Plain => k == Fall(cache, i)
    case Return => k == Ret
    case CondJump(target) => k == Fall(cache, i) || Reaches(cache, target, k)
    case Jump(target) => Reaches(cache, target, k)
    case CallTo(_) => k == Call || k == Fall(cache, i)
  }

  /** Falling off the end of the function lands on no instruction of it. */
  function Fall(cache: seq<Decoded>, i: nat): Succ {
    if i + 1 < |cache| then Idx(i + 1) else Undef
  }

  ghost predicate Reaches(cache: seq<Decoded>, target: Option<int>, k: Succ) {
    if target.Some? && exists j :: 0 <= j < |cache| && cache[j].address == target.value
    then k.Idx? && k.i < |cache| && cache[k.i].address == target.value
    else k == Undef
  }

  ghost predicate DistinctAddresses(cache: seq<Decoded>) {
    forall i, j :: 0 <= i < j < |cache| ==> cache[i].address != cache[j].address
  }

  /** `addr_to_idx`: built front to back, so a repeated address keeps its last index. */
  method AddressIndex(cache: seq<Decoded>) returns (index: map<int, nat>)
    ensures forall a :: a in index ==> index[a] < |cache| && cache[index[a]].address == a
    ensures forall j :: 0 <= j < |cache| ==> cache[j].address in index && j <= index[cache[j].address]
  {
    index := map[];
    for j := 0 to |cache|
      invariant forall a :: a in index ==> index[a] < j && cache[index[a]].address == a
      invariant forall l :: 0 <= l < j ==> cache[l].address in index && l <= index[cache[l].address]
    {
      index := index[cache[j].address := j];
    }
  }

  /** A successor list is right when it names exactly the transitions out of the
      instruction. The plain last instruction is the exception: the list names the index
      after the end, which is no instruction either. */
  ghost predicate NamesSuccessors(cache: seq<Decoded>, i: nat, nexts: seq<Succ>)
    requires i < |cache|
  {
    forall k :: CanGo(cache, i, k) <==> (k in nexts || (k == Undef && Idx(|cache|) in nexts)) && k != Idx(|cache|)
  }

  // ----- What the decoder prints, and what is made of it -----

  /** The decoder's output: the mnemonic, the groups of the instruction, and its immediate
      operand. What the instruction does is its kind. */
  datatype Insn = Insn(mnemonic: string, jump: bool, call: bool, immediate: Option<int>)

  predicate StartsWith(s: string, t: string) {
    |t| <= |s| && s[..|t|] == t
  }

  /** The successors that the tests on mnemonic and groups come to. */
  ghost predicate Says(cache: seq<Decoded>, i: nat, insn: Insn, k: Succ) {
    if !insn.jump && !insn.call then k == if StartsWith(insn.mnemonic, "ret") then Ret else Fall(cache, i)
    else
      || (insn.jump && !StartsWith(insn.mnemonic, "jmp") && k == Fall(cache, i))
      || (!(insn.jump && !StartsWith(insn.mnemonic, "jmp")) && insn.call && (k == Call || k == Fall(cache, i)))
      || (insn.jump && Reaches(cache, insn.immediate, k))
  }

  ghost predicate Lists(cache: seq<Decoded>, i: nat, insn: Insn, nexts: seq<Succ>) {
    forall k :: Says(cache, i, insn, k) <==> (k in nexts || (k == Undef && Idx(|cache|) in nexts)) && k != Idx(|cache|)
  }

  /** The decoder knows jumps and calls and their targets. */
  ghost predicate GroupsRight(insn: Insn, kind: Kind) {
    match kind
    case Plain => !insn.jump && !insn.call
    case Return => !insn.jump && !insn.call
    case CondJump(t) => insn.jump && !insn.call && !StartsWith(insn.mnemonic, "jmp") && insn.immediate == t
    case Jump(t) => insn.jump && !insn.call && StartsWith(insn.mnemonic, "jmp") && insn.immediate == t
    case CallTo(_) => insn.call && !insn.jump
  }

  /** A return is known by how its mnemonic starts, and nothing else starts like that. */
  ghost predicate ReturnSeen(insn: Insn, kind: Kind) {
    kind.Plain? || kind.Return? ==> (StartsWith(insn.mnemonic, "ret") <==> kind.Return?)
  }

  /** When the decoder is right about groups, a list is right exactly when the mnemonic tells
      whether the instruction returns. */
  lemma ListIsRightIff(cache: seq<Decoded>, i: nat, insn: Insn, nexts: seq<Succ>)
    requires i < |cache| && Lists(cache, i, insn, nexts) && GroupsRight(insn, cache[i].kind)
    ensures NamesSuccessors(cache, i, nexts) <==> ReturnSeen(insn, cache[i].kind)
  {
    if ReturnSeen(insn, cache[i].kind) {
      forall k ensures Says(cache, i, insn, k) <==> CanGo(cache, i, k) {
      }
    } else {
      assert Says(cache, i, insn, Ret) != CanGo(cache, i, Ret);
    }
  }

  /** A return with a prefix is taken for an instruction that goes on to the next one. */
  lemma PrefixedReturnIsMissed(cache: seq<Decoded>, i: nat, insn: Insn, nexts: seq<Succ>)
    requires i < |cache| && Lists(cache, i, insn, nexts)
    requires cache[i].kind == Return && insn.mnemonic == "repz ret" && !insn.jump && !insn.call
    ensures !NamesSuccessors(cache, i, nexts)
  {
    assert insn.mnemonic[0] == 'r' && insn.mnemonic[2] == 'p';
    assert !StartsWith(insn.mnemonic, "ret") by {
      assert insn.mnemonic[..3][2] != "ret"[2];
    }
    ListIsRightIff(cache, i, insn, nexts);
  }

  method SymbolizeCfTransfer(cache: seq<Decoded>, insns: seq<Insn>) returns (nexts: seq<seq<Succ>>)
    requires DistinctAddresses(cache) && |insns| == |cache|
    ensures |nexts| == |cache|
    ensures forall i :: 0 <= i < |cache| ==> Lists(cache, i, insns[i], nexts[i])
    ensures forall i :: 0 <= i < |cache| && GroupsRight(insns[i], cache[i].kind) ==>
              (NamesSuccessors(cache, i, nexts[i]) <==> ReturnSeen(insns[i], cache[i].kind))
  {
    var index := AddressIndex(cache);
    nexts := [];
    for i := 0 to |cache|
      invariant |nexts| == i
      invariant forall j :: 0 <= j < i ==> Lists(cache, j, insns[j], nexts[j])
    {
      var out := SuccessorList(cache, index, i, insns[i]);
      nexts := nexts + [out];
    }
    forall i | 0 <= i < |cache| && GroupsRight(insns[i], cache[i].kind)
      ensures NamesSuccessors(cache, i, nexts[i]) <==> ReturnSeen(insns[i], cache[i].kind)
    {
      ListIsRightIff(cache, i, insns[i], nexts[i]);
    }
  }

  method SuccessorList(cache: seq<Decoded>, index: map<int, nat>, i: nat, insn: Insn) returns (out: seq<Succ>)
    requires DistinctAddresses(cache) && i < |cache|
    requires forall a :: a in index ==> index[a] < |cache| && cache[index[a]].address == a
    requires forall j :: 0 <= j < |cache| ==> cache[j].address in index
    ensures Lists(cache, i, insn, out)
  {
    out := [];
    if !(insn.jump || insn.call) {
      if StartsWith(insn.mnemonic, "ret") {
        out := out + [Ret];
      } else {
        out := out + [Idx(i + 1)];
      }
      return;
    }
    if insn.jump && !StartsWith(insn.mnemonic, "jmp") {
      out := out + [if i + 1 < |cache| then Idx(i + 1) else Undef];
    } else if insn.call {
      out := out + [Call];
      out := out + [if i + 1 < |cache| then Idx(i + 1) else Undef];
    }
    if insn.jump {
      var t := JumpEdge(cache, index, insn.immediate);
      out := out + [t];
    }
  }

  method JumpEdge(cache: seq<Decoded>, index: map<int, nat>, target: Option<int>) returns (k: Succ)
    requires DistinctAddresses(cache)
    requires forall a :: a in index ==> index[a] < |cache| && cache[index[a]].address == a
    requires forall j :: 0 <= j < |cache| ==> cache[j].address in index
    ensures forall l :: Reaches(cache, target, l) <==> l == k
    ensures k.Idx? ==> k.i < |cache|
  {
    k := Undef;
    if target.Some? {
      var a: int := target.value;
      if a in index {
        k := Idx(index[a]);
      }
    }
  }
}
