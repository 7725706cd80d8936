/** The C library's block operations on buffers. */
module Buffers {
  import opened Bits

  function Min(a: nat, b: nat): nat {
    if a < b then a else b
  }

  function Max(a: nat, b: nat): nat {
    if a < b then b else a
  }

  method Memcpy(dst: array<Byte>, to: nat, src: array<Byte>, from: nat, n: nat)
    requires to + n <= dst.Length && from + n <= src.Length && dst != src
    modifies dst
    ensures dst[..] == old(dst[..to]) + src[from..from + n] + old(dst[to + n..])
  {
    for i := 0 to n
      invariant dst[..] == old(dst[..to]) + src[from..from + i] + old(dst[to + i..])
    {
      dst[to + i] := src[from + i];
      assert src[from..from + i + 1] == src[from..from + i] + [src[from + i]];
    }
  }

  method Memset(dst: array<Byte>, to: nat, v: Byte, n: nat)
    requires to + n <= dst.Length
    modifies dst
    ensures forall i :: 0 <= i < dst.Length ==> dst[i] == if to <= i < to + n then v else old(dst[i])
  {
    for i := 0 to n
      invariant forall j :: 0 <= j < dst.Length ==> dst[j] == if to <= j < to + i then v else old(dst[j])
    {
      dst[to + i] := v;
    }
  }

  method SameBytes(a: array<Byte>, p: nat, q: nat, n: nat) returns (same: bool)
    requires p + n <= a.Length && q + n <= a.Length
    ensures same <==> a[p..p + n] == a[q..q + n]
  {
    for i := 0 to n
      invariant a[p..p + i] == a[q..q + i]
    {
      if a[p + i] != a[q + i] {
        assert a[p..p + n][i] != a[q..q + n][i];
        return false;
      }
      assert a[p..p + i + 1] == a[p..p + i] + [a[p + i]] && a[q..q + i + 1] == a[q..q + i] + [a[q + i]];
    }
    return true;
  }

  /** Moves bytes down inside a buffer. */
  method MoveDown(a: array<Byte>, to: nat, from: nat, n: nat)
    requires to <= from && from + n <= a.Length
    modifies a
    ensures forall i :: 0 <= i < a.Length ==> a[i] == if to <= i < to + n then old(a[from + (i - to)]) else old(a[i])
  {
    for k := 0 to n
      invariant forall i :: 0 <= i < to + k ==> a[i] == if to <= i then old(a[from + (i - to)]) else old(a[i])
      invariant forall i :: to + k <= i < a.Length ==> a[i] == old(a[i])
    {
      a[to + k] := a[from + k];
    }
  }
}
