/** The two library calls that move blocks of memory. */
module Memory {

  method MemCopy<T>(dst: array<T>, dstAt: nat, src: array<T>, srcAt: nat, n: nat)
    requires dst != src && dstAt + n <= dst.Length && srcAt + n <= src.Length
    modifies dst
    ensures dst[..dstAt] == old(dst[..dstAt])
    ensures dst[dstAt..dstAt + n] == src[srcAt..srcAt + n]
    ensures dst[dstAt + n..] == old(dst[dstAt + n..])
  {
    forall i | 0 <= i < n {
      dst[dstAt + i] := src[srcAt + i];
    }
  }

  method MemSet<T>(dst: array<T>, value: T, n: nat)
    requires n <= dst.Length
    modifies dst
    ensures dst[..n] == seq(n, _ => value)
    ensures dst[n..] == old(dst[n..])
  {
    forall i | 0 <= i < n {
      dst[i] := value;
    }
  }
}
