/** Raw bytes of the compressed input file and the byte copy the FLAC read callback performs. */
module Bytes {

  newtype byte = x: int | 0 <= x < 256

  /** `memcpy(dst, src + from, count)`: the first `count` cells of `dst` receive
      `src[from..from + count]`; the rest of `dst` is untouched. */
  method Copy(dst: array<byte>, src: seq<byte>, from: nat, count: nat)
    requires from + count <= |src|
    requires count <= dst.Length
    modifies dst
    ensures dst[..count] == src[from..from + count]
    ensures dst[count..] == old(dst[count..])
  {
    var k := 0;
    while k < count
      invariant 0 <= k <= count
      invariant dst[..k] == src[from..from + k]
      invariant dst[count..] == old(dst[count..])
    {
      dst[k] := src[from + k];
      k := k + 1;
    }
  }
}
