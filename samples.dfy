/** Sample conversion to signed 16-bit PCM and the L/R interleaving both players
    perform before writing a block to the device. */
module Samples {

  const MinShort: int := -32768
  const MaxShort: int := 32767

  predicate InShortRange(x: int)
  {
    MinShort <= x <= MaxShort
  }

  function Pow2(n: nat): (p: nat)
    ensures p >= 1
  {
    if n == 0 then 1 else 2 * Pow2(n - 1)
  }

  /** libmad's fixed-point format (`mad_fixed_t`) with its default precision:
      `MAD_F_FRACBITS` fraction bits, so `MAD_F_ONE` is 1.0. */
  const FracBits: nat := 28
  const MadOne: int := 0x1000_0000
  /** `mad_to_short` shifts right by `MAD_F_FRACBITS + 1 - 16` bits. */
  const Shift: nat := FracBits + 1 - 16
  const ShiftScale: int := 0x2000

  lemma {:induction false} MadConstants()
    ensures MadOne == Pow2(FracBits)
    ensures Shift == 13 && ShiftScale == Pow2(Shift)
  {
    assert Pow2(4) == 16;
    assert Pow2(8) == 256;
    assert Pow2(12) == 4096;
    assert Pow2(13) == 8192;
    assert Pow2(16) == 65536;
    assert Pow2(20) == 1048576;
    assert Pow2(24) == 16777216;
    assert Pow2(28) == 268435456;
  }

  /** An arithmetic right shift by `Shift` bits, as gcc performs `>>` on a negative
      `int`: the floor of the quotient by 2^Shift. */
  function ShiftRight(x: int): (r: int)
    ensures ShiftScale * r <= x < ShiftScale * (r + 1)
  {
    x / ShiftScale
  }

  /** `mad_to_short`: saturate at +-1.0 and keep the 16 most significant bits of
      the rest (mp3player.c). */
  function MadToShort(sample: int): (r: int)
    ensures InShortRange(r)
    ensures sample >= MadOne ==> r == MaxShort
    ensures sample <= -MadOne ==> r == MinShort
    ensures -MadOne < sample < MadOne ==> ShiftScale * r <= sample < ShiftScale * (r + 1)
  {
    if sample >= MadOne then MaxShort
    else if sample <= -MadOne then MinShort
    else ShiftRight(sample)
  }

  function Clamp(x: int): (r: int)
  {
    if x > MaxShort then MaxShort else if x < MinShort then MinShort else x
  }

  /** Saturating first and shifting afterwards gives the same sample as shifting
      first and clipping to the 16-bit range: `mad_to_short` is a clipped shift. */
  lemma MadToShortIsClippedShift(sample: int)
    ensures MadToShort(sample) == Clamp(ShiftRight(sample))
  {
  }

  /** Louder input never gives a quieter 16-bit sample. */
  lemma MadToShortMonotone(a: int, b: int)
    requires a <= b
    ensures MadToShort(a) <= MadToShort(b)
  {
    MadToShortIsClippedShift(a);
    MadToShortIsClippedShift(b);
  }

  /** The FLAC player's `(signed short)` cast of an `int32` sample: the low 16 bits
      read as two's complement (what gcc does; C leaves it implementation-defined). */
  function Narrow(sample: int): (r: int)
    ensures InShortRange(r)
    ensures (sample - r) % 0x1_0000 == 0
    ensures InShortRange(sample) ==> r == sample
  {
    (sample + 0x8000) % 0x1_0000 - 0x8000
  }

  /** One 16-bit sample per channel per time slot: two when stereo, one otherwise. */
  function Width(stereo: bool): nat
  {
    if stereo then 2 else 1
  }

  /** The buffer the `*ptr++` loops fill from the first `n` samples: `conv` of
      the left sample, followed by `conv` of the right one when stereo. */
  function Interleaved(left: seq<int>, right: seq<int>, n: nat, stereo: bool, conv: int -> int): (pcm: seq<int>)
    requires n <= |left| && (stereo ==> n <= |right|)
    ensures |pcm| == if stereo then 2 * n else n
    decreases n
  {
    if n == 0 then []
    else Interleaved(left, right, n - 1, stereo, conv)
         + (if stereo then [conv(left[n - 1]), conv(right[n - 1])] else [conv(left[n - 1])])
  }

  /** Where each converted sample lands: `2i` and `2i + 1` for stereo, `i` for mono. */
  lemma {:induction false} InterleavedAt(left: seq<int>, right: seq<int>, n: nat, stereo: bool, conv: int -> int, i: nat)
    requires n <= |left| && (stereo ==> n <= |right|)
    requires i < n
    ensures stereo ==> Interleaved(left, right, n, stereo, conv)[2 * i] == conv(left[i])
    ensures stereo ==> Interleaved(left, right, n, stereo, conv)[2 * i + 1] == conv(right[i])
    ensures !stereo ==> Interleaved(left, right, n, stereo, conv)[i] == conv(left[i])
  {
    if i < n - 1 {
      InterleavedAt(left, right, n - 1, stereo, conv, i);
    }
  }

  /** The first `n` samples of one channel, each converted. */
  function Converted(s: seq<int>, n: nat, conv: int -> int): (c: seq<int>)
    requires n <= |s|
  {
    seq(n, i requires 0 <= i < n => conv(s[i]))
  }

  /** Splits an interleaved stereo buffer back into its left and right channels. */
  function Deinterleave(pcm: seq<int>): (channels: (seq<int>, seq<int>))
    requires |pcm| % 2 == 0
    decreases |pcm|
  {
    if pcm == [] then ([], [])
    else
      var rest := Deinterleave(pcm[..|pcm| - 2]);
      (rest.0 + [pcm[|pcm| - 2]], rest.1 + [pcm[|pcm| - 1]])
  }

  lemma DeinterleaveSnoc(prev: seq<int>, x: int, y: int)
    requires |prev| % 2 == 0
    ensures Deinterleave(prev + [x, y]) == (Deinterleave(prev).0 + [x], Deinterleave(prev).1 + [y])
  {
  }

  lemma ConvertedSnoc(s: seq<int>, n: nat, conv: int -> int)
    requires 0 < n <= |s|
    ensures Converted(s, n, conv) == Converted(s, n - 1, conv) + [conv(s[n - 1])]
  {
  }

  /** Stereo interleaving loses nothing and mixes nothing: splitting the buffer
      again yields each channel, converted, in order. */
  lemma {:induction false} DeinterleaveInterleaved(left: seq<int>, right: seq<int>, n: nat, conv: int -> int)
    requires n <= |left| && n <= |right|
    ensures Deinterleave(Interleaved(left, right, n, true, conv))
            == (Converted(left, n, conv), Converted(right, n, conv))
  {
    if n > 0 {
      DeinterleaveInterleaved(left, right, n - 1, conv);
      DeinterleaveSnoc(Interleaved(left, right, n - 1, true, conv), conv(left[n - 1]), conv(right[n - 1]));
      ConvertedSnoc(left, n, conv);
      ConvertedSnoc(right, n, conv);
    } else {
      assert Converted(left, n, conv) == [] && Converted(right, n, conv) == [];
    }
  }

  /** A mono buffer is the converted channel itself. */
  lemma {:induction false} MonoInterleaved(left: seq<int>, right: seq<int>, n: nat, conv: int -> int)
    requires n <= |left|
    ensures Interleaved(left, right, n, false, conv) == Converted(left, n, conv)
  {
    if n > 0 {
      MonoInterleaved(left, right, n - 1, conv);
      ConvertedSnoc(left, n, conv);
    }
  }

  /** A decoded block: per-channel native samples (`buffer[]` of a FLAC frame,
      `pcm->samples` of a libmad block), the channel count and samples per channel. */
  datatype Block = Block(rate: nat, channels: nat, length: nat, samples: seq<seq<int>>)
  {
    /** What the decoders guarantee: at least one channel, and `length` samples in
        every channel the conversion loops read (channel 0, and channel 1 for stereo). */
    predicate WellFormed()
    {
      && channels >= 1
      && |samples| >= 1 && |samples[0]| >= length
      && (channels == 2 ==> |samples| >= 2 && |samples[1]| >= length)
    }

    /** The loops read a second channel only when there are exactly two. */
    predicate Stereo()
    {
      channels == 2
    }

    function Right(): seq<int>
      requires WellFormed()
    {
      if Stereo() then samples[1] else []
    }

    /** The 16-bit buffer the player hands to the device for this block. */
    function Pcm(conv: int -> int): seq<int>
      requires WellFormed()
    {
      Interleaved(samples[0], Right(), length, Stereo(), conv)
    }
  }

  /** The `*ptr++` loop: fills the front of `out` with `Interleaved(...)` and
      returns how many shorts it wrote. */
  method FillInterleaved(out: array<int>, left: seq<int>, right: seq<int>, n: nat, stereo: bool, conv: int -> int)
    returns (filled: nat)
    requires n <= |left| && (stereo ==> n <= |right|)
    requires Width(stereo) * n <= out.Length
    modifies out
    ensures filled == Width(stereo) * n
    ensures out[..filled] == Interleaved(left, right, n, stereo, conv)
    ensures out[filled..] == old(out[filled..])
  {
    var ptr := 0;
    var i := 0;
    while i < n
      invariant 0 <= i <= n
      invariant ptr == if stereo then 2 * i else i
      invariant out[..ptr] == Interleaved(left, right, i, stereo, conv)
      invariant out[Width(stereo) * n..] == old(out[Width(stereo) * n..])
    {
      out[ptr] := conv(left[i]);
      ptr := ptr + 1;
      if stereo {
        out[ptr] := conv(right[i]);
        ptr := ptr + 1;
      }
      i := i + 1;
    }
    filled := ptr;
  }

  /** The buffer a block is converted into holds `length * channels` shorts, enough
      for what the loop writes. */
  lemma BufferFits(b: Block)
    requires b.WellFormed()
    ensures Width(b.Stereo()) * b.length <= b.length * b.channels
  {
  }
}
