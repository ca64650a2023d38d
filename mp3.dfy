/** The libmad callbacks of the MP3 player (mp3player.c): a one-shot input
    handoff, the output callback with its configure-once flag, the block writer
    with underrun recovery, and the error policy. */
module Mp3Player {
  import opened Bytes
  import opened Samples
  import opened Alsa

  /** `enum mad_flow` values the callbacks return. */
  datatype MadFlow = Continue | Stop

  /** libmad error codes (`enum mad_error`, from libmad's header). */
  const ErrorBufLen: bv16 := 0x0001
  const ErrorBufPtr: bv16 := 0x0002
  const ErrorNoMem: bv16 := 0x0031
  const ErrorLostSync: bv16 := 0x0101
  const ErrorBadCrc: bv16 := 0x0201
  const ErrorBadHuffData: bv16 := 0x0238

  /** `MAD_RECOVERABLE(error)`, defined by libmad as `((error) & 0xff00)`. */
  predicate Recoverable(error: bv16)
  {
    error & 0xff00 != 0
  }

  /** `error`: keep decoding exactly when libmad calls the error recoverable. */
  function ErrorFlow(error: bv16): (flow: MadFlow)
    ensures flow == Continue <==> Recoverable(error)
    ensures flow == Stop <==> !Recoverable(error)
  {
    if Recoverable(error) then Continue else Stop
  }

  /** The codes below 0x100 (buffer and memory conditions) stop the decoder; the
      frame-level codes from 0x100 up let it carry on with the next frame. */
  lemma ErrorFlowByRange(error: bv16)
    ensures ErrorFlow(error) == (if error < 0x0100 then Stop else Continue)
  {
  }

  lemma ErrorFlowExamples()
    ensures ErrorFlow(ErrorBufLen) == Stop && ErrorFlow(ErrorBufPtr) == Stop && ErrorFlow(ErrorNoMem) == Stop
    ensures ErrorFlow(ErrorLostSync) == Continue && ErrorFlow(ErrorBadCrc) == Continue
    ensures ErrorFlow(ErrorBadHuffData) == Continue
  {
  }

  /** `decode_output`: convert the block with `mad_to_short`, interleave it and
      write `length` frames; prepare the device after an underrun. `allocOk` says
      whether the output buffer could be allocated and `result` is what the device
      write reported. Returns -1 only when allocation fails. */
  method DecodeOutput(sink: Sink, pcm: Block, allocOk: bool, result: WriteResult) returns (rc: int)
    requires pcm.WellFormed()
    modifies sink
    ensures rc == (if allocOk then 0 else -1)
    ensures sink.trace == old(sink.trace) + DecodeCalls(pcm, allocOk, result)
  {
    var nchannels := pcm.channels;
    var nsamples := pcm.length;
    if !allocOk {
      return -1;
    }
    BufferFits(pcm);
    var buffer := new int[nsamples * nchannels];
    var filled := FillInterleaved(buffer, pcm.samples[0], pcm.Right(), nsamples, pcm.Stereo(), MadToShort);
    sink.WriteFrames(pcm.length, buffer[..filled]);
    if result.Underrun? {
      sink.PrepareAfterUnderrun();
    }
    rc := 0;
  }

  /** The device calls `decode_output` makes for one block. */
  function DecodeCalls(pcm: Block, allocOk: bool, result: WriteResult): seq<SinkCall>
    requires pcm.WellFormed()
  {
    if allocOk then [Write(pcm.length, pcm.Pcm(MadToShort))] + Recovery(result) else []
  }

  /** A write of a well-formed stereo block carries, at positions `2i` and `2i + 1`,
      `mad_to_short` of the left and right sample `i`; a mono block carries the left
      sample `i` at position `i`. Every written sample is a valid 16-bit value. */
  lemma DecodeCallsWriteConverted(pcm: Block, allocOk: bool, result: WriteResult, i: nat)
    requires pcm.WellFormed() && allocOk && i < pcm.length
    ensures DecodeCalls(pcm, allocOk, result)[0].Write?
    ensures var w := DecodeCalls(pcm, allocOk, result)[0];
            && w.frames == pcm.length
            && |w.samples| == Width(pcm.Stereo()) * pcm.length
            && (pcm.Stereo() ==> w.samples[2 * i] == MadToShort(pcm.samples[0][i])
                                 && w.samples[2 * i + 1] == MadToShort(pcm.samples[1][i]))
            && (!pcm.Stereo() ==> w.samples[i] == MadToShort(pcm.samples[0][i]))
            && forall k :: 0 <= k < |w.samples| ==> InShortRange(w.samples[k])
  {
    var left, right, n := pcm.samples[0], pcm.Right(), pcm.length;
    InterleavedAt(left, right, n, pcm.Stereo(), MadToShort, i);
    var w := DecodeCalls(pcm, allocOk, result)[0];
    forall k | 0 <= k < |w.samples| ensures InShortRange(w.samples[k]) {
      if pcm.Stereo() {
        InterleavedAt(left, right, n, true, MadToShort, k / 2);
      } else {
        InterleavedAt(left, right, n, false, MadToShort, k);
      }
    }
  }

  class Mp3Session {
    const fileData: seq<byte>
    /** `mp3_file_buffer.length`: the bytes not yet handed to the decoder. */
    var length: nat
    /** The function-static `alsa_configured` flag of `output`. */
    var alsaConfigured: bool
    const sink: Sink

    ghost predicate Valid()
      reads this
    {
      length == 0 || length == |fileData|
    }

    constructor (data: seq<byte>, device: Sink)
      ensures Valid()
      ensures fileData == data && length == |data| && !alsaConfigured && sink == device
    {
      fileData := data;
      length := |data|;
      alsaConfigured := false;
      sink := device;
    }

    /** `input`: hand the whole file to the decoder on the first call and report
        STOP on every later one. Returns the flow and the bytes handed over. */
    method Input() returns (flow: MadFlow, handed: seq<byte>)
      requires Valid()
      modifies this`length
      ensures Valid() && length == 0
      ensures old(length) == 0 ==> flow == Stop && handed == []
      ensures old(length) != 0 ==> flow == Continue && handed == fileData
    {
      if length == 0 {
        return Stop, [];
      }
      handed := fileData[..length];
      length := 0;
      flow := Continue;
    }

    /** `output`: configure the device on the first block (STOP if the device
        rejects it, without writing), then hand every block to `decode_output`.
        `accepted` is the outcome of the hardware-parameter negotiation. */
    method Output(pcm: Block, accepted: bool, allocOk: bool, result: WriteResult) returns (flow: MadFlow)
      requires pcm.WellFormed()
      modifies this`alsaConfigured, sink
      ensures var step := LatchStep(old(alsaConfigured), ConfigRequest(true, pcm.rate, pcm.channels, accepted));
              && alsaConfigured == step.configured
              && (flow == Continue <==> alsaConfigured)
              && sink.trace == old(sink.trace) + step.calls
                 + (if flow == Continue then DecodeCalls(pcm, allocOk, result) else [])
    {
      if !alsaConfigured {
        sink.ConfigureHw(pcm.rate, pcm.channels, accepted);
        if !accepted {
          return Stop;
        }
        alsaConfigured := true;
      }
      var _ := DecodeOutput(sink, pcm, allocOk, result);
      flow := Continue;
    }
  }
}
