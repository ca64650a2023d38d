/** The decoder callbacks of the FLAC player (flacplayer.c): a cursor over the
    in-memory file, the frame callback with its pause wait and underrun recovery,
    and the configure-once metadata callback. */
module FlacPlayer {
  import opened Bytes
  import opened Transport
  import opened Samples
  import opened Alsa

  datatype ReadStatus = ReadContinue | EndOfStream | ReadAbort
  datatype WriteStatus = WriteContinue | WriteAbort
  datatype MetadataType = StreamInfo | OtherMetadata

  function Min(a: int, b: int): int
  {
    if a <= b then a else b
  }

  /** Where the read callback leaves the cursor after a request for `requested`
      bytes while playback goes on. */
  function NextOffset(offset: nat, size: nat, requested: nat): (next: nat)
    requires offset <= size
    ensures offset <= next <= size
    ensures next == Min(offset + requested, size)
  {
    if offset >= size then offset
    else
      var toRead := if requested > size - offset then size - offset else requested;
      if toRead == 0 then offset else offset + toRead
  }

  function Sum(requests: seq<nat>): nat
  {
    if requests == [] then 0 else requests[0] + Sum(requests[1..])
  }

  /** The cursor after a series of reads. */
  function CursorAfter(offset: nat, size: nat, requests: seq<nat>): nat
    requires offset <= size
    decreases |requests|
  {
    if requests == [] then offset
    else CursorAfter(NextOffset(offset, size, requests[0]), size, requests[1..])
  }

  /** After reads asking for `r1, r2, ...` bytes, the cursor has moved by the
      total asked for, but never past the end of the file. */
  lemma {:induction false} CursorAfterReads(offset: nat, size: nat, requests: seq<nat>)
    requires offset <= size
    ensures CursorAfter(offset, size, requests) == Min(offset + Sum(requests), size)
    decreases |requests|
  {
    if requests != [] {
      CursorAfterReads(NextOffset(offset, size, requests[0]), size, requests[1..]);
    }
  }

  /** The first state the pause loop sees that is not Paused (Paused if none is). */
  function Awaited(polls: seq<PlayerState>): (s: PlayerState)
    ensures s != Paused ==>
              exists k :: 0 <= k < |polls| && polls[k] == s && forall j :: 0 <= j < k ==> polls[j] == Paused
    ensures s == Paused <==> forall i :: 0 <= i < |polls| ==> polls[i] == Paused
  {
    if polls == [] then Paused
    else if polls[0] != Paused then polls[0]
    else
      var s := Awaited(polls[1..]);
      assert s != Paused ==> exists k :: 0 < k < |polls| && polls[k] == s && forall j :: 0 <= j < k ==> polls[j] == Paused by {
        if s != Paused {
          var k :| 0 <= k < |polls[1..]| && polls[1..][k] == s && forall j :: 0 <= j < k ==> polls[1..][j] == Paused;
          assert polls[k + 1] == s;
          assert forall j :: 0 <= j < k + 1 ==> polls[j] == Paused by {
            forall j | 0 <= j < k + 1 ensures polls[j] == Paused {
              if j > 0 { assert polls[j] == polls[1..][j - 1]; }
            }
          }
        }
      }
      s
  }

  /** The pause loop leaves on the first poll that is not Paused: a Playing poll
      followed by a Stopped one resumes playback, the reverse order aborts. */
  lemma AwaitedTakesFirst(polls: seq<PlayerState>, k: nat)
    requires k < |polls| && polls[k] != Paused
    requires forall j :: 0 <= j < k ==> polls[j] == Paused
    ensures Awaited(polls) == polls[k]
  {
    var s := Awaited(polls);
    assert polls[k] != Paused;
    var m :| 0 <= m < |polls| && polls[m] == s && forall j :: 0 <= j < m ==> polls[j] == Paused;
  }

  /** The state the frame callback acts on once any pause wait is over. */
  function Settled(entry: PlayerState, polls: seq<PlayerState>): PlayerState
  {
    if entry == Paused then Awaited(polls) else entry
  }

  /** The calls the frame callback makes before converting the block. */
  function PauseCalls(entry: PlayerState): seq<SinkCall>
  {
    if entry == Paused then [Pause(true)] else []
  }

  /** Where the frame callback puts each narrowed sample of a block: positions
      `2i` and `2i + 1` for stereo, `i` for mono; a sample already within 16 bits
      arrives unchanged. */
  lemma FlacPcmAt(frame: Block, i: nat)
    requires frame.WellFormed() && i < frame.length
    ensures |frame.Pcm(Narrow)| == Width(frame.Stereo()) * frame.length
    ensures frame.Stereo() ==>
              && frame.Pcm(Narrow)[2 * i] == Narrow(frame.samples[0][i])
              && frame.Pcm(Narrow)[2 * i + 1] == Narrow(frame.samples[1][i])
    ensures !frame.Stereo() ==> frame.Pcm(Narrow)[i] == Narrow(frame.samples[0][i])
    ensures InShortRange(frame.samples[0][i]) ==>
              frame.Pcm(Narrow)[Width(frame.Stereo()) * i] == frame.samples[0][i]
    ensures frame.Stereo() && InShortRange(frame.samples[1][i]) ==>
              frame.Pcm(Narrow)[2 * i + 1] == frame.samples[1][i]
  {
    InterleavedAt(frame.samples[0], frame.Right(), frame.length, frame.Stereo(), Narrow, i);
  }

  class FlacSession {
    const fileData: seq<byte>
    var currentOffset: nat
    var alsaConfigured: bool
    const sink: Sink

    ghost predicate Valid()
      reads this
    {
      currentOffset <= |fileData|
    }

    constructor (data: seq<byte>, device: Sink)
      ensures Valid()
      ensures fileData == data && currentOffset == 0 && !alsaConfigured && sink == device
    {
      fileData := data;
      currentOffset := 0;
      alsaConfigured := false;
      sink := device;
    }

    /** `flac_read_callback`: `state` is the transport state when the decoder asks
        for bytes, `buffer` has room for `requested` bytes; returns the status and
        the new value of `*bytes`. */
    method Read(state: PlayerState, buffer: array<byte>, requested: nat) returns (status: ReadStatus, bytes: nat)
      requires Valid()
      requires requested <= buffer.Length
      modifies this`currentOffset, buffer
      ensures Valid()
      ensures IsTerminal(state) ==>
                && status == ReadAbort && bytes == requested
                && currentOffset == old(currentOffset) && buffer[..] == old(buffer[..])
      ensures !IsTerminal(state) ==>
                && currentOffset == NextOffset(old(currentOffset), |fileData|, requested)
                && bytes == currentOffset - old(currentOffset)
                && (if bytes > 0 then status == ReadContinue else status == EndOfStream)
                && buffer[..bytes] == fileData[old(currentOffset)..currentOffset]
                && buffer[bytes..] == old(buffer[bytes..])
    {
      if IsTerminal(state) {
        return ReadAbort, requested;
      }
      if currentOffset >= |fileData| {
        return EndOfStream, 0;
      }
      var toRead := requested;
      var remaining := |fileData| - currentOffset;
      if toRead > remaining {
        toRead := remaining;
      }
      if toRead == 0 {
        return EndOfStream, 0;
      }
      Copy(buffer, fileData, currentOffset, toRead);
      currentOffset := currentOffset + toRead;
      status, bytes := ReadContinue, toRead;
    }

    /** `flac_write_callback`: `entry` is the transport state on entry and `polls`
        the state seen at each poll of the pause wait; `allocOk` says whether the
        output buffer could be allocated and `result` is what the device write
        reported. */
    method Write(entry: PlayerState, polls: seq<PlayerState>, frame: Block, allocOk: bool, result: WriteResult)
      returns (status: WriteStatus)
      requires frame.WellFormed()
      requires entry == Paused ==> Awaited(polls) != Paused
      modifies sink
      ensures IsTerminal(entry) ==>
                status == WriteAbort && sink.trace == old(sink.trace) + [Drop]
      ensures entry == Paused && IsTerminal(Awaited(polls)) ==>
                status == WriteAbort && sink.trace == old(sink.trace) + [Pause(true), Drop]
      ensures !IsTerminal(Settled(entry, polls)) ==>
                && (status == WriteContinue <==> allocOk)
                && sink.trace == old(sink.trace) + PauseCalls(entry) + [Pause(false)]
                   + (if allocOk then [SinkCall.Write(frame.length, frame.Pcm(Narrow))] + Recovery(result) else [])
    {
      if IsTerminal(entry) {
        sink.DropAll();
        return WriteAbort;
      }
      if entry == Paused {
        sink.SetPause(true);
        var seen := Paused;
        var i := 0;
        while seen == Paused
          invariant 0 <= i <= |polls|
          invariant seen == Paused ==> Awaited(polls[i..]) == Awaited(polls)
          invariant seen != Paused ==> seen == Awaited(polls) && !IsTerminal(seen)
          invariant sink.trace == old(sink.trace) + [Pause(true)]
          decreases |polls| - i
        {
          // usleep(100000) between polls is not modelled
          assert polls[i..][1..] == polls[i + 1..];
          seen := polls[i];
          i := i + 1;
          if IsTerminal(seen) {
            sink.DropAll();
            return WriteAbort;
          }
        }
      }
      sink.SetPause(false);
      var nchannels := frame.channels;
      var nsamples := frame.length;
      if !allocOk {
        return WriteAbort;
      }
      BufferFits(frame);
      var output := new int[nsamples * nchannels];
      var filled := FillInterleaved(output, frame.samples[0], frame.Right(), nsamples, frame.Stereo(), Narrow);
      sink.WriteFrames(nsamples, output[..filled]);
      if result.Underrun? {
        sink.PrepareAfterUnderrun();
      }
      status := WriteContinue;
    }

    /** `flac_metadata_callback`: configure the device from a STREAMINFO block
        unless already configured; `accepted` is the outcome of `configure_alsa`. */
    method Metadata(kind: MetadataType, rate: nat, channels: nat, accepted: bool)
      modifies this`alsaConfigured, sink
      ensures var step := LatchStep(old(alsaConfigured), ConfigRequest(kind == StreamInfo, rate, channels, accepted));
              alsaConfigured == step.configured && sink.trace == old(sink.trace) + step.calls
    {
      if kind == StreamInfo {
        if !alsaConfigured {
          sink.ConfigureHw(rate, channels, accepted);
          if accepted {
            alsaConfigured := true;
          }
        }
      }
    }
  }
}
