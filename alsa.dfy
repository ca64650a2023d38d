/** The ALSA playback device as the players use it: every call is recorded in a
    trace, and the configure-once latch both players keep in front of it. */
module Alsa {

  /** One call on the PCM handle. `Configure` stands for a whole hardware-parameter
      negotiation; `accepted` is whether the device took it. */
  datatype SinkCall =
    | Drop
    | Pause(enable: bool)
    | Write(frames: nat, samples: seq<int>)
    | Prepare
    | Configure(rate: nat, channels: nat, accepted: bool)

  /** What `snd_pcm_writei` reported: a frame count, `-EPIPE`, or another error. */
  datatype WriteResult = Written(frames: nat) | Underrun | OtherError(code: int)

  /** The recovery the players perform after a write: `snd_pcm_prepare` on an
      underrun, nothing (a log line) for any other result. */
  function Recovery(result: WriteResult): seq<SinkCall>
  {
    if result.Underrun? then [Prepare] else []
  }

  class Sink {
    var trace: seq<SinkCall>

    constructor ()
      ensures trace == []
    {
      trace := [];
    }

    method DropAll()
      modifies this
      ensures trace == old(trace) + [Drop]
    {
      trace := trace + [Drop];
    }

    method SetPause(enable: bool)
      modifies this
      ensures trace == old(trace) + [Pause(enable)]
    {
      trace := trace + [Pause(enable)];
    }

    method WriteFrames(frames: nat, samples: seq<int>)
      modifies this
      ensures trace == old(trace) + [Write(frames, samples)]
    {
      trace := trace + [Write(frames, samples)];
    }

    method PrepareAfterUnderrun()
      modifies this
      ensures trace == old(trace) + [Prepare]
    {
      trace := trace + [Prepare];
    }

    method ConfigureHw(rate: nat, channels: nat, accepted: bool)
      modifies this
      ensures trace == old(trace) + [Configure(rate, channels, accepted)]
    {
      trace := trace + [Configure(rate, channels, accepted)];
    }
  }

  /** One chance to configure the device: `eligible` says whether the callback
      would configure on this event (a STREAMINFO block for FLAC, every block for
      MP3), `accepted` what the device answered. */
  datatype ConfigRequest = ConfigRequest(eligible: bool, rate: nat, channels: nat, accepted: bool)

  datatype Latched = Latched(configured: bool, calls: seq<SinkCall>)

  /** The `alsa_configured` latch: configure only while not yet configured, and set
      the flag only when the device accepts. */
  function LatchStep(configured: bool, req: ConfigRequest): (r: Latched)
    ensures configured ==> r == Latched(true, [])
    ensures r.configured <==> configured || (req.eligible && req.accepted)
    ensures r.calls != [] <==> !configured && req.eligible
    ensures |r.calls| <= 1
    ensures forall c :: c in r.calls ==> c == Configure(req.rate, req.channels, req.accepted)
  {
    if configured || !req.eligible then Latched(configured, [])
    else Latched(req.accepted, [Configure(req.rate, req.channels, req.accepted)])
  }

  /** The latch driven by a sequence of requests. */
  function LatchRun(configured: bool, reqs: seq<ConfigRequest>): Latched
    decreases |reqs|
  {
    if reqs == [] then Latched(configured, [])
    else
      var step := LatchStep(configured, reqs[0]);
      var rest := LatchRun(step.configured, reqs[1..]);
      Latched(rest.configured, step.calls + rest.calls)
  }

  /** The configurations the device accepted, in order. */
  function Granted(calls: seq<SinkCall>): seq<SinkCall>
  {
    if calls == [] then []
    else if calls[0].Configure? && calls[0].accepted then [calls[0]] + Granted(calls[1..])
    else Granted(calls[1..])
  }

  /** The configuration a session should end up with: the first eligible request
      the device accepts. */
  function FirstGranted(reqs: seq<ConfigRequest>): seq<SinkCall>
  {
    if reqs == [] then []
    else if reqs[0].eligible && reqs[0].accepted then [Configure(reqs[0].rate, reqs[0].channels, true)]
    else FirstGranted(reqs[1..])
  }

  /** Once configured, no later event touches the device again. */
  lemma {:induction false} LatchRunConfiguredIsSilent(reqs: seq<ConfigRequest>)
    ensures LatchRun(true, reqs) == Latched(true, [])
  {
    if reqs != [] {
      LatchRunConfiguredIsSilent(reqs[1..]);
    }
  }

  /** The device is configured at most once per session, with the parameters of
      the first eligible request it accepts; the session ends configured exactly
      when such a request exists. */
  lemma {:induction false} LatchRunGrantsFirst(reqs: seq<ConfigRequest>)
    ensures Granted(LatchRun(false, reqs).calls) == FirstGranted(reqs)
    ensures LatchRun(false, reqs).configured <==> FirstGranted(reqs) != []
  {
    if reqs != [] {
      var req := reqs[0];
      if req.eligible && req.accepted {
        LatchRunConfiguredIsSilent(reqs[1..]);
        var c := Configure(req.rate, req.channels, true);
        assert LatchRun(false, reqs).calls == [c];
        assert Granted([c]) == [c] + Granted([]);
      } else {
        LatchRunGrantsFirst(reqs[1..]);
        var rest := LatchRun(false, reqs[1..]);
        if req.eligible {
          var c := Configure(req.rate, req.channels, false);
          assert LatchRun(false, reqs).calls == [c] + rest.calls;
          assert ([c] + rest.calls)[1..] == rest.calls;
        } else {
          assert LatchRun(false, reqs).calls == rest.calls;
        }
      }
    }
  }
}
