# FLAC and MP3 command-line players: callback logic

The two players decode a compressed file held in memory and stream the decoded
PCM to an ALSA device. The FLAC player also runs a keyboard monitor thread that
pauses, resumes, stops or quits playback. The codec library drives everything
through callbacks. This project models those callbacks:

- the FLAC read callback, a cursor over the file bytes;
- the FLAC frame callback: transport-state checks, the pause wait, the `int32` to
  `short` conversion, L/R interleaving, the device write and underrun recovery;
- the FLAC metadata callback and its configure-once flag;
- the transport state machine and the keyboard monitor loop;
- the MP3 one-shot input handoff, the MP3 output callback with its static
  configure-once flag, `decode_output`, `mad_to_short`, and the MP3 error policy.

Modules:

- `Transport` (transport.dfy) holds the player states, the command switch and the monitor loop.
- `Samples` (samples.dfy) holds both sample conversions, the interleaving loop, and de-interleaving lemmas.
- `Alsa` (alsa.dfy) holds the device as a class that records every call in a
  trace (`Drop`, `Pause(b)`, `Write(frames, samples)`, `Prepare`,
  `Configure(rate, channels, accepted)`). It also holds the configure-once latch
  that both players use.
- `FlacPlayer` (flac.dfy) and `Mp3Player` (mp3.dfy) hold the callbacks of each
  player, as methods of a session class.
- `Bytes` (bytes.dfy) holds the byte type and the `memcpy` loop.

The shared `volatile` transport state is a parameter of each callback. The pause
wait reads a sequence `polls` instead: the state observed at each poll. Each
foreign result is an input of the callback that receives it:

- the device's write result: a frame count, `Underrun` (`-EPIPE`) or another error;
- whether the device accepted the configuration;
- whether `malloc` succeeded.

libmad's header is not part of this model. Its constants are written out:
`MAD_F_FRACBITS` = 28, `MAD_F_ONE` = 2^28 (lemma `MadConstants` checks the
written-out values against these definitions),
`MAD_RECOVERABLE(e)` = `e & 0xff00`. An arithmetic `>>` of a negative value
is floor division, which is what gcc does.

Behaviour of the code worth knowing, which the model follows:

- The FLAC path does not saturate. `(signed short)` keeps the low 16 bits, read
  as two's complement (`Samples.Narrow`). So a sample whose magnitude needs more
  than 16 bits keeps only its low 16 bits and wraps around; samples already in
  the 16-bit range pass unchanged, whatever the stream's bit depth.
- When the MP3 device rejects its configuration, `output` returns STOP. It does
  not keep decoding and drop the frames.
- The FLAC frame callback writes to the device whether or not `alsa_configured`
  is set.
- The keyboard monitor does not end when its input closes. Only Stopped or Quit
  ends it.
- `s` switches Quit to Stopped and `q` switches Stopped to Quit. The monitor loop
  never applies a command in those states, so neither transition is ever taken.

## Model

| member | source | states |
|---|---|---|
| Transport.Transition | flacplayer.c:199-220 | For each resulting state, exactly the inputs that produce it: `p` pauses only while Playing, `r` resumes only while Paused, `s`/`q` give Stopped/Quit from any state, other characters change nothing |
| Transport.ApplyTerminal | flacplayer.c:196-220 | A command sequence ends in Stopped or Quit iff it starts there or contains `s` or `q` (pause/resume never leave a terminal state) |
| Transport.InputMonitor | flacplayer.c:196-221 | The loop reads characters only while the state is neither Stopped nor Quit; the final state is the fold of the characters read; it stops early only in a terminal state, and ends terminal iff the input starts terminal or contains `s`/`q` |
| Samples.MadConstants | mp3player.c:18-23 | Sanity check of the written-out constants: `MAD_F_ONE` is 2^`MAD_F_FRACBITS` and the shift `MAD_F_FRACBITS + 1 - 16` is 13 bits, i.e. a division by 8192 |
| Samples.ShiftRight | mp3player.c:23 | The arithmetic shift is floor division: 8192·r ≤ x < 8192·(r+1) |
| Samples.MadToShort | mp3player.c:16-24 | Result always in [-32768, 32767]; 32767 when s ≥ ONE, -32768 when s ≤ -ONE, otherwise floor(s / 2^13) |
| Samples.MadToShortIsClippedShift | mp3player.c:16-24 | Saturating and then shifting equals shifting and then clipping to 16 bits |
| Samples.MadToShortMonotone | mp3player.c:16-24 | `mad_to_short` is monotone non-decreasing |
| Samples.Narrow | flacplayer.c:137-139 | The `(signed short)` cast: result in 16-bit range, congruent to the input modulo 2^16, and equal to the input when it already fits |
| Samples.Interleaved | flacplayer.c:134-141 | The buffer filled from n samples holds 2n shorts for stereo and n for mono |
| Samples.InterleavedAt | mp3player.c:42-48 | Stereo places conv(left[i]) at 2i and conv(right[i]) at 2i+1; mono places conv(left[i]) at i |
| Samples.DeinterleaveInterleaved | flacplayer.c:136-141 | Splitting a stereo buffer again gives each converted channel in order (nothing lost, nothing swapped) |
| Samples.MonoInterleaved | mp3player.c:42-48 | A mono buffer is the converted left channel |
| Samples.FillInterleaved | flacplayer.c:134-141 | The `*ptr++` loop fills exactly `Interleaved(...)` at the front of the buffer and leaves the rest untouched |
| Samples.BufferFits | mp3player.c:29-32 | The `nsamples * nchannels` buffer holds what the loop writes |
| Bytes.Copy | flacplayer.c:94 | `memcpy`: the first `count` bytes become `src[from..from+count]`, the rest is unchanged |
| Alsa.Sink.DropAll | flacplayer.c:110 | `snd_pcm_drop` appends `Drop` to the device trace |
| Alsa.Sink.SetPause | flacplayer.c:115 | `snd_pcm_pause(h, b)` appends `Pause(b)` |
| Alsa.Sink.WriteFrames | flacplayer.c:143 | `snd_pcm_writei` appends `Write(frames, samples)` |
| Alsa.Sink.PrepareAfterUnderrun | flacplayer.c:148 | `snd_pcm_prepare` appends `Prepare` |
| Alsa.Sink.ConfigureHw | flacplayer.c:31-64 | A hardware-parameter negotiation appends `Configure(rate, channels, accepted)` |
| Alsa.LatchStep | flacplayer.c:165-176 | A configure call is made exactly when the flag is unset and the event is eligible (STREAMINFO for FLAC), and it is the only call; once configured, no call and the flag stays set; the flag ends set iff it was set or the request was eligible and accepted |
| Alsa.LatchRunConfiguredIsSilent | flacplayer.c:166 | After one success, any later sequence of events makes no device call |
| Alsa.LatchRunGrantsFirst | flacplayer.c:165-176 | Over any event sequence the device accepts at most one configuration, the first eligible accepted request; the session ends configured iff one exists |
| FlacPlayer.NextOffset | flacplayer.c:78-98 | The cursor advances to min(offset + requested, file size) and never past the end |
| FlacPlayer.CursorAfterReads | flacplayer.c:83-96 | After any series of requests the cursor is min(start + sum of requests, file size) |
| FlacPlayer.Awaited | flacplayer.c:117-123 | The state the pause loop leaves on is a poll preceded only by Paused polls, i.e. the first non-Paused one; Paused iff every poll is Paused |
| FlacPlayer.AwaitedTakesFirst | flacplayer.c:117-123 | Whenever poll k is the first that is not Paused, the pause loop acts on exactly that poll (so Playing then Stopped resumes, Stopped then Playing aborts) |
| FlacPlayer.FlacPcmAt | flacplayer.c:134-141 | The FLAC buffer holds `Narrow` of each sample at 2i/2i+1 (stereo) or i (mono); in-range samples arrive unchanged |
| FlacPlayer.FlacSession.constructor | flacplayer.c:275-281 | A session starts at offset 0, unconfigured |
| FlacPlayer.FlacSession.Read | flacplayer.c:66-99 | Stopped/Quit: ABORT with the cursor, buffer and `*bytes` untouched. Otherwise the cursor moves to `NextOffset` and `*bytes` is the distance moved. The buffer front holds exactly those file bytes and the rest is untouched. CONTINUE iff bytes > 0, else END_OF_STREAM |
| FlacPlayer.FlacSession.Write | flacplayer.c:101-156 | Stopped/Quit on entry: ABORT, trace `[Drop]`. Stopped/Quit during the pause wait: ABORT, trace `[Pause(true), Drop]`. Otherwise: `Pause(false)`, then `Write(nsamples, narrowed interleaved block)`, then `Prepare` only on underrun; CONTINUE iff allocation succeeded |
| FlacPlayer.FlacSession.Metadata | flacplayer.c:158-178 | Configures only on STREAMINFO while unconfigured; sets the flag only on success (one `LatchStep`) |
| Mp3Player.ErrorFlow | mp3player.c:121-133 | CONTINUE exactly when `MAD_RECOVERABLE(error)` holds, STOP otherwise |
| Mp3Player.ErrorFlowByRange | mp3player.c:129-132 | Codes below 0x100 stop the decoder; codes from 0x100 up continue |
| Mp3Player.ErrorFlowExamples | mp3player.c:129-132 | Sanity check on named codes: BUFLEN, BUFPTR and NOMEM stop; LOSTSYNC, BADCRC and BADHUFFDATA continue |
| Mp3Player.DecodeOutput | mp3player.c:26-64 | Returns -1 only when allocation fails, 0 for every write outcome. Writes `pcm->length` frames of the `mad_to_short`-converted interleaved block, then `Prepare` only on underrun |
| Mp3Player.DecodeCallsWriteConverted | mp3player.c:38-50 | The block written holds `length` frames: `mad_to_short` of left/right sample i at 2i/2i+1 (stereo) or i (mono), and every sample is in 16-bit range |
| Mp3Player.Mp3Session.constructor | mp3player.c:172-173 | The session starts with the whole file pending and the device unconfigured |
| Mp3Player.Mp3Session.Input | mp3player.c:66-76 | With bytes pending: hands over the whole file, CONTINUE. Otherwise STOP. Either way the length is 0 afterwards, so a second call always returns STOP |
| Mp3Player.Mp3Session.Output | mp3player.c:78-119 | Configures only while the flag is unset. A rejected configuration returns STOP with no write and the flag unset. Once configured, every call runs `decode_output` and returns CONTINUE, whatever that returned |

## Left out

- ALSA hardware-parameter negotiation is left out: `configure_alsa` and the hw_params block of `output`. It is a foreign call with negotiated rate and buffer sizes, and only its success or failure is an input.
- The codec libraries are not modelled (FLAC stream decoder, libmad `mad_decoder_run`, `mad_stream_buffer`). `Input` returns the bytes it hands over instead.
- `flac_error_callback` only logs, so it is not modelled.
- Threads, `usleep`, the `volatile` global and timing are replaced by explicit inputs: the state on entry and the state at each poll.
- FlacPlayer.FlacSession.Write: the source reads the volatile state twice per pause iteration, once after the sleep and once in the loop guard. The model reads it once per poll. In the source, a stop that lands between those two reads ends the wait and the frame is written. The model does not capture that race.
- FlacPlayer.FlacSession.Write requires the pause wait to end, meaning some poll is not Paused. A wait that never ends is a callback that never returns, so there is nothing to model.
- Terminal handling and keyboard I/O are left out (`stty`, `getchar`, the status lines). Transport.InputMonitor takes a finite character sequence and ends when it runs out. At end of input the source's `getchar` keeps returning EOF and the loop spins.
- `main` in both files is left out: argument checks, file loading, device open, thread start and join, drain/close/free teardown.
- Logging (`printf`/`fprintf`) is left out.
- For more than two channels the source fills only `nsamples` shorts of its `nsamples * nchannels` buffer and writes the uninitialised rest. The model's `Write` entry holds only the filled part.
- Short writes (fewer frames written than asked) are ignored by both players and by the model. A failure of `snd_pcm_prepare` is only logged.
- C integer widths are not modelled: the `size_t` to `long` cast of the request, and overflow of `nsamples * nchannels * 2`. Samples are unbounded integers and `Narrow` models the 16-bit cast.
- The MP3 `alsa_configured` flag is function-static in the source, which makes it per process. The model keeps it on the session object.
