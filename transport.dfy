/** The transport state shared by the decoder callbacks and the keyboard monitor
    (`player_state_t` in flacplayer.c), its transition switch and the monitor loop. */
module Transport {

  datatype PlayerState = Playing | Paused | Stopped | Quit

  /** Stopped and Quit end playback: the callbacks abort and the monitor exits. */
  predicate IsTerminal(s: PlayerState)
  {
    s == Stopped || s == Quit
  }

  /** The commands that force a terminal state from any state. */
  predicate IsHaltCommand(c: char)
  {
    c == 's' || c == 'q'
  }

  /** The `switch (command)` of `input_monitor`: `p` pauses only while playing,
      `r` resumes only while paused, `s` and `q` act from any state, and any other
      character is ignored. Each clause says exactly when a state is the outcome. */
  function Transition(s: PlayerState, c: char): (t: PlayerState)
    ensures t == Playing <==> (s == Playing && c != 'p' && !IsHaltCommand(c)) || (s == Paused && c == 'r')
    ensures t == Paused <==> (s == Paused && c != 'r' && !IsHaltCommand(c)) || (s == Playing && c == 'p')
    ensures t == Stopped <==> c == 's' || (s == Stopped && c != 'q')
    ensures t == Quit <==> c == 'q' || (s == Quit && c != 's')
  {
    match c
    case 'p' => if s == Playing then Paused else s
    case 'r' => if s == Paused then Playing else s
    case 's' => Stopped
    case 'q' => Quit
    case _ => s
  }

  /** The state after applying every command of `cmds` in order. */
  function Apply(s: PlayerState, cmds: seq<char>): PlayerState
  {
    if cmds == [] then s else Transition(Apply(s, cmds[..|cmds| - 1]), cmds[|cmds| - 1])
  }

  /** A command sequence ends in a terminal state exactly when it starts in one or
      contains a stop or quit command: pause and resume never leave Stopped or Quit. */
  lemma {:induction false} ApplyTerminal(s: PlayerState, cmds: seq<char>)
    ensures IsTerminal(Apply(s, cmds)) <==>
            IsTerminal(s) || exists i :: 0 <= i < |cmds| && IsHaltCommand(cmds[i])
  {
    if cmds != [] {
      var init := cmds[..|cmds| - 1];
      ApplyTerminal(s, init);
      assert forall i :: 0 <= i < |init| ==> init[i] == cmds[i];
      if exists i :: 0 <= i < |cmds| && IsHaltCommand(cmds[i]) {
        var i :| 0 <= i < |cmds| && IsHaltCommand(cmds[i]);
        if i < |init| {
          assert IsHaltCommand(init[i]);
        }
      }
    }
  }

  /** The loop of `input_monitor`: read one character per iteration and apply it,
      for as long as the state is neither Stopped nor Quit. `input` stands for the
      characters the terminal delivers; the loop also ends when they run out.
      Returns the final state and how many characters were read. */
  method InputMonitor(initial: PlayerState, input: seq<char>) returns (final: PlayerState, consumed: nat)
    ensures consumed <= |input|
    ensures final == Apply(initial, input[..consumed])
    ensures consumed < |input| ==> IsTerminal(final)
    ensures forall k :: 0 <= k < consumed ==> !IsTerminal(Apply(initial, input[..k]))
    ensures IsTerminal(final) <==>
            IsTerminal(initial) || exists i :: 0 <= i < |input| && IsHaltCommand(input[i])
  {
    final, consumed := initial, 0;
    while !IsTerminal(final) && consumed < |input|
      invariant consumed <= |input|
      invariant final == Apply(initial, input[..consumed])
      invariant forall k :: 0 <= k < consumed ==> !IsTerminal(Apply(initial, input[..k]))
    {
      assert input[..consumed + 1][..consumed] == input[..consumed];
      final := Transition(final, input[consumed]);
      consumed := consumed + 1;
    }
    ApplyTerminal(initial, input[..consumed]);
    assert forall i :: 0 <= i < consumed ==> input[..consumed][i] == input[i];
  }
}
