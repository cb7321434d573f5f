/**
  The glue of `Sandvich` (sandvich.py:249-300): it marks regions of the
  screen dirty when the server's output or the line being typed changes,
  and drains the marks in order, redrawing one region per mark.  The
  drawing itself is left to the terminal; `Redraw` returns what it would
  draw.
*/
module Session {
  import opened WordWrap
  import opened KeyInput
  import opened Output
  import Rules

  const CommandPrompt: string := ":^) --> "

  /** A pending redraw request. */
  datatype Flag = RedrawOutput | RedrawCmdline

  /** What one redraw request puts on the screen. */
  datatype Draw = DrawOutput(lines: seq<string>) | DrawCmdline(text: string)

  class Sandvich {
    var commandStub: string
    var flags: seq<Flag>
    const kh: KeyHandler
    const output: Formatter

    constructor (kh: KeyHandler, output: Formatter)
      ensures this.kh == kh && this.output == output
      ensures commandStub == "" && flags == []
    {
      this.kh := kh;
      this.output := output;
      commandStub := "";
      flags := [];
    }

    /** `update_output`: non-empty server output is appended to the
        formatter and the output region is marked dirty.  `ok` is false where
        the append raises IndexError, which leaves before the flag is added. */
    method UpdateOutput(text: string, width: int, height: int) returns (ok: bool)
      requires output.Valid()
      modifies this, output
      ensures output.Valid() && output.rules == old(output.rules)
      ensures output.verbosity == old(output.verbosity)
      ensures commandStub == old(commandStub)
      ensures text == "" ==> ok && flags == old(flags) && output.messages == old(output.messages)
      ensures text != "" ==>
                var m := Message(Split(text), Rules.Classify(old(output.rules), text, output.search));
                && ok == (!Keeps(old(output.rules), old(output.verbosity), m.rule) || height >= ReservedLines)
                && output.messages ==
                     (if Keeps(old(output.rules), old(output.verbosity), m.rule)
                      then Evict(old(output.messages) + [m], width, height)
                      else old(output.messages))
      ensures flags == old(flags) + (if text != "" && ok then [RedrawOutput] else [])
    {
      ok := true;
      if text != "" {
        ok := output.Append(text, width, height);
        if ok {
          flags := flags + [RedrawOutput];
        }
      }
    }

    /** `update_cmdline`: the command line is marked dirty exactly when the
        line being typed differs from the one last shown. */
    method UpdateCmdline()
      modifies this
      ensures commandStub == InputStub(kh.State())
      ensures flags == if InputStub(kh.State()) != old(commandStub) then old(flags) + [RedrawCmdline]
                       else old(flags)
    {
      var newStub := kh.GetInputStub();  // `get_command_stub` in the source
      if newStub != commandStub {
        commandStub := newStub;
        flags := flags + [RedrawCmdline];
      }
    }

    /** What redrawing one region shows now. */
    function DrawFor(flag: Flag, width: int, normal: string): Draw
      reads this`commandStub, output
    {
      match flag
      case RedrawOutput => DrawOutput(Render(output.rules, output.messages, width, normal))
      case RedrawCmdline => DrawCmdline(Join([CommandPrompt, commandStub]))
    }

    /** The flag loop of `redraw`: every pending request is served once, in
        the order it was made, and none is left. */
    method Redraw(width: int, normal: string) returns (drawn: seq<Draw>)
      modifies this
      ensures flags == [] && commandStub == old(commandStub)
      ensures |drawn| == |old(flags)|
      ensures forall i :: 0 <= i < |drawn| ==> drawn[i] == DrawFor(old(flags)[i], width, normal)
    {
      drawn := [];
      ghost var served := 0;
      while |flags| > 0
        invariant served == |drawn| <= |old(flags)|
        invariant old(flags) == old(flags)[..served] + flags
        invariant commandStub == old(commandStub)
        invariant forall i :: 0 <= i < |drawn| ==> drawn[i] == DrawFor(old(flags)[i], width, normal)
        decreases |flags|
      {
        var flag := flags[0];
        flags := flags[1..];
        assert old(flags)[served] == flag;
        drawn := drawn + [DrawFor(flag, width, normal)];
        served := served + 1;
        assert old(flags)[..served] == old(flags)[..served - 1] + [flag];
      }
    }
  }
}
