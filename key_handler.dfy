/**
  The keystroke state machine of `KeyHandler` (sandvich.py:63-152).

  A character buffer and a FIFO of completed commands are driven one
  character at a time through three modes.  The blocking terminal read
  (`getch`) is replaced by the character passed to `Update`.
*/
module KeyInput {
  import opened Wrappers

  const NormalMode: int := 0
  const InputMode: int := 1
  const CommandMode: int := 2

  /** The single-shot command characters: none are configured. */
  const CommandChars: string := ""

  const Colon: char := ':'
  const Enter: char := '\r'
  const Escape: char := '\U{1B}'

  /** The modes the transition table knows; any other value is a logic fault. */
  predicate KnownMode(mode: int) {
    mode == NormalMode || mode == InputMode || mode == CommandMode
  }

  /** The fields that `update` reads and writes. */
  datatype KeyState = KeyState(mode: int, buf: string, queue: seq<string>)

  const Initial: KeyState := KeyState(NormalMode, "", [])

  /** The result of one keystroke: the next state, or the `ValueError` raised
      for an unknown mode together with the state it leaves behind. */
  datatype Outcome = Handled(next: KeyState) | InvalidMode(next: KeyState)

  /** What the command line shows: the buffer while a line is being typed. */
  function InputStub(s: KeyState): string {
    if s.mode == InputMode then s.buf else ""
  }

  /** One call of `update` with the character `ch`.  The character is appended
      to the buffer before the mode is consulted, so it is part of whatever
      the transition does with the buffer. */
  function Feed(s: KeyState, ch: char): (r: Outcome)
    ensures r.InvalidMode? <==> !KnownMode(s.mode)
    ensures r.Handled? ==> KnownMode(r.next.mode)
    ensures s.mode == NormalMode ==> r.next.mode != CommandMode
    // no keystroke removes a queued command or queues more than one
    ensures s.queue <= r.next.queue && |r.next.queue| <= |s.queue| + 1
    ensures |r.next.queue| == |s.queue| + 1 <==>
              (s.mode == InputMode && ch == Enter) || s.mode == CommandMode
  {
    var buf := s.buf + [ch];
    if s.mode == NormalMode then
      if ch == Colon then
        // flush, then switch to INPUT_MODE (written `==` in the source)
        Handled(KeyState(InputMode, "", s.queue))
      else if ch in CommandChars then
        Handled(KeyState(CommandMode, buf, s.queue))
      else
        Handled(s.(buf := buf))
    else if s.mode == InputMode then
      if ch == Enter then
        // queue_command, then back to NORMAL_MODE (written `==` in the source)
        Handled(KeyState(NormalMode, "", s.queue + [buf]))
      else if ch == Escape then
        // flush, then back to NORMAL_MODE (written `==` in the source)
        Handled(KeyState(NormalMode, "", s.queue))
      else
        Handled(s.(buf := buf))
    else if s.mode == CommandMode then
      // command_complete appends `ch` once more and flushes; the flushed
      // text is never empty, so queue_command then queues the emptied buffer
      var command := buf + [ch];
      if command != "" then
        // queue_command, then back to NORMAL_MODE (written `==` in the source)
        Handled(KeyState(NormalMode, "", s.queue + [""]))
      else
        Handled(KeyState(CommandMode, command, s.queue))
    else
      InvalidMode(s.(buf := buf))
  }

  /** One call of `update` when `getch` returns the empty string, as
      `sys.stdin.read(1)` does at end of input.  Appending it changes nothing,
      but the empty string is contained in every string, so it counts as a
      command character. */
  function FeedEmptyRead(s: KeyState): (r: Outcome)
    ensures r.InvalidMode? <==> !KnownMode(s.mode)
    ensures s.queue <= r.next.queue && |r.next.queue| <= |s.queue| + 1
  {
    if s.mode == NormalMode then
      // `'' in COMMAND_CHARS` holds although no command character is configured
      Handled(s.(mode := CommandMode))
    else if s.mode == InputMode then
      Handled(s)
    else if s.mode == CommandMode then
      // command_complete('') returns the buffer only when it is non-empty
      if s.buf != "" then Handled(KeyState(NormalMode, "", s.queue + [""]))
      else Handled(s)
    else
      InvalidMode(s)
  }

  /** At end of input a fresh handler enters COMMAND_MODE and stays there on
      every further empty read; the next real keystroke is then lost, and an
      empty command is queued in its place. */
  lemma EmptyReadEntersCommandMode(c: char)
    ensures FeedEmptyRead(Initial) == Handled(KeyState(CommandMode, "", []))
    ensures FeedEmptyRead(KeyState(CommandMode, "", [])) == Handled(KeyState(CommandMode, "", []))
    ensures Feed(KeyState(CommandMode, "", []), c) == Handled(KeyState(NormalMode, "", [""]))
  {
  }

  /** `update` called once per character of `cs`; the first `ValueError`
      ends the run, as it ends the update loop. */
  function FeedAll(s: KeyState, cs: string): (r: Outcome)
    decreases |cs|
  {
    if cs == [] then Handled(s)
    else
      match Feed(s, cs[0])
      case Handled(n) => FeedAll(n, cs[1..])
      case InvalidMode(n) => InvalidMode(n)
  }

  /** Feeding `a + b` is feeding `a`, then `b` from where `a` left off. */
  lemma {:induction false} FeedAllConcat(s: KeyState, a: string, b: string)
    ensures FeedAll(s, a + b) ==
              match FeedAll(s, a)
              case Handled(n) => FeedAll(n, b)
              case InvalidMode(n) => InvalidMode(n)
    decreases |a|
  {
    if a == [] {
      assert a + b == b;
    } else {
      assert (a + b)[0] == a[0];
      assert (a + b)[1..] == a[1..] + b;
      match Feed(s, a[0])
      case Handled(n) => FeedAllConcat(n, a[1..], b);
      case InvalidMode(n) =>
    }
  }

  /** From NORMAL or INPUT mode every keystroke is handled and the mode stays
      NORMAL or INPUT: COMMAND_MODE and the `ValueError` are unreachable. */
  lemma {:induction false} ReachableModes(s: KeyState, cs: string)
    requires s.mode == NormalMode || s.mode == InputMode
    ensures FeedAll(s, cs).Handled?
    ensures FeedAll(s, cs).next.mode == NormalMode || FeedAll(s, cs).next.mode == InputMode
    decreases |cs|
  {
    if cs != [] {
      ReachableModes(Feed(s, cs[0]).next, cs[1..]);
    }
  }

  /** The handler as constructed never enters COMMAND_MODE and never raises. */
  lemma InitialNeverInCommandMode(cs: string)
    ensures FeedAll(Initial, cs).Handled?
    ensures FeedAll(Initial, cs).next.mode != CommandMode
  {
    ReachableModes(Initial, cs);
  }

  /** Commands already queued stay queued, in order, whatever is typed. */
  lemma {:induction false} QueueOnlyGrows(s: KeyState, cs: string)
    ensures s.queue <= FeedAll(s, cs).next.queue
    decreases |cs|
  {
    if cs != [] {
      match Feed(s, cs[0])
      case Handled(n) => QueueOnlyGrows(n, cs[1..]);
      case InvalidMode(n) =>
    }
  }

  /** In NORMAL mode characters other than ':' pile up in the buffer. */
  lemma {:induction false} NormalAccumulates(s: KeyState, w: string)
    requires s.mode == NormalMode && Colon !in w
    ensures FeedAll(s, w) == Handled(s.(buf := s.buf + w))
    decreases |w|
  {
    if w == [] {
      assert s.buf + w == s.buf;
    } else {
      assert w[0] != Colon && Colon !in w[1..];
      NormalAccumulates(s.(buf := s.buf + [w[0]]), w[1..]);
      assert s.buf + [w[0]] + w[1..] == s.buf + w;
    }
  }

  /** ':' in NORMAL mode discards everything typed in NORMAL mode before it
      and starts an empty line in INPUT_MODE. */
  lemma ColonStartsEmptyLine(s: KeyState, w: string)
    requires s.mode == NormalMode && Colon !in w
    ensures FeedAll(s, w + [Colon]) == Handled(KeyState(InputMode, "", s.queue))
  {
    FeedAllConcat(s, w, [Colon]);
    NormalAccumulates(s, w);
  }

  /** In INPUT_MODE every character other than '\r' and escape is buffered,
      and the command line shows the whole buffer. */
  lemma {:induction false} InputAccumulates(s: KeyState, w: string)
    requires s.mode == InputMode && Enter !in w && Escape !in w
    ensures FeedAll(s, w) == Handled(s.(buf := s.buf + w))
    ensures InputStub(FeedAll(s, w).next) == s.buf + w
    decreases |w|
  {
    if w == [] {
      assert s.buf + w == s.buf;
    } else {
      assert Enter !in w[1..] && Escape !in w[1..];
      InputAccumulates(s.(buf := s.buf + [w[0]]), w[1..]);
      assert s.buf + [w[0]] + w[1..] == s.buf + w;
    }
  }

  /** ':' then a line `w` then '\r' queues exactly one command, `w` followed by
      the '\r' itself, and returns to NORMAL mode with an empty buffer. */
  lemma TypedLineIsQueued(s: KeyState, w: string)
    requires s.mode == NormalMode && Enter !in w && Escape !in w
    ensures FeedAll(s, [Colon] + w + [Enter]) ==
              Handled(KeyState(NormalMode, "", s.queue + [w + [Enter]]))
  {
    var line := KeyState(InputMode, "", s.queue);
    assert Feed(s, Colon) == Handled(line);
    assert ([Colon] + w + [Enter])[1..] == w + [Enter];
    FeedAllConcat(line, w, [Enter]);
    InputAccumulates(line, w);
    assert line.buf + w == w;
  }

  /** ':' then a line `w` then escape queues nothing and returns to NORMAL
      mode with an empty buffer. */
  lemma EscapedLineIsDiscarded(s: KeyState, w: string)
    requires s.mode == NormalMode && Enter !in w && Escape !in w
    ensures FeedAll(s, [Colon] + w + [Escape]) ==
              Handled(KeyState(NormalMode, "", s.queue))
  {
    var line := KeyState(InputMode, "", s.queue);
    assert Feed(s, Colon) == Handled(line);
    assert ([Colon] + w + [Escape])[1..] == w + [Escape];
    FeedAllConcat(line, w, [Escape]);
    InputAccumulates(line, w);
  }

  /** While a line is being typed the command line shows exactly what was
      typed since the ':'. */
  lemma StubShowsTypedLine(s: KeyState, w: string)
    requires s.mode == NormalMode && Enter !in w && Escape !in w
    ensures FeedAll(s, [Colon] + w).Handled?
    ensures InputStub(FeedAll(s, [Colon] + w).next) == w
  {
    var line := KeyState(InputMode, "", s.queue);
    assert Feed(s, Colon) == Handled(line);
    assert ([Colon] + w)[1..] == w;
    InputAccumulates(line, w);
    assert line.buf + w == w;
  }

  class KeyHandler {
    var mode: int
    var buf: string
    var commandQueue: seq<string>

    /** The abstract value of the handler. */
    function State(): KeyState
      reads this
    {
      KeyState(mode, buf, commandQueue)
    }

    constructor ()
      ensures State() == Initial
    {
      mode := NormalMode;
      buf := "";
      commandQueue := [];
    }

    /** The buffer, left in place. */
    function Read(): (r: string)
      reads this
      ensures r == State().buf
    {
      buf
    }

    /** Returns the buffer and leaves it empty. */
    method Flush() returns (temp: string)
      modifies this
      ensures temp == old(buf) && buf == ""
      ensures mode == old(mode) && commandQueue == old(commandQueue)
    {
      temp := buf;
      buf := "";
    }

    method Append(ch: char)
      modifies this
      ensures buf == old(buf) + [ch]
      ensures mode == old(mode) && commandQueue == old(commandQueue)
    {
      buf := buf + [ch];
    }

    /** Moves the buffer to the back of the command queue. */
    method QueueCommand()
      modifies this
      ensures commandQueue == old(commandQueue) + [old(buf)] && buf == ""
      ensures mode == old(mode)
    {
      var command := Flush();
      commandQueue := commandQueue + [command];
    }

    /** Removes and returns the oldest queued command, or None when the queue
        is empty. */
    method ReadCommand() returns (command: Option<string>)
      modifies this
      ensures old(commandQueue) == [] ==> command == None && commandQueue == []
      ensures old(commandQueue) != [] ==>
                command == Some(old(commandQueue)[0]) && commandQueue == old(commandQueue)[1..]
      ensures mode == old(mode) && buf == old(buf)
    {
      if |commandQueue| > 0 {
        command := Some(commandQueue[0]);
        commandQueue := commandQueue[1..];
      } else {
        command := None;
      }
    }

    /** The line being typed, shown on the command line. */
    function GetInputStub(): (r: string)
      reads this
      ensures r == InputStub(State())
    {
      if mode == InputMode then Read() else ""
    }

    /** Appends `ch` a second time and returns the flushed buffer when it is
        non-empty, which it always is. */
    method CommandComplete(ch: char) returns (command: string)
      modifies this
      ensures command == old(buf) + [ch] && buf == ""
      ensures mode == old(mode) && commandQueue == old(commandQueue)
    {
      Append(ch);
      if Read() != "" {
        command := Flush();
      } else {
        command := "";
      }
    }

    /** Handles one typed character; `ok` is false where the source raises
        `ValueError` for an unknown mode. */
    method Update(ch: char) returns (ok: bool)
      modifies this
      ensures State() == Feed(old(State()), ch).next
      ensures ok == Feed(old(State()), ch).Handled?
    {
      Append(ch);
      ok := true;
      if mode == NormalMode {
        if ch == Colon {
          var _ := Flush();
          mode := InputMode;  // `==` in the source; an assignment is meant
        } else {
          // `elif ch in COMMAND_CHARS`; with no command characters the mode never changes here
          mode := if ch in CommandChars then CommandMode else mode;
        }
      } else if mode == InputMode {
        if ch == Enter {
          QueueCommand();
          mode := NormalMode;  // `==` in the source; an assignment is meant
        } else if ch == Escape {
          var _ := Flush();
          mode := NormalMode;  // `==` in the source; an assignment is meant
        }
      } else if mode == CommandMode {
        var command := CommandComplete(ch);
        if command != "" {
          QueueCommand();
          mode := NormalMode;  // `==` in the source; an assignment is meant
        }
      } else {
        ok := false;
      }
    }
  }
}
