# sandvich: a verified model of the console mediator's core

sandvich sits between an operator's keyboard and a game server's console.
Its two self-contained components are modelled here:

- **`KeyHandler`**, the keystroke state machine. It has three modes: NORMAL,
  INPUT and COMMAND. It keeps a character buffer and a FIFO of completed
  commands. `update` adds the typed character to the buffer and then
  dispatches on the mode. `KeyInput.Feed` is the value-level step; the class
  `KeyInput.KeyHandler` updates its fields exactly as `Feed` says.
- **`Formatter`**, the output buffer. It classifies each message against
  a table of prioritised regex rules and drops the message when the
  verbosity filter rejects it. It word-wraps messages to the terminal
  width, evicts the oldest ones until the wrapped rows fit `height - 3`,
  and renders each wrapped line between its rule's style and the
  terminal's reset string.

There is also the small `Sandvich` glue. It marks the output region and the
command line dirty and drains those marks in order (`Session.Sandvich`).

Files: `key_handler.dfy` (module `KeyInput`), `word_wrap.dfy` (`WordWrap`:
split, join and the wrap), `rules.dfy` (`Rules`: the rule table and
classification), `formatter.dfy` (`Output`: the message buffer and the
`Formatter` class), `session.dfy` (`Session`), `wrappers.dfy` (`Option`).

Behaviour of the code that the model keeps, and places where the code does not run as written:

- The mode changes at sandvich.py:129, 135, 138 and 143 are written as
  comparisons (`==`). They are modelled as the assignments they are meant
  to be, with a comment at each one.
- A queued command includes its terminating `'\r'`. The character is added to
  the buffer (line 124) before the mode is looked at.
- The verbosity filter keeps a message whose rule's priority is `>=` the
  verbosity. Among matching rules, the highest priority wins.
- `text.split(' ')` of empty text is `['']`. That single empty word takes one
  row when the width is more than 2, and two rows otherwise
  (`WordWrap.EmptyTextRows`).
- In the COMMAND-mode branch, `command_complete` adds the character a second
  time and flushes the buffer. It returns that non-empty text, and
  `queue_command` then queues the now-empty buffer. So this branch queues `""`,
  as modelled. No one-character keystroke leads there, because no command
  characters are configured (`KeyInput.ReachableModes`). The empty read at end
  of input does lead there (`KeyInput.FeedEmptyRead`).
- `not rule` treats an empty alias as no rule, so such a message always
  passes the verbosity filter. This is modelled.
- When the terminal has fewer than 3 rows, the eviction loop of `append` empties
  the buffer and then pops from an empty list (IndexError). `Append` returns
  `ok == false` in that case.
- These are modelled as their evident intent:
  - `classify_message` is called with its argument (line 190).
  - `total_lines` is called (line 194).
  - `prority` is read as `priority` (line 206).
  - `format_message` takes the line list out of the `(count, lines)` pair (line 210).
  - The style prefix is looked up in the rule (line 214).
  - `isinstance(formats, string)` / `"self.t.%s"` (lines 182-185) become a
    list of the terminal's style strings, joined into one prefix.
  - `get_command_stub` (line 292) is read as `get_input_stub`.
  - `REDRAW_OUPUT` (line 259) is read as `REDRAW_OUTPUT`.
  - `map(format_message, self.messages)` (line 244) names an undefined
    global; `Render` calls `FormatMessage` on each message.
  - `for line in self.output` (line 303) iterates the `Formatter` object,
    which has no `__iter__`; `DrawFor` draws the list `Render` builds, which is
    what `__repr__` returns.
  - `while len(self.flags[]):` (line 299) is a syntax error; `Redraw` reads
    it as `len(self.flags)`.
  - `Formatter()` (line 254) omits the required `terminal` argument. The
    `Sandvich` constructor takes a ready-built handler and formatter instead.

The terminal width, height and reset string are parameters. The regex search
`re.compile(pattern).search(text)` is the function `Formatter.search`, given
at construction. Style strings are opaque.

## Model

| member | source | states |
|---|---|---|
| KeyInput.Feed | sandvich.py:119-152 | an unknown mode, and only an unknown mode, is an error; every other keystroke leaves a known mode; a one-character keystroke never moves NORMAL to COMMAND; queued commands stay queued and one keystroke queues at most one, which happens exactly for `'\r'` in INPUT or any key in COMMAND |
| KeyInput.FeedEmptyRead | sandvich.py:119-152 | on the empty read, an unknown mode alone is an error; the read queues at most one command and removes none |
| KeyInput.EmptyReadEntersCommandMode | sandvich.py:125-152 | an empty read moves a fresh handler to COMMAND_MODE; further empty reads leave it there; the next keystroke is lost and queues `""` |
| KeyInput.ReachableModes | sandvich.py:119-145 | from NORMAL or INPUT, any sequence of keystrokes is handled without error and ends in NORMAL or INPUT |
| KeyInput.InitialNeverInCommandMode | sandvich.py:66-76 | a freshly built handler never reaches COMMAND_MODE and never raises, whatever is typed |
| KeyInput.QueueOnlyGrows | sandvich.py:104-111 | typing never removes or reorders queued commands; only `read_command` takes them out |
| KeyInput.NormalAccumulates | sandvich.py:124-131 | in NORMAL mode, characters other than ':' are kept in the buffer |
| KeyInput.ColonStartsEmptyLine | sandvich.py:124-129 | ':' in NORMAL mode discards everything buffered before it and enters INPUT_MODE with an empty buffer |
| KeyInput.InputAccumulates | sandvich.py:132-138 | in INPUT_MODE every character other than '\r' and escape is buffered, and the input stub shows the whole buffer |
| KeyInput.TypedLineIsQueued | sandvich.py:124-135 | ':' + line + '\r' queues exactly one command, the line followed by '\r', and returns to NORMAL with an empty buffer |
| KeyInput.EscapedLineIsDiscarded | sandvich.py:124-138 | ':' + line + escape queues nothing and returns to NORMAL with an empty buffer |
| KeyInput.StubShowsTypedLine | sandvich.py:113-129 | while a line is being typed, the input stub is exactly what was typed since ':' |
| KeyInput.KeyHandler.constructor | sandvich.py:66-76 | a new handler is in NORMAL mode with an empty buffer and queue |
| KeyInput.KeyHandler.Read | sandvich.py:93-94 | the buffer is returned without being consumed |
| KeyInput.KeyHandler.Flush | sandvich.py:96-99 | returns the buffer and leaves it empty; mode and queue unchanged |
| KeyInput.KeyHandler.Append | sandvich.py:101-102 | the character is added at the end of the buffer |
| KeyInput.KeyHandler.QueueCommand | sandvich.py:104-105 | the buffer goes to the back of the queue and is emptied |
| KeyInput.KeyHandler.ReadCommand | sandvich.py:107-111 | None on an empty queue; otherwise removes and returns the oldest command (FIFO) |
| KeyInput.KeyHandler.GetInputStub | sandvich.py:113-117 | the buffer in INPUT_MODE, otherwise the empty string |
| KeyInput.KeyHandler.CommandComplete | sandvich.py:147-152 | the character is added a second time, and the whole buffer is returned and emptied |
| KeyInput.KeyHandler.Update | sandvich.py:119-145 | the new mode, buffer and queue are those of `Feed`; `ok` is false exactly where `ValueError` is raised |
| WordWrap.Split | sandvich.py:189 | `split(' ')` gives at least one word, and no word holds a space |
| WordWrap.JoinSplit | sandvich.py:189-198 | joining the split words with spaces gives the text back, so a message is classified on its original text |
| WordWrap.SplitJoin | sandvich.py:189-198 | splitting the joined words gives them back when none holds a space |
| WordWrap.EmptyTextRows | sandvich.py:189-234 | empty text is one empty word, taking one row when the width is more than 2 and two rows otherwise |
| WordWrap.WrapStep | sandvich.py:225-234 | a word that reaches `width` starts a new line and closes the current one unchanged; a word that fits is added after a space |
| WordWrap.Wrap | sandvich.py:221-235 | the count is at least 1, is 1 plus the number of closed lines, and is at most the number of words plus 1; the cursor column is one past the current line |
| WordWrap.WrapKeepsWords | sandvich.py:221-235 | the closed lines plus the unclosed last line, joined by spaces, are the words each after a space, with the leading space of the first line; nothing is lost but the last line |
| WordWrap.WrapLinesFit | sandvich.py:226-234 | every line built through the fit branch ends left of `width`; only a single overflowing word, or the initial empty line, can be longer |
| WordWrap.MessageToLines | sandvich.py:221-235 | the loop returns the wrap's count, and when asked its lines, which number count - 1; otherwise it returns no lines |
| Rules.Lookup | sandvich.py:191 | a key that is absent gives None (KeyError); otherwise the result is a stored rule with that alias |
| Rules.PutRule | sandvich.py:184-186 | the table grows by one exactly when the alias is new |
| Rules.PutRuleLookup | sandvich.py:184-186 | after the store the alias finds the new rule and every other alias finds what it found before |
| Rules.PutRuleOrder | sandvich.py:184-186 | an existing alias keeps its place in the iteration order; a new alias goes last |
| Rules.PutRuleUnique | sandvich.py:175-186 | the table keeps each alias once |
| Rules.Best | sandvich.py:197-207 | nothing is picked exactly when no rule with positive priority matches; otherwise the pick matches, has positive priority that no matching rule exceeds, and no earlier matching rule ties it |
| Rules.ClassifyPicksBestRule | sandvich.py:197-207 | the alias returned is None exactly when no positive-priority rule matches; otherwise it is the alias of the first matching rule of highest priority |
| Output.TotalLines | sandvich.py:237-240 | the total is at least one row per message |
| Output.Evict | sandvich.py:194-195 | only the oldest messages are dropped, the rest keep their order; what is left fits `height - 3`; no message is dropped that did not need to be; under 3 rows everything goes |
| Output.NewestSurvives | sandvich.py:188-195 | a message that fits the output region on its own is still there after its own append, as the newest entry |
| Output.KeepsClassified | sandvich.py:190-191 | a message is kept exactly when no rule matched, the matched alias is empty, or the matched rule's priority is at least the verbosity |
| Output.FormatMessage | sandvich.py:209-219 | as many lines as the wrap closed; each is the rule's style, the wrapped line, then `normal`; with no rule the lines come back unchanged |
| Output.UnstyleFormatted | sandvich.py:214-216 | removing the style prefix and `normal` from a formatted line gives the wrapped line back |
| Output.Render | sandvich.py:242-246 | the rendered lines number the total rows minus one per message |
| Output.Formatter.constructor | sandvich.py:172-176 | no messages, no rules, verbosity 3 |
| Output.Formatter.SetVerbosity | sandvich.py:178-179 | stores the verbosity and changes nothing else |
| Output.Formatter.AddRule | sandvich.py:181-186 | stores the rule under its alias by `PutRule`, keeping aliases unique |
| Output.Formatter.ClassifyMessage | sandvich.py:197-207 | the loop returns the classification of the joined words |
| Output.Formatter.Append | sandvich.py:188-195 | a suppressed message leaves the buffer unchanged; a kept one is added and then evicted as `Evict` says; it fails only on a terminal of fewer than 3 rows |
| Session.Sandvich.constructor | sandvich.py:250-260 | no pending redraws and an empty shown stub |
| Session.Sandvich.UpdateOutput | sandvich.py:282-287 | non-empty output is appended to the formatter as `Append` says, and marks the output region dirty unless the append raised IndexError (`ok` false, only for a kept message under 3 rows); empty output changes nothing; rules and verbosity stay |
| Session.Sandvich.UpdateCmdline | sandvich.py:289-295 | the shown stub becomes the handler's input stub, and the command line is marked dirty exactly when the stub changed |
| Session.Sandvich.Redraw | sandvich.py:297-307 | every pending request is served once, in FIFO order, and none is left |

## Left out

- Rules.PutRuleOrder: the table is modelled in insertion order, with a new alias last. The source runs on Python 2, whose dictionaries iterate in hash order. So when equally ranked matching rules tie, `Rules.Best`, `Rules.ClassifyPicksBestRule` and `Output.Formatter.ClassifyMessage` may pick a different alias than the source does. Hash order is not modelled because it depends on CPython's string hash and table size.
- KeyInput.Feed, KeyInput.KeyHandler.Update, KeyInput.ReachableModes, KeyInput.InitialNeverInCommandMode: these hold for one-character keystrokes only. `sys.stdin.read(1)` returns the empty string at end of input, and `'' in ''` (line 130) is true, so the source then moves from NORMAL to COMMAND_MODE. With an empty buffer it stays there. That case is `KeyInput.FeedEmptyRead`; `Update` takes one character, and the class has no method for the empty read.

- `KeyHandler.getch` (sandvich.py:80-91) is raw-mode terminal I/O. The character it would read is the parameter of `Update`.
- The `ch is not None` test (sandvich.py:125) always holds, because a character is always passed in.
- `KeyHandler.run` and `stop` (sandvich.py:154-168) run `update` on a thread with a stop flag; concurrency is not modelled. `FeedAll` is the sequential effect of that loop.
- `TF2Daemon` (sandvich.py:20-60) launches and talks to a child process and reads the clock; that is process I/O. Its argument loop (lines 27-34) cannot run.
- `Sandvich.run`, `update` and `teardown` (sandvich.py:262-280, 309-311) enter and leave full-screen mode and call the daemon. The printing and cursor movement in `redraw` is left out too: `Redraw` returns what each request would draw.
- The regex engine (`re.compile`/`search`, sandvich.py:184, 203) is the opaque `search` function of a `Formatter`. The terminal's style attributes (sandvich.py:185) are opaque strings.
- Text is a sequence of characters, and each character stands for one byte. The source is Python 2, where `str` is bytes and `len(word)` (line 226) counts bytes. A multi-byte character would take more columns in the source than in the model.
- Output.Formatter.AddRule: it always stores the rule. In the source, `re.compile` (line 184) raises `re.error` on a malformed pattern and leaves `self.rules` unchanged. Pattern syntax belongs to the regex engine, which is not modelled.
- `DEFAULT_ARGS` and the argument plumbing (sandvich.py:12-17) are left out.
- Keyword defaults: `add_rule`'s default priority of 5 is the constant `Output.DefaultPriority`. Callers pass it explicitly.
