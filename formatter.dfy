/**
  The output buffer of `Formatter` (sandvich.py:171-246): messages are
  classified, filtered by verbosity, kept while their wrapped lines fit the
  terminal, and rendered with their rule's style.  The terminal's width,
  height and style-reset string (`t.width`, `t.height`, `t.normal`) are
  parameters.
*/
module Output {
  import opened Wrappers
  import opened WordWrap
  import opened Rules

  /** The lines under the output region: the command line and its border. */
  const ReservedLines: int := 3

  /** The priority `add_rule` gives a rule when none is passed. */
  const DefaultPriority: int := 5

  /** The verbosity a new formatter starts with. */
  const DefaultVerbosity: int := 3

  /** A kept message: its words and the alias of the rule it matched. */
  datatype Message = Message(words: seq<string>, rule: Option<string>)

  /** `total_lines`: the rows all messages take at `width`. */
  function TotalLines(messages: seq<Message>, width: int): (n: int)
    ensures n >= |messages|
    decreases |messages|
  {
    if messages == [] then 0
    else LineCount(messages[0].words, width) + TotalLines(messages[1..], width)
  }

  /** The eviction loop of `append`: drop the oldest message while the rows
      exceed `height - 3` and a message is left to drop. */
  function Evict(messages: seq<Message>, width: int, height: int): (r: seq<Message>)
    // only the oldest messages go; the others keep their order
    ensures |r| <= |messages| && r == messages[|messages| - |r|..]
    // what is left fits the output region
    ensures height >= ReservedLines ==> TotalLines(r, width) <= height - ReservedLines
    // nothing is dropped that was not needed: every longer suffix overflows
    ensures forall k :: 0 <= k < |messages| - |r| ==>
              TotalLines(messages[k..], width) > height - ReservedLines
    // a terminal too short for any row loses every message
    ensures height < ReservedLines ==> r == []
    decreases |messages|
  {
    if messages != [] && TotalLines(messages, width) > height - ReservedLines then
      var r := Evict(messages[1..], width, height);
      assert forall k :: 1 <= k < |messages| - |r| ==> messages[k..] == messages[1..][k - 1..];
      assert messages[1..][|messages| - 1 - |r|..] == messages[|messages| - |r|..];
      r
    else messages
  }

  /** A message that fits the output region on its own survives the
      eviction that follows its append, as the newest entry. */
  lemma NewestSurvives(messages: seq<Message>, m: Message, width: int, height: int)
    requires LineCount(m.words, width) <= height - ReservedLines
    ensures |Evict(messages + [m], width, height)| >= 1
    ensures Evict(messages + [m], width, height)[|Evict(messages + [m], width, height)| - 1] == m
  {
    var all := messages + [m];
    var r := Evict(all, width, height);
    // the suffix holding only the newest message fits, so eviction stops before it
    assert all[|messages|..] == [m];
    assert TotalLines(all[|messages|..], width) <= height - ReservedLines;
    assert r == all[|all| - |r|..];
  }

  /** The verbosity filter `not rule or priority >= verbosity`; an alias that
      is the empty string is falsy and passes like no rule at all. */
  function Keeps(rules: seq<Rule>, verbosity: int, rule: Option<string>): bool {
    match rule
    case None => true
    case Some(a) =>
      a == "" ||
      match Lookup(rules, a)
      case None => false
      case Some(r) => r.priority >= verbosity
  }

  /** A classified message is kept when nothing matched, when the matched
      rule's alias is empty, or when that rule's priority reaches the
      verbosity; otherwise it is suppressed. */
  lemma KeepsClassified(rules: seq<Rule>, verbosity: int, text: string, search: Search)
    requires UniqueAliases(rules)
    ensures var p := Best(rules, text, search);
            Keeps(rules, verbosity, Classify(rules, text, search)) <==>
              || p.index.None?
              || rules[p.index.value].alias == ""
              || rules[p.index.value].priority >= verbosity
  {
    var p := Best(rules, text, search);
    if p.index.Some? {
      LookupFindsRule(rules, p.index.value);
    }
  }

  /** The rule a message is displayed with: None where `self.rules[...]`
      raises `KeyError`, which is always the case for an unclassified one. */
  function RuleOf(rules: seq<Rule>, m: Message): Option<Rule> {
    match m.rule
    case None => None
    case Some(a) => Lookup(rules, a)
  }

  /** `format_message`: every wrapped line between the rule's style prefix
      and `normal`, or the wrapped lines as they are when there is no rule. */
  function FormatMessage(rules: seq<Rule>, m: Message, width: int, normal: string): (r: seq<string>)
    ensures |r| == |WrappedLines(m.words, width)| == LineCount(m.words, width) - 1
    ensures RuleOf(rules, m).None? ==> r == WrappedLines(m.words, width)
    ensures RuleOf(rules, m).Some? ==>
              forall i :: 0 <= i < |r| ==>
                r[i] == RuleOf(rules, m).value.format + WrappedLines(m.words, width)[i] + normal
  {
    var lines := WrappedLines(m.words, width);
    match RuleOf(rules, m)
    case None => lines
    // `''.join([format, line, normal])` for each line
    case Some(rule) => seq(|lines|, i requires 0 <= i < |lines| => rule.format + lines[i] + normal)
  }

  /** Taking the style prefix and `normal` off a formatted line gives back
      the wrapped line. */
  lemma UnstyleFormatted(rules: seq<Rule>, m: Message, width: int, normal: string, i: nat)
    requires RuleOf(rules, m).Some? && i < |FormatMessage(rules, m, width, normal)|
    ensures var f := RuleOf(rules, m).value.format;
            var line := FormatMessage(rules, m, width, normal)[i];
            |line| >= |f| + |normal| &&
            line[|f|..|line| - |normal|] == WrappedLines(m.words, width)[i]
  {
  }

  /** `__repr__`: the formatted lines of every message, oldest first. */
  function Render(rules: seq<Rule>, messages: seq<Message>, width: int, normal: string): (r: seq<string>)
    // each message shows one line fewer than it occupies: its last line is never closed
    ensures |r| == TotalLines(messages, width) - |messages|
    decreases |messages|
  {
    if messages == [] then []
    else FormatMessage(rules, messages[0], width, normal) + Render(rules, messages[1..], width, normal)
  }

  class Formatter {
    var messages: seq<Message>
    var rules: seq<Rule>
    var verbosity: int
    /** `re.compile(pattern).search(text)` found a match. */
    const search: Search

    ghost predicate Valid()
      reads this
    {
      UniqueAliases(rules)
    }

    constructor (search: Search)
      ensures Valid()
      ensures messages == [] && rules == [] && verbosity == DefaultVerbosity
      ensures this.search == search
    {
      messages := [];
      rules := [];
      verbosity := DefaultVerbosity;
      this.search := search;
    }

    method SetVerbosity(verbosity: int)
      modifies this
      ensures this.verbosity == verbosity
      ensures messages == old(messages) && rules == old(rules)
    {
      this.verbosity := verbosity;
    }

    /** Stores the rule under `alias`, replacing a rule of that alias. */
    method AddRule(alias: string, pattern: string, formats: seq<string>, priority: int)
      requires Valid()
      modifies this
      ensures Valid()
      ensures rules == PutRule(old(rules), MakeRule(alias, pattern, formats, priority))
      ensures messages == old(messages) && verbosity == old(verbosity)
    {
      PutRuleUnique(rules, MakeRule(alias, pattern, formats, priority));
      rules := PutRule(rules, MakeRule(alias, pattern, formats, priority));
    }

    /** `classify_message`: the loop over the rules in iteration order. */
    method ClassifyMessage(message: seq<string>) returns (rule: Option<string>)
      ensures rule == Classify(rules, Join(message), search)
    {
      var text := Join(message);
      var currentPriority := 0;
      rule := None;
      ghost var index: Option<nat> := None;
      for i := 0 to |rules|
        invariant Best(rules[..i], text, search) == Pick(currentPriority, index)
        invariant index.Some? ==> index.value < i
        invariant rule == if index.None? then None else Some(rules[index.value].alias)
      {
        assert rules[..i + 1][..i] == rules[..i];
        if rules[i].priority > currentPriority {
          if search(rules[i].pattern, text) {
            rule := Some(rules[i].alias);
            currentPriority := rules[i].priority;  // `prority` in the source
            index := Some(i);
          }
        }
      }
      assert rules[..|rules|] == rules;
    }

    /** `append`: classify, filter by verbosity, then evict the oldest
        messages until the rows fit `height - 3`.  `ok` is false where the
        source pops from an empty list, which happens when even no message
        at all overflows a terminal shorter than 3 rows. */
    method Append(text: string, width: int, height: int) returns (ok: bool)
      requires Valid()
      modifies this
      ensures Valid() && rules == old(rules) && verbosity == old(verbosity)
      ensures var m := Message(Split(text), Classify(rules, text, search));
              if Keeps(rules, verbosity, m.rule) then
                messages == Evict(old(messages) + [m], width, height) && ok == (height >= ReservedLines)
              else
                messages == old(messages) && ok
    {
      var message := Split(text);
      var rule := ClassifyMessage(message);  // the argument is missing in the source
      JoinSplit(text);
      ok := true;
      if Keeps(rules, verbosity, rule) {
        messages := messages + [Message(message, rule)];
        ghost var all := messages;
        // `self.total_lines` is meant to be called
        while TotalLines(messages, width) > height - ReservedLines
          invariant Evict(messages, width, height) == Evict(all, width, height)
          invariant rules == old(rules) && verbosity == old(verbosity)
          decreases |messages|
        {
          if messages == [] {
            // `self.messages.pop(0)` raises IndexError
            ok := false;
            return;
          }
          messages := messages[1..];
        }
      }
    }
  }
}
