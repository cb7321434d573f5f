/**
  The rule table of `Formatter` and the classification of a message against
  it (sandvich.py:175, 181-186, 197-207).

  The table is a dictionary keyed by alias; it is modelled as a sequence of
  its rules in which a new alias goes last and a replaced one keeps its place.
  This is insertion order.  The source runs on Python 2, whose dictionaries
  iterate in hash order instead; the two orders can differ, and with them
  which of two equally ranked matching rules the classification picks.
  Compiling and searching a regular
  expression belong to the regex engine: `Search(pattern, text)` stands for
  `re.compile(pattern).search(text)` finding a match.
*/
module Rules {
  import opened Wrappers

  type Search = (string, string) -> bool

  /** One entry of the table; `format` is the terminal style prefix. */
  datatype Rule = Rule(alias: string, pattern: string, format: string, priority: int)

  /** `''.join(parts)`. */
  function Concat(parts: seq<string>): string
    decreases |parts|
  {
    if parts == [] then "" else parts[0] + Concat(parts[1..])
  }

  /** The entry `add_rule` stores: the style strings joined into one prefix. */
  function MakeRule(alias: string, pattern: string, formats: seq<string>, priority: int): Rule {
    Rule(alias, pattern, Concat(formats), priority)
  }

  /** The keys of the table, in iteration order. */
  function Aliases(rules: seq<Rule>): (r: seq<string>)
    ensures |r| == |rules|
    ensures forall i :: 0 <= i < |rules| ==> r[i] == rules[i].alias
    decreases |rules|
  {
    if rules == [] then [] else [rules[0].alias] + Aliases(rules[1..])
  }

  /** A dictionary holds each key once. */
  predicate UniqueAliases(rules: seq<Rule>) {
    forall i, j :: 0 <= i < j < |rules| ==> rules[i].alias != rules[j].alias
  }

  /** `self.rules[alias]`, None where the source raises `KeyError`. */
  function Lookup(rules: seq<Rule>, alias: string): (r: Option<Rule>)
    ensures r.None? <==> alias !in Aliases(rules)
    ensures r.Some? ==> r.value.alias == alias && r.value in rules
    decreases |rules|
  {
    if rules == [] then None
    else if rules[0].alias == alias then Some(rules[0])
    else Lookup(rules[1..], alias)
  }

  /** With unique keys, the lookup of a rule's alias finds that rule. */
  lemma LookupFindsRule(rules: seq<Rule>, i: nat)
    requires UniqueAliases(rules) && i < |rules|
    ensures Lookup(rules, rules[i].alias) == Some(rules[i])
  {
  }

  /** `self.rules[rule.alias] = rule`: an existing key keeps its place and
      takes the new value, a new key goes last. */
  function PutRule(rules: seq<Rule>, rule: Rule): (r: seq<Rule>)
    ensures |r| == if rule.alias in Aliases(rules) then |rules| else |rules| + 1
    decreases |rules|
  {
    if rules == [] then [rule]
    else if rules[0].alias == rule.alias then [rule] + rules[1..]
    else [rules[0]] + PutRule(rules[1..], rule)
  }

  /** After the store the key finds the new rule and every other key finds
      what it found before. */
  lemma {:induction false} PutRuleLookup(rules: seq<Rule>, rule: Rule, a: string)
    ensures Lookup(PutRule(rules, rule), rule.alias) == Some(rule)
    ensures a != rule.alias ==> Lookup(PutRule(rules, rule), a) == Lookup(rules, a)
    decreases |rules|
  {
    if rules != [] {
      var r := PutRule(rules, rule);
      if rules[0].alias == rule.alias {
        assert r[1..] == rules[1..];
      } else {
        PutRuleLookup(rules[1..], rule, a);
        assert r[1..] == PutRule(rules[1..], rule);
      }
    }
  }

  /** The store keeps the iteration order of the keys, appending a new key. */
  lemma {:induction false} PutRuleOrder(rules: seq<Rule>, rule: Rule)
    ensures Aliases(PutRule(rules, rule)) ==
              if rule.alias in Aliases(rules) then Aliases(rules) else Aliases(rules) + [rule.alias]
    decreases |rules|
  {
    if rules != [] {
      var r := PutRule(rules, rule);
      var rest := Aliases(rules[1..]);
      assert Aliases(rules) == [rules[0].alias] + rest;
      if rules[0].alias == rule.alias {
        assert r[1..] == rules[1..];
      } else {
        PutRuleOrder(rules[1..], rule);
        assert r[1..] == PutRule(rules[1..], rule);
        assert rule.alias in Aliases(rules) <==> rule.alias in rest;
        if rule.alias !in rest {
          assert [rules[0].alias] + (rest + [rule.alias]) == ([rules[0].alias] + rest) + [rule.alias];
        }
      }
    }
  }

  /** The store keeps each key once. */
  lemma PutRuleUnique(rules: seq<Rule>, rule: Rule)
    requires UniqueAliases(rules)
    ensures UniqueAliases(PutRule(rules, rule))
  {
    PutRuleOrder(rules, rule);
    var r := PutRule(rules, rule);
    var before, after := Aliases(rules), Aliases(r);
    forall i, j | 0 <= i < j < |r| ensures r[i].alias != r[j].alias {
      assert after[i] == r[i].alias && after[j] == r[j].alias;
      if j < |rules| {
        assert before[i] == rules[i].alias && before[j] == rules[j].alias;
      } else {
        assert after[j] == rule.alias && rule.alias !in before;
        assert after[i] == before[i];
      }
    }
  }

  /** The loop state of `classify_message`: the priority to beat and the
      position of the rule matched so far. */
  datatype Pick = Pick(priority: int, index: Option<nat>)

  /** Scans `rules` in order; a rule replaces the current pick when its
      priority is strictly higher and its pattern is found in `text`. */
  function Best(rules: seq<Rule>, text: string, search: Search): (p: Pick)
    ensures p.priority >= 0
    // no matching rule has a higher priority than the pick
    ensures forall i :: 0 <= i < |rules| && search(rules[i].pattern, text) ==>
              rules[i].priority <= p.priority
    ensures p.index.None? ==> p.priority == 0
    // the pick matches, has a positive priority, and no earlier rule ties it
    ensures p.index.Some? ==>
              && p.index.value < |rules|
              && search(rules[p.index.value].pattern, text)
              && rules[p.index.value].priority == p.priority > 0
              && forall i :: 0 <= i < p.index.value && search(rules[i].pattern, text) ==>
                   rules[i].priority < p.priority
    // nothing is picked exactly when no rule of positive priority matches
    ensures p.index.None? <==>
              forall i :: 0 <= i < |rules| && search(rules[i].pattern, text) ==> rules[i].priority <= 0
    decreases |rules|
  {
    if rules == [] then Pick(0, None)
    else
      var p := Best(rules[..|rules| - 1], text, search);
      var last := rules[|rules| - 1];
      if last.priority > p.priority && search(last.pattern, text) then
        Pick(last.priority, Some(|rules| - 1))
      else p
  }

  /** The alias `classify_message` returns for `text`. */
  function Classify(rules: seq<Rule>, text: string, search: Search): Option<string> {
    match Best(rules, text, search).index
    case None => None
    case Some(k) => Some(rules[k].alias)
  }

  /** The classification is either nothing, exactly when no rule of positive
      priority matches, or the key of a matching rule of highest priority,
      the first such in iteration order. */
  lemma ClassifyPicksBestRule(rules: seq<Rule>, text: string, search: Search)
    ensures Classify(rules, text, search).None? <==>
              forall i :: 0 <= i < |rules| && search(rules[i].pattern, text) ==> rules[i].priority <= 0
    ensures Classify(rules, text, search).Some? ==>
              exists k :: && 0 <= k < |rules|
                          && Classify(rules, text, search).value == rules[k].alias
                          && search(rules[k].pattern, text) && rules[k].priority > 0
                          && (forall i :: 0 <= i < |rules| && search(rules[i].pattern, text) ==>
                                rules[i].priority <= rules[k].priority)
                          && (forall i :: 0 <= i < k && search(rules[i].pattern, text) ==>
                                rules[i].priority < rules[k].priority)
  {
  }
}
