/**
  Splitting text into words and the greedy word-wrap of
  `Formatter.message_to_lines` (sandvich.py:189, 198, 221-235).
*/
module WordWrap {

  /** `text.split(' ')`: the pieces between single spaces, empty pieces
      included, so there is always at least one. */
  function Split(text: string): (words: seq<string>)
    ensures |words| >= 1
    ensures forall i :: 0 <= i < |words| ==> ' ' !in words[i]
  {
    if text == [] then [""]
    else
      var rest := Split(text[1..]);
      if text[0] == ' ' then [""] + rest
      else [[text[0]] + rest[0]] + rest[1..]
  }

  /** `' '.join(words)`. */
  function Join(words: seq<string>): string
  {
    if |words| == 0 then ""
    else if |words| == 1 then words[0]
    else words[0] + " " + Join(words[1..])
  }

  /** Joining the split text gives the text back. */
  lemma {:induction false} JoinSplit(text: string)
    ensures Join(Split(text)) == text
  {
    if text != [] {
      JoinSplit(text[1..]);
      var rest := Split(text[1..]);
      if text[0] == ' ' {
        assert ([""] + rest)[1..] == rest;
      } else {
        var head := [text[0]] + rest[0];
        if |rest| == 1 {
          assert [head] + rest[1..] == [head];
        } else {
          assert ([head] + rest[1..])[1..] == rest[1..];
          assert Join(rest) == rest[0] + " " + Join(rest[1..]);
        }
        assert text == [text[0]] + text[1..];
      }
    }
  }

  lemma SplitSpace(text: string)
    ensures Split([' '] + text) == [""] + Split(text)
  {
  }

  /** A word without spaces glues onto the first piece of what follows it. */
  lemma {:induction false} SplitWord(word: string, text: string)
    requires ' ' !in word
    ensures Split(word + text) == [word + Split(text)[0]] + Split(text)[1..]
    decreases |word|
  {
    if word != [] {
      SplitWord(word[1..], text);
      assert (word + text)[0] == word[0];
      assert (word + text)[1..] == word[1..] + text;
      var rest := Split(word[1..] + text);
      assert rest[0] == word[1..] + Split(text)[0];
      assert [word[0]] + rest[0] == word + Split(text)[0];
    } else {
      assert word + text == text;
      assert word + Split(text)[0] == Split(text)[0];
      assert Split(text) == [Split(text)[0]] + Split(text)[1..];
    }
  }

  /** Splitting joined words gives the words back, when none holds a space. */
  lemma {:induction false} SplitJoin(words: seq<string>)
    requires |words| >= 1
    requires forall i :: 0 <= i < |words| ==> ' ' !in words[i]
    ensures Split(Join(words)) == words
    decreases |words|
  {
    if |words| == 1 {
      SplitWord(words[0], "");
      assert words[0] + "" == words[0];
    } else {
      var rest := words[1..];
      SplitJoin(rest);
      assert Join(words) == words[0] + ([' '] + Join(rest));
      SplitWord(words[0], [' '] + Join(rest));
      SplitSpace(Join(rest));
      assert words[0] + "" == words[0];
      assert words == [words[0]] + rest;
    }
  }

  /** The cursor and the lines of `message_to_lines`: `col` and `row` are
      the cursor, `current` the line being built and `lines` those closed. */
  datatype WrapState = WrapState(col: int, row: int, current: string, lines: seq<string>)

  const WrapStart: WrapState := WrapState(1, 1, "", [])

  /** One word of the loop: it fits when the cursor, moved past the word and
      a space, stays left of `width`; otherwise it starts a new line. */
  function WrapStep(st: WrapState, word: string, width: int): (r: WrapState)
    ensures r.row == st.row + 1 <==> st.col + |word| + 1 >= width
    ensures r.row == st.row || r.row == st.row + 1
    // an overflowing word starts the next line, closing the current one as it was
    ensures r.row == st.row + 1 ==> r.current == word && r.lines == st.lines + [st.current]
    // a word that fits is added to the current line after a space
    ensures r.row == st.row ==> r.current == st.current + " " + word && r.lines == st.lines
  {
    var col := st.col + |word| + 1;
    if col < width then
      assert [st.current, word][1..] == [word] && Join([word]) == word;
      st.(col := col, current := Join([st.current, word]))
    else
      WrapState(|word| + 1, st.row + 1, word, st.lines + [st.current])
  }

  /** The state after the loop has seen every word of `words`. */
  function Wrap(words: seq<string>, width: int): (r: WrapState)
    // the count is 1 plus the number of overflows, each of which closed a line
    ensures r.row >= 1 && r.row == |r.lines| + 1
    ensures r.row <= |words| + 1
    // the cursor column is just right of the line being built
    ensures r.col == |r.current| + 1
    decreases |words|
  {
    if words == [] then WrapStart
    else WrapStep(Wrap(words[..|words| - 1], width), words[|words| - 1], width)
  }

  /** Empty text splits into one empty word, which fits on the first row
      only when the width is more than 2. */
  lemma EmptyTextRows(width: int)
    ensures Split("") == [""]
    ensures LineCount(Split(""), width) == if width > 2 then 1 else 2
  {
    assert [""][..0] == [];
  }

  /** The rows a message occupies: the count `message_to_lines` returns. */
  function LineCount(words: seq<string>, width: int): int {
    Wrap(words, width).row
  }

  /** The lines `message_to_lines` returns; the last line is never closed
      and so never among them. */
  function WrappedLines(words: seq<string>, width: int): seq<string> {
    Wrap(words, width).lines
  }

  /** Each word preceded by a space: what repeated `' '.join([line, word])`
      produces when all words go on one line that starts empty. */
  function Spaced(words: seq<string>): string
    decreases |words|
  {
    if words == [] then "" else Spaced(words[..|words| - 1]) + " " + words[|words| - 1]
  }

  lemma {:induction false} JoinSnoc(xs: seq<string>, y: string)
    requires |xs| >= 1
    ensures Join(xs + [y]) == Join(xs) + " " + y
    decreases |xs|
  {
    if |xs| == 1 {
      assert (xs + [y])[1..] == [y];
    } else {
      JoinSnoc(xs[1..], y);
      assert (xs + [y])[1..] == xs[1..] + [y];
    }
  }

  /** No word is lost or reordered: the closed lines and the line being built,
      joined by spaces, are exactly the words, each after a space. */
  lemma {:induction false} WrapKeepsWords(words: seq<string>, width: int)
    ensures Join(Wrap(words, width).lines + [Wrap(words, width).current]) == Spaced(words)
    decreases |words|
  {
    if words != [] {
      var init := words[..|words| - 1];
      var w := words[|words| - 1];
      var st := Wrap(init, width);
      WrapKeepsWords(init, width);
      var r := WrapStep(st, w, width);
      if r.row == st.row {
        if st.lines == [] {
          assert st.lines + [r.current] == [st.current + " " + w];
          assert st.lines + [st.current] == [st.current];
        } else {
          JoinSnoc(st.lines, st.current);
          JoinSnoc(st.lines, r.current);
        }
      } else {
        assert r.lines + [r.current] == (st.lines + [st.current]) + [w];
        JoinSnoc(st.lines + [st.current], w);
      }
    }
  }

  /** A line is short enough, in the sense the loop checks, unless it is a
      single word that did not fit, or the empty line the wrap starts with. */
  predicate LineFits(line: string, words: seq<string>, width: int) {
    |line| + 1 < width || line == "" || line in words
  }

  /** Every line built by adding words to it ends left of `width`: the only
      lines that reach it are single overflowing words. */
  lemma {:induction false} WrapLinesFit(words: seq<string>, width: int)
    ensures forall i :: 0 <= i < |Wrap(words, width).lines| ==>
              LineFits(Wrap(words, width).lines[i], words, width)
    ensures LineFits(Wrap(words, width).current, words, width)
    decreases |words|
  {
    if words != [] {
      var init := words[..|words| - 1];
      var w := words[|words| - 1];
      WrapLinesFit(init, width);
      var st := Wrap(init, width);
      forall line | line in init ensures line in words {
        var k :| 0 <= k < |init| && init[k] == line;
        assert words[k] == line;
      }
      forall i | 0 <= i < |st.lines| ensures LineFits(st.lines[i], words, width) {
        assert LineFits(st.lines[i], init, width);
      }
    }
  }

  /** `message_to_lines(message, return_lines)` with the terminal width as a
      parameter: the row count always, the closed lines only when asked. */
  method MessageToLines(message: seq<string>, width: int, returnLines: bool)
    returns (count: int, lines: seq<string>)
    ensures count == LineCount(message, width) && count >= 1
    ensures lines == if returnLines then WrappedLines(message, width) else []
    ensures returnLines ==> |lines| == count - 1
  {
    lines := [];
    var current := "";
    var col, row := 1, 1;
    for i := 0 to |message|
      invariant col == Wrap(message[..i], width).col
      invariant row == Wrap(message[..i], width).row
      invariant returnLines ==> current == Wrap(message[..i], width).current
      invariant returnLines ==> lines == Wrap(message[..i], width).lines
      invariant !returnLines ==> lines == []
    {
      assert message[..i + 1][..i] == message[..i];
      var word := message[i];
      col := col + |word| + 1;
      if col < width {
        if returnLines {
          current := Join([current, word]);
        }
      } else {
        if returnLines {
          lines := lines + [current];
          current := word;
        }
        col, row := |word| + 1, row + 1;
      }
    }
    assert message[..|message|] == message;
    count := row;
  }
}
