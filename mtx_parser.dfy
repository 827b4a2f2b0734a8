/**
 * The Matrix Market line parser: a two-state machine that takes one text
 * line per call, collects `%` lines as the description, consumes the first
 * other line as the dimensions header and then turns each `row col [value]`
 * line into a node (row equals column) or a link.
 *
 * `Step` says what one call does to the parser's whole state and `Feed`
 * folds it over a sequence of lines; the class `LineParser` is the parser
 * object, whose `Parse` is proved to follow `Step`.
 */
module MtxParser {
  import opened Js
  import opened Graphs

  /** The parser's two states; the first is the initial one. */
  datatype State = WaitRowColumnsEntries | ReadData

  /**
   * The number `parseFloat(token)` yields. Floating point is not modelled:
   * the value stays symbolic and is named by the token it was read from.
   */
  datatype Float = ParsedFloat(token: string)

  function ParseFloat(token: string): Float
  {
    ParsedFloat(token)
  }

  type MtxGraph = GraphValue<Num, Float>

  /** Everything a parser holds: its graph, its description lines and its state. */
  datatype Session = Session(graph: MtxGraph, description: seq<string>, state: State)

  /** A new parser: empty graph, no description, waiting for the header. */
  function Initial(): Session
  {
    Session(Empty(), [], WaitRowColumnsEntries)
  }

  /**
   * `line.replace(/^\s+|\s+$/, '')`. Without the `g` flag only the first
   * match is removed: the leading white space when the line starts with
   * some, otherwise the trailing white space.
   */
  function StripOnce(line: string): string
  {
    if |line| > 0 && IsWhiteSpace(line[0]) then line[LeadingWhiteSpace(line)..]
    else line[..|line| - TrailingWhiteSpace(line)]
  }

  /**
   * What `StripOnce` removes: the whole leading run of white space when the
   * line starts with one, and otherwise the whole trailing run; nothing else.
   */
  lemma StripOnceRemovesOneRun(line: string)
    ensures var r := StripOnce(line);
      && |r| <= |line|
      && (|line| > 0 && IsWhiteSpace(line[0]) ==>
        && r == line[|line| - |r|..]
        && (forall i :: 0 <= i < |line| - |r| ==> IsWhiteSpace(line[i]))
        && (|r| > 0 ==> !IsWhiteSpace(r[0])))
      && (!(|line| > 0 && IsWhiteSpace(line[0])) ==>
        && r == line[..|r|]
        && (forall i :: |r| <= i < |line| ==> IsWhiteSpace(line[i]))
        && (|r| > 0 ==> !IsWhiteSpace(r[|r| - 1])))
  {
    LeadingWhiteSpaceAll(line);
    TrailingWhiteSpaceAll(line);
  }

  /**
   * `s.split(/\s+/)`: the pieces between maximal runs of white space. A
   * leading run gives an empty first piece, a trailing run an empty last
   * piece, and the empty string splits into `[""]`. Read from the front: a
   * non-space character joins the first piece, and a white-space character
   * opens a new empty first piece unless the run goes on after it.
   */
  function SplitOnRuns(s: string): (tokens: seq<string>)
    ensures |tokens| >= 1
  {
    if |s| == 0 then [""]
    else
      var rest := SplitOnRuns(s[1..]);
      if !IsWhiteSpace(s[0]) then [[s[0]] + rest[0]] + rest[1..]
      else if |s| > 1 && IsWhiteSpace(s[1]) then rest
      else [""] + rest
  }

  /** No piece holds white space. */
  lemma {:induction false} SplitOnRunsWords(s: string)
    ensures forall i :: 0 <= i < |SplitOnRuns(s)| ==> NoWhiteSpace(SplitOnRuns(s)[i])
  {
    if |s| > 0 {
      SplitOnRunsWords(s[1..]);
      var rest := SplitOnRuns(s[1..]);
      if !IsWhiteSpace(s[0]) {
        var first := [s[0]] + rest[0];
        assert NoWhiteSpace(first) by {
          forall i | 0 < i < |first|
            ensures !IsWhiteSpace(first[i])
          {
            assert first[i] == rest[0][i - 1];
          }
        }
        assert SplitOnRuns(s) == [first] + rest[1..];
      }
    }
  }

  /** The first piece is empty exactly when `s` is empty or starts with white space. */
  lemma {:induction false} SplitOnRunsFirst(s: string)
    ensures SplitOnRuns(s)[0] == "" <==> |s| == 0 || IsWhiteSpace(s[0])
  {
    if |s| > 1 && IsWhiteSpace(s[0]) && IsWhiteSpace(s[1]) {
      SplitOnRunsFirst(s[1..]);
    }
  }

  /** `s` is a single piece exactly when it holds no white space. */
  lemma {:induction false} SplitOnRunsSingle(s: string)
    ensures |SplitOnRuns(s)| == 1 <==> NoWhiteSpace(s)
  {
    if |s| > 0 {
      SplitOnRunsSingle(s[1..]);
      assert NoWhiteSpace(s) <==> !IsWhiteSpace(s[0]) && NoWhiteSpace(s[1..]) by {
        assert forall i :: 0 < i < |s| ==> s[i] == s[1..][i - 1];
      }
      if |s| > 1 && IsWhiteSpace(s[0]) && IsWhiteSpace(s[1]) {
        assert s[1..][0] == s[1];
      }
    }
  }

  /** Only the first and the last piece may be empty. */
  lemma {:induction false} SplitOnRunsInnerNonEmpty(s: string)
    ensures forall i :: 0 < i < |SplitOnRuns(s)| - 1 ==> SplitOnRuns(s)[i] != ""
  {
    if |s| > 0 {
      SplitOnRunsInnerNonEmpty(s[1..]);
      SplitOnRunsFirst(s[1..]);
      var rest := SplitOnRuns(s[1..]);
      if !IsWhiteSpace(s[0]) {
        assert forall i :: 0 < i < |rest| ==> SplitOnRuns(s)[i] == rest[i];
      } else if !(|s| > 1 && IsWhiteSpace(s[1])) {
        assert forall i :: 0 < i <= |rest| ==> SplitOnRuns(s)[i] == rest[i - 1];
      }
    }
  }

  /** The last piece is empty exactly when `s` is empty or ends with white space. */
  lemma {:induction false} SplitOnRunsLast(s: string)
    ensures var tokens := SplitOnRuns(s);
      tokens[|tokens| - 1] == "" <==> |s| == 0 || IsWhiteSpace(s[|s| - 1])
  {
    if |s| > 1 {
      var rest := SplitOnRuns(s[1..]);
      SplitOnRunsLast(s[1..]);
      assert s[1..][|s| - 2] == s[|s| - 1];
      if !IsWhiteSpace(s[0]) && |rest| == 1 {
        SplitOnRunsSingle(s[1..]);
        assert s[|s| - 1] == s[1..][|s| - 2];
      }
    }
  }

  /** A word alone is one piece. */
  lemma {:induction false} SplitOnRunsWord(word: string)
    requires NoWhiteSpace(word)
    ensures SplitOnRuns(word) == [word]
  {
    if |word| > 0 {
      SplitOnRunsWord(word[1..]);
      assert word == [word[0]] + word[1..];
    }
  }

  /** A white-space run before a text that does not start with white space opens one empty piece. */
  lemma {:induction false} SplitOnRunsGap(gap: string, rest: string)
    requires |gap| > 0 && AllWhiteSpace(gap)
    requires |rest| > 0 ==> !IsWhiteSpace(rest[0])
    ensures SplitOnRuns(gap + rest) == [""] + SplitOnRuns(rest)
  {
    var s := gap + rest;
    assert s[0] == gap[0];
    assert s[1..] == gap[1..] + rest;
    if |gap| > 1 {
      assert s[1] == gap[1];
      SplitOnRunsGap(gap[1..], rest);
    } else {
      assert s[1..] == rest;
    }
  }

  /** A word, a white-space run and a text that does not start with white space: the word is the first piece. */
  lemma {:induction false} SplitOnRunsAfterWord(word: string, gap: string, rest: string)
    requires NoWhiteSpace(word) && |gap| > 0 && AllWhiteSpace(gap)
    requires |rest| > 0 ==> !IsWhiteSpace(rest[0])
    ensures SplitOnRuns(word + gap + rest) == [word] + SplitOnRuns(rest)
  {
    var s := word + gap + rest;
    if |word| == 0 {
      assert s == gap + rest;
      SplitOnRunsGap(gap, rest);
    } else {
      SplitOnRunsAfterWord(word[1..], gap, rest);
      assert s[0] == word[0];
      assert s[1..] == word[1..] + gap + rest;
      assert word == [word[0]] + word[1..];
    }
  }

  /** `getLineData(line)`: the line's tokens, as the parser reads them. */
  function GetLineData(line: string): seq<string>
  {
    SplitOnRuns(StripOnce(line))
  }

  /**
   * The tokens of a line hold no white space and only the first and last
   * may be empty; a line with anything but white space has a non-empty
   * first token; a line starting with a non-space character has a
   * non-empty last token; and a line with white space at both ends and
   * something in between keeps an empty last token.
   */
  lemma GetLineDataShape(line: string)
    ensures var data := GetLineData(line);
      && |data| >= 1
      && (forall i :: 0 <= i < |data| ==> NoWhiteSpace(data[i]))
      && (forall i :: 0 < i < |data| - 1 ==> data[i] != "")
      && ((exists i :: 0 <= i < |line| && !IsWhiteSpace(line[i])) ==> data[0] != "")
      && (|line| > 0 && !IsWhiteSpace(line[0]) ==> data[|data| - 1] != "")
      && (|line| > 0 && IsWhiteSpace(line[0]) && IsWhiteSpace(line[|line| - 1])
          && (exists i :: 0 <= i < |line| && !IsWhiteSpace(line[i]))
          ==> |data| >= 2 && data[|data| - 1] == "")
  {
    StrippedEnds(line);
    var r := StripOnce(line);
    SplitOnRunsWords(r);
    SplitOnRunsInnerNonEmpty(r);
    SplitOnRunsFirst(r);
    SplitOnRunsLast(r);
    SplitOnRunsSingle(r);
    if |r| > 0 && IsWhiteSpace(r[|r| - 1]) {
      assert !NoWhiteSpace(r);
    }
  }

  lemma StrippedEnds(line: string)
    ensures var r := StripOnce(line);
      && ((exists i :: 0 <= i < |line| && !IsWhiteSpace(line[i])) ==> |r| > 0 && !IsWhiteSpace(r[0]))
      && (|line| > 0 && !IsWhiteSpace(line[0]) ==> |r| > 0 && !IsWhiteSpace(r[|r| - 1]))
      && (|line| > 0 && IsWhiteSpace(line[0]) && IsWhiteSpace(line[|line| - 1])
          && (exists i :: 0 <= i < |line| && !IsWhiteSpace(line[i]))
          ==> |r| > 0 && IsWhiteSpace(r[|r| - 1]))
  {
    var r := StripOnce(line);
    StripOnceRemovesOneRun(line);
    if exists i :: 0 <= i < |line| && !IsWhiteSpace(line[i]) {
      var i :| 0 <= i < |line| && !IsWhiteSpace(line[i]);
      if |line| > 0 && IsWhiteSpace(line[0]) {
        assert i >= |line| - |r|;
        assert r[|r| - 1] == line[|line| - 1];
      } else {
        assert |r| > 0 && r[0] == line[0];
      }
    }
  }

  /** Joining tokens with single spaces and splitting again gives the tokens back. */
  lemma {:induction false} SplitOnRunsJoin(tokens: seq<string>)
    requires |tokens| >= 1
    requires forall i :: 0 <= i < |tokens| ==> NoWhiteSpace(tokens[i])
    requires forall i :: 0 < i < |tokens| - 1 ==> tokens[i] != ""
    ensures SplitOnRuns(JoinWith(tokens, ' ')) == tokens
    decreases |tokens|
  {
    var s := JoinWith(tokens, ' ');
    if |tokens| == 1 {
      assert s == tokens[0];
      SplitOnRunsWord(s);
    } else {
      var tail := tokens[1..];
      var joined := JoinWith(tail, ' ');
      JoinedTailStart(tail);
      assert s == tokens[0] + " " + joined;
      SplitOnRunsAfterWord(tokens[0], " ", joined);
      SplitOnRunsJoin(tail);
      assert tokens == [tokens[0]] + tail;
    }
  }

  /** A join of tokens starts with its first token's first character. */
  lemma JoinedTailStart(tail: seq<string>)
    requires |tail| >= 1
    requires forall i :: 0 < i < |tail| - 1 ==> tail[i] != ""
    requires tail[0] == "" ==> |tail| == 1
    ensures var joined := JoinWith(tail, ' ');
      (|joined| == 0 || joined[0] == tail[0][0]) && (|joined| == 0 ==> tail[0] == "")
  {
    if |tail| > 1 {
      assert JoinWith(tail, ' ') == tail[0] + [' '] + JoinWith(tail[1..], ' ');
    }
  }

  /** The element `data[i]`, `undefined` past the end. */
  function At(data: seq<string>, i: nat): Option<string>
  {
    if i < |data| then Some(data[i]) else None
  }

  /** `parseInt(x, 10)` where `x` may be `undefined`, which `parseInt` reads as the text "undefined". */
  function ParseIntOf(x: Option<string>): Num
  {
    ParseInt(if x.Some? then x.value else "undefined")
  }

  /** `x !== undefined ? parseFloat(x) : undefined` */
  function ValueOf(x: Option<string>): Option<Float>
  {
    if x.Some? then Some(ParseFloat(x.value)) else None
  }

  /** A line that is neither empty nor a comment. */
  predicate IsContent(line: string)
  {
    line != "" && line[0] != '%'
  }

  /**
   * What a data line does to the graph: row and column are read with
   * `parseInt`, the optional third token with `parseFloat`; an entry whose
   * row `===` its column sets that node's payload, any other adds a link.
   */
  function AddEntry(g: MtxGraph, data: seq<string>): MtxGraph
  {
    var from := ParseIntOf(At(data, 0));
    var to := ParseIntOf(At(data, 1));
    var value := ValueOf(At(data, 2));
    if StrictEquals(from, to) then WithNode(g, from, value) else WithLink(g, from, to, value)
  }

  /** What one `parse(line)` call does to the parser. */
  function Step(s: Session, line: string): Session
  {
    if line == "" then s
    else if line[0] == '%' then s.(description := s.description + [SliceFrom(line, 1)])
    else
      match s.state
      case ReadData => s.(graph := AddEntry(s.graph, GetLineData(line)))
      case WaitRowColumnsEntries => s.(state := ReadData)
  }

  /** The state after `step` was applied to each of `lines`, first to last. */
  function Fold<S>(step: (S, string) -> S, s: S, lines: seq<string>): S
    decreases |lines|
  {
    if |lines| == 0 then s else step(Fold(step, s, lines[..|lines| - 1]), lines[|lines| - 1])
  }

  /** Folding over lines one batch after another is folding over them all at once. */
  lemma {:induction false} FoldConcat<S>(step: (S, string) -> S, s: S, a: seq<string>, b: seq<string>)
    ensures Fold(step, s, a + b) == Fold(step, Fold(step, s, a), b)
    decreases |b|
  {
    if |b| == 0 {
      assert a + b == a;
    } else {
      var ab := a + b;
      assert ab[..|ab| - 1] == a + b[..|b| - 1];
      assert ab[|ab| - 1] == b[|b| - 1];
      FoldConcat(step, s, a, b[..|b| - 1]);
    }
  }

  /** The parser after `lines` were passed to `parse`, first to last. */
  function Feed(s: Session, lines: seq<string>): Session
  {
    Fold(Step, s, lines)
  }

  /** The text after the `%` of every comment line, in order. */
  function CommentBodies(lines: seq<string>): seq<string>
    decreases |lines|
  {
    if |lines| == 0 then []
    else
      var last := lines[|lines| - 1];
      CommentBodies(lines[..|lines| - 1]) + (if last != "" && last[0] == '%' then [SliceFrom(last, 1)] else [])
  }

  /** Feeding lines one batch after another is feeding them all at once. */
  lemma FeedConcat(s: Session, a: seq<string>, b: seq<string>)
    ensures Feed(s, a + b) == Feed(Feed(s, a), b)
  {
    FoldConcat(Step, s, a, b);
  }

  /** Feeding a first line and then the rest is stepping once and feeding the rest. */
  lemma FeedCons(s: Session, line: string, rest: seq<string>)
    ensures Feed(s, [line] + rest) == Feed(Step(s, line), rest)
  {
    FeedConcat(s, [line], rest);
    assert [line][..0] == [];
    assert Fold(Step, s, [line][..0]) == s;
    assert Feed(s, [line]) == Step(s, line);
  }

  /**
   * The description is exactly the comment lines seen, each without its
   * `%`, in order and with repeats; empty and content lines add nothing.
   */
  lemma {:induction false} FeedDescription(s: Session, lines: seq<string>)
    ensures Feed(s, lines).description == s.description + CommentBodies(lines)
    decreases |lines|
  {
    if |lines| > 0 {
      FeedDescription(s, lines[..|lines| - 1]);
    }
  }

  /** Lines that are all empty or comments leave the graph and the state alone. */
  lemma {:induction false} FeedWithoutContent(s: Session, lines: seq<string>)
    requires forall i :: 0 <= i < |lines| ==> !IsContent(lines[i])
    ensures Feed(s, lines) == s.(description := s.description + CommentBodies(lines))
    decreases |lines|
  {
    if |lines| > 0 {
      FeedWithoutContent(s, lines[..|lines| - 1]);
    }
  }

  /**
   * The parser has left the waiting state exactly when it started out of it
   * or has seen a content line: nothing ever returns it to waiting.
   */
  lemma {:induction false} ReadDataIsFinal(s: Session, lines: seq<string>)
    ensures Feed(s, lines).state == ReadData <==>
      s.state == ReadData || exists i :: 0 <= i < |lines| && IsContent(lines[i])
    decreases |lines|
  {
    if |lines| > 0 {
      var init := lines[..|lines| - 1];
      ReadDataIsFinal(s, init);
      assert forall i :: 0 <= i < |init| ==> init[i] == lines[i];
      if exists i :: 0 <= i < |lines| && IsContent(lines[i]) {
        var i :| 0 <= i < |lines| && IsContent(lines[i]);
        if i < |init| {
          assert IsContent(init[i]);
        }
      }
    }
  }

  /**
   * From a new parser, the first content line is the dimensions header: it
   * adds nothing to the graph and moves the parser to `ReadData`, whether
   * or not its tokens are numbers.
   */
  lemma FirstContentLineIsHeader(comments: seq<string>, header: string)
    requires forall i :: 0 <= i < |comments| ==> !IsContent(comments[i])
    requires IsContent(header)
    ensures Feed(Initial(), comments + [header]) == Session(Empty(), CommentBodies(comments), ReadData)
  {
    var lines := comments + [header];
    assert lines[..|lines| - 1] == comments;
    FeedWithoutContent(Initial(), comments);
  }

  /** The graph and the state after some lines do not depend on the description collected before. */
  lemma {:induction false} FeedIgnoresDescription(s: Session, t: Session, lines: seq<string>)
    requires s.graph == t.graph && s.state == t.state
    ensures Feed(s, lines).graph == Feed(t, lines).graph
    ensures Feed(s, lines).state == Feed(t, lines).state
    decreases |lines|
  {
    if |lines| > 0 {
      FeedIgnoresDescription(s, t, lines[..|lines| - 1]);
    }
  }

  /** A comment line, wherever it comes, changes neither the graph nor the state. */
  lemma CommentDoesNotChangeGraph(s: Session, before: seq<string>, comment: string, after: seq<string>)
    requires comment != "" && comment[0] == '%'
    ensures Feed(s, before + [comment] + after).graph == Feed(s, before + after).graph
    ensures Feed(s, before + [comment] + after).state == Feed(s, before + after).state
  {
    FeedConcat(s, before + [comment], after);
    FeedConcat(s, before, [comment]);
    FeedConcat(s, before, after);
    var mid := Feed(s, before);
    assert Feed(mid, [comment]) == Step(mid, comment) by {
      assert [comment][..0] == [];
    }
    FeedIgnoresDescription(Step(mid, comment), mid, after);
  }

  /** The line `row col value` as a writer would emit it, value omitted when absent. */
  function EntryLine(row: int, col: int, value: Option<string>): string
  {
    JoinWith([ToDecimal(row), ToDecimal(col)] + (if value.Some? then [value.value] else []), ' ')
  }

  predicate IsValueToken(value: Option<string>)
  {
    value.Some? ==> value.value != "" && NoWhiteSpace(value.value)
  }

  lemma ToDecimalHasNoWhiteSpace(n: int)
    ensures ToDecimal(n) != "" && NoWhiteSpace(ToDecimal(n))
    ensures ToDecimal(n)[0] == '-' || IsDigit(ToDecimal(n)[0])
  {
    var m := if n < 0 then -n else n;
    var ds := Digits(m);
    assert forall i :: 0 <= i < |ds| ==> IsDigit(ds[i]) && !IsWhiteSpace(ds[i]);
  }

  /** An entry line reads back as its row, its column and its value token. */
  lemma EntryLineTokens(row: int, col: int, value: Option<string>)
    requires IsValueToken(value)
    ensures IsContent(EntryLine(row, col, value))
    ensures GetLineData(EntryLine(row, col, value)) ==
      [ToDecimal(row), ToDecimal(col)] + (if value.Some? then [value.value] else [])
  {
    var tokens := [ToDecimal(row), ToDecimal(col)] + (if value.Some? then [value.value] else []);
    ToDecimalHasNoWhiteSpace(row);
    ToDecimalHasNoWhiteSpace(col);
    var line := JoinWith(tokens, ' ');
    var last := tokens[|tokens| - 1];
    assert line == tokens[0] + [' '] + JoinWith(tokens[1..], ' ');
    assert line[0] == tokens[0][0];
    assert line[|line| - 1] == last[|last| - 1] by {
      if |tokens| == 2 {
        assert JoinWith(tokens[1..], ' ') == last;
      } else {
        assert JoinWith(tokens[1..], ' ') == tokens[1] + [' '] + last;
      }
    }
    assert TrailingWhiteSpace(line) == 0;
    assert StripOnce(line) == line;
    SplitOnRunsJoin(tokens);
  }

  /** A matrix entry as a data line states it: row, column and an optional value token. */
  datatype Entry = Entry(row: int, col: int, value: Option<string>)

  /** The tokens of a line stating entry `e`. */
  function EntryTokens(e: Entry): seq<string>
  {
    [ToDecimal(e.row), ToDecimal(e.col)] + (if e.value.Some? then [e.value.value] else [])
  }

  /** A content line whose tokens state entry `e`. */
  predicate Spells(line: string, e: Entry)
  {
    IsContent(line) && GetLineData(line) == EntryTokens(e)
  }

  /** What reading entry `e` does to the graph: node data on the diagonal, a link elsewhere. */
  function ApplyEntry(g: MtxGraph, e: Entry): MtxGraph
  {
    if e.row == e.col then WithNode(g, Int(e.row), ValueOf(e.value))
    else WithLink(g, Int(e.row), Int(e.col), ValueOf(e.value))
  }

  /** The graph after reading `es`, first to last. */
  function ApplyEntries(g: MtxGraph, es: seq<Entry>): MtxGraph
    decreases |es|
  {
    if |es| == 0 then g else ApplyEntry(ApplyEntries(g, es[..|es| - 1]), es[|es| - 1])
  }

  /** Reading the first `k` entries is reading the first `k - 1` and then entry `k - 1`. */
  lemma ApplyEntriesPrefix(g: MtxGraph, es: seq<Entry>, k: nat)
    requires 0 < k <= |es|
    ensures ApplyEntries(g, es[..k]) == ApplyEntry(ApplyEntries(g, es[..k - 1]), es[k - 1])
  {
    assert es[..k][..k - 1] == es[..k - 1];
  }

  /**
   * Once reading data, a line whose tokens spell `row`, `col` and the
   * optional value sets node data when `row == col` and adds a link otherwise.
   */
  lemma DataLineStep(s: Session, line: string, e: Entry)
    requires s.state == ReadData && Spells(line, e)
    ensures Step(s, line) == s.(graph := ApplyEntry(s.graph, e))
  {
    var data := GetLineData(line);
    assert At(data, 0) == Some(ToDecimal(e.row));
    assert At(data, 1) == Some(ToDecimal(e.col));
    assert At(data, 2) == e.value;
    ParseIntRoundTrip(e.row);
    ParseIntRoundTrip(e.col);
  }

  /**
   * Once reading data, lines that spell entries, one entry per line, change
   * nothing but the graph, which gets each entry in turn.
   */
  lemma {:induction false} FeedDataLines(s: Session, lines: seq<string>, es: seq<Entry>)
    requires s.state == ReadData && |lines| == |es|
    requires forall i :: 0 <= i < |lines| ==> Spells(lines[i], es[i])
    ensures Feed(s, lines) == s.(graph := ApplyEntries(s.graph, es))
    decreases |lines|
  {
    if |lines| > 0 {
      var n := |lines| - 1;
      var before := Feed(s, lines[..n]);
      FeedDataLines(s, lines[..n], es[..n]);
      assert Spells(lines[n], es[n]);
      DataLineStep(before, lines[n], es[n]);
      assert Feed(s, lines) == Step(before, lines[n]);
      assert ApplyEntries(s.graph, es) == ApplyEntry(ApplyEntries(s.graph, es[..n]), es[n]);
    }
  }

  /**
   * Once reading data, an entry whose row equals its column sets that
   * node's payload (absent when the value is absent) and adds no link.
   */
  lemma DiagonalEntrySetsNodeData(s: Session, k: int, value: Option<string>)
    requires s.state == ReadData && IsValueToken(value)
    ensures Step(s, EntryLine(k, k, value)) == s.(graph := WithNode(s.graph, Int(k), ValueOf(value)))
    ensures Step(s, EntryLine(k, k, value)).graph.links == s.graph.links
  {
    var data := [ToDecimal(k), ToDecimal(k)] + (if value.Some? then [value.value] else []);
    EntryLineTokens(k, k, value);
    assert At(data, 0) == At(data, 1) == Some(ToDecimal(k));
    assert At(data, 2) == value;
    ParseIntRoundTrip(k);
    WithNodeSpec(s.graph, Int(k), ValueOf(value));
  }

  /**
   * Once reading data, an entry whose row differs from its column appends
   * exactly one link, even when the same link is already there.
   */
  lemma OffDiagonalEntryAddsLink(s: Session, row: int, col: int, value: Option<string>)
    requires s.state == ReadData && IsValueToken(value) && row != col
    ensures Step(s, EntryLine(row, col, value)) == s.(graph := WithLink(s.graph, Int(row), Int(col), ValueOf(value)))
    ensures Step(s, EntryLine(row, col, value)).graph.links == s.graph.links + [Link(Int(row), Int(col), ValueOf(value))]
  {
    var data := [ToDecimal(row), ToDecimal(col)] + (if value.Some? then [value.value] else []);
    EntryLineTokens(row, col, value);
    assert At(data, 0) == Some(ToDecimal(row));
    assert At(data, 1) == Some(ToDecimal(col));
    assert At(data, 2) == value;
    ParseIntRoundTrip(row);
    ParseIntRoundTrip(col);
    WithLinkSpec(s.graph, Int(row), Int(col), ValueOf(value));
  }

  /**
   * Ids that do not parse are NaN and NaN `===` NaN is false, so a line
   * like `x x` becomes a link from the NaN node to itself, not node data.
   */
  lemma UnparsableIdsMakeALink(s: Session)
    requires s.state == ReadData
    ensures Step(s, "x x").graph == WithLink(s.graph, NaN, NaN, None)
  {
    assert GetLineData("x x") == ["x", "x"] by {
      assert StripOnce("x x") == "x x";
      SplitOnRunsJoin(["x", "x"]);
      assert JoinWith(["x", "x"], ' ') == "x x";
    }
    ParseIntWithoutDigits("x");
  }

  /**
   * A data line made only of white space (such as the lone `\r` a CRLF text
   * leaves after splitting at `\n`) has the single token "" and no second
   * one; both read as NaN, so it adds a link from the NaN node to itself.
   */
  lemma WhiteSpaceLineMakesNaNLink(s: Session, line: string)
    requires s.state == ReadData && line != "" && AllWhiteSpace(line)
    ensures Step(s, line) == s.(graph := WithLink(s.graph, NaN, NaN, None))
    ensures Step(s, line).graph.links == s.graph.links + [Link(NaN, NaN, None)]
  {
    LeadingWhiteSpaceIs(line, |line|);
    assert StripOnce(line) == "";
    ParseIntWithoutDigits("undefined");
    WithLinkSpec(s.graph, NaN, NaN, None);
  }

  /**
   * A data line whose first token starts with neither a digit nor a sign has
   * a NaN row, which `===` no column; whatever the rest says, the line
   * appends one link from the NaN node.
   */
  lemma UnparsableRowMakesALink(s: Session, line: string)
    requires s.state == ReadData && IsContent(line)
    requires var t := GetLineData(line)[0]; t != "" && !IsDigit(t[0]) && t[0] != '-' && t[0] != '+'
    ensures var data := GetLineData(line);
      Step(s, line) == s.(graph := WithLink(s.graph, NaN, ParseIntOf(At(data, 1)), ValueOf(At(data, 2))))
    ensures var data := GetLineData(line);
      Step(s, line).graph.links == s.graph.links + [Link(NaN, ParseIntOf(At(data, 1)), ValueOf(At(data, 2)))]
  {
    var data := GetLineData(line);
    GetLineDataShape(line);
    ParseIntWithoutDigits(data[0]);
    WithLinkSpec(s.graph, NaN, ParseIntOf(At(data, 1)), ValueOf(At(data, 2)));
  }

  /**
   * A data line whose second token starts with neither a digit nor a sign
   * has a NaN column, which no row `===`, so the line appends one link to the
   * NaN node, even when the row is NaN too.
   */
  lemma UnparsableColumnMakesALink(s: Session, line: string)
    requires s.state == ReadData && IsContent(line)
    requires var data := GetLineData(line);
      |data| >= 2 && data[1] != "" && !IsDigit(data[1][0]) && data[1][0] != '-' && data[1][0] != '+'
    ensures var data := GetLineData(line);
      Step(s, line) == s.(graph := WithLink(s.graph, ParseIntOf(At(data, 0)), NaN, ValueOf(At(data, 2))))
    ensures var data := GetLineData(line);
      Step(s, line).graph.links == s.graph.links + [Link(ParseIntOf(At(data, 0)), NaN, ValueOf(At(data, 2)))]
  {
    var data := GetLineData(line);
    GetLineDataShape(line);
    ParseIntWithoutDigits(data[1]);
    WithLinkSpec(s.graph, ParseIntOf(At(data, 0)), NaN, ValueOf(At(data, 2)));
  }

  /** A padded entry line reads back as its row, its column and an empty token. */
  lemma PaddedEntryTokens(row: int, col: int)
    ensures GetLineData(" " + EntryLine(row, col, None) + " ") == [ToDecimal(row), ToDecimal(col), ""]
  {
    var r := ToDecimal(row);
    var c := ToDecimal(col);
    ToDecimalHasNoWhiteSpace(row);
    ToDecimalHasNoWhiteSpace(col);
    var tokens := [r, c, ""];
    var inner := r + " " + c + " ";
    assert EntryLine(row, col, None) == r + " " + c by {
      assert [r, c] + [] == [r, c];
      assert JoinWith([r, c][1..], ' ') == c;
    }
    var line := " " + EntryLine(row, col, None) + " ";
    assert line == " " + inner;
    assert line[1] == r[0];
    LeadingWhiteSpaceIs(line, 1);
    assert StripOnce(line) == inner;
    assert JoinWith(tokens, ' ') == inner by {
      assert JoinWith(tokens[1..], ' ') == c + " " by {
        assert JoinWith(tokens[1..][1..], ' ') == "";
      }
    }
    SplitOnRunsJoin(tokens);
  }

  /**
   * A data line indented by white space, with its row, column and value
   * apart by runs of white space, reads back as exactly those three tokens.
   */
  lemma IndentedEntryTokens(lead: string, row: string, gap1: string, col: string, gap2: string, value: string)
    requires |lead| > 0 && AllWhiteSpace(lead)
    requires |gap1| > 0 && AllWhiteSpace(gap1) && |gap2| > 0 && AllWhiteSpace(gap2)
    requires row != "" && NoWhiteSpace(row) && col != "" && NoWhiteSpace(col)
    requires value != "" && NoWhiteSpace(value)
    ensures GetLineData(lead + row + gap1 + col + gap2 + value) == [row, col, value]
  {
    var tail := col + gap2 + value;
    var body := row + gap1 + tail;
    var line := lead + row + gap1 + col + gap2 + value;
    assert line == lead + body;
    assert line[|lead|] == row[0];
    assert forall i :: 0 <= i < |lead| ==> line[i] == lead[i];
    LeadingWhiteSpaceIs(line, |lead|);
    assert line[0] == lead[0];
    assert StripOnce(line) == body;
    assert tail[0] == col[0];
    SplitOnRunsAfterWord(row, gap1, tail);
    SplitOnRunsAfterWord(col, gap2, value);
    SplitOnRunsWord(value);
  }

  /**
   * A data line as Matrix Market files lay it out: indented, then the row,
   * the column and the value token apart by runs of white space.
   */
  function Indented(lead: string, row: int, gap1: string, col: int, gap2: string, value: string): string
  {
    lead + ToDecimal(row) + gap1 + ToDecimal(col) + gap2 + value
  }

  /** An indented line with a value token states the entry of its row, column and value. */
  lemma IndentedEntrySpells(lead: string, row: int, gap1: string, col: int, gap2: string, value: string)
    requires |lead| > 0 && AllWhiteSpace(lead)
    requires |gap1| > 0 && AllWhiteSpace(gap1) && |gap2| > 0 && AllWhiteSpace(gap2)
    requires value != "" && NoWhiteSpace(value)
    ensures Spells(Indented(lead, row, gap1, col, gap2, value), Entry(row, col, Some(value)))
  {
    var line := Indented(lead, row, gap1, col, gap2, value);
    ToDecimalHasNoWhiteSpace(row);
    ToDecimalHasNoWhiteSpace(col);
    IndentedEntryTokens(lead, ToDecimal(row), gap1, ToDecimal(col), gap2, value);
    assert line[0] == lead[0];
  }

  /**
   * A diagonal line padded at both ends, like ` 2 2 `, keeps an empty value
   * token, so node `k` gets the payload `parseFloat("")` rather than none.
   */
  lemma PaddedDiagonalGetsEmptyValue(s: Session, k: int)
    requires s.state == ReadData
    ensures Step(s, " " + EntryLine(k, k, None) + " ") == s.(graph := WithNode(s.graph, Int(k), Some(ParseFloat(""))))
  {
    var tokens := [ToDecimal(k), ToDecimal(k), ""];
    PaddedEntryTokens(k, k);
    ParseIntRoundTrip(k);
    assert At(tokens, 0) == At(tokens, 1) == Some(ToDecimal(k));
    assert At(tokens, 2) == Some("");
  }

  /**
   * A line with white space at both ends keeps an empty last token, so an
   * entry padded like ` 4 2 ` gets the payload `parseFloat("")` where the
   * bare `4 2` gets none.
   */
  lemma PaddedEntryGetsEmptyValue(s: Session, row: int, col: int)
    requires s.state == ReadData && row != col
    ensures Step(s, " " + EntryLine(row, col, None) + " ").graph ==
      WithLink(s.graph, Int(row), Int(col), Some(ParseFloat("")))
    ensures Step(s, EntryLine(row, col, None)).graph == WithLink(s.graph, Int(row), Int(col), None)
  {
    var tokens := [ToDecimal(row), ToDecimal(col), ""];
    PaddedEntryTokens(row, col);
    ParseIntRoundTrip(row);
    ParseIntRoundTrip(col);
    assert At(tokens, 0) == Some(ToDecimal(row));
    assert At(tokens, 1) == Some(ToDecimal(col));
    assert At(tokens, 2) == Some("");
    OffDiagonalEntryAddsLink(s, row, col, None);
  }

  /** A JavaScript array of strings that `push` extends in place. */
  class Lines {
    var items: seq<string>

    constructor ()
      ensures items == []
    {
      items := [];
    }

    /** `lines.push(line)` */
    method Push(line: string)
      modifies this
      ensures items == old(items) + [line]
    {
      items := items + [line];
    }
  }

  /**
   * The parser object: a graph and a description array it owns and changes
   * in place, and the state.
   */
  class LineParser {
    const graph: Graph<Num, Float>
    const description: Lines
    var state: State

    function Current(): Session
      reads this, graph, description
    {
      Session(graph.Value(), description.items, state)
    }

    ghost predicate Valid()
      reads this, graph
    {
      graph.Valid()
    }

    /** `mtxParser()` */
    constructor ()
      ensures Valid() && fresh(graph) && fresh(description) && Current() == Initial()
    {
      graph := new Graph<Num, Float>();
      description := new Lines();
      state := WaitRowColumnsEntries;
    }

    /** `parse(line)` */
    method Parse(line: string)
      requires Valid()
      modifies this, graph, description
      ensures Valid() && Current() == Step(old(Current()), line)
    {
      if line == "" {
        return;
      }
      if line[0] == '%' {
        description.Push(SliceFrom(line, 1));
        return;
      }
      var data := GetLineData(line);
      if state == ReadData {
        var from := ParseIntOf(At(data, 0));
        var to := ParseIntOf(At(data, 1));
        var value := ValueOf(At(data, 2));
        if StrictEquals(from, to) {
          graph.AddNode(from, value);
        } else {
          graph.AddLink(from, to, value);
        }
      } else if state == WaitRowColumnsEntries {
        state := ReadData;
      }
    }

    /** `getGraph()`: the parser's own graph object, which later lines keep changing. */
    method GetGraph() returns (g: Graph<Num, Float>)
      ensures g == graph
    {
      g := graph;
    }

    /** `getDescription()`: the parser's own description array, which later comment lines keep extending. */
    method GetDescription() returns (d: Lines)
      ensures d == description
    {
      d := description;
    }
  }
}
