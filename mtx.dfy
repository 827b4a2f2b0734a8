/**
 * Loading a whole Matrix Market document: the text is cut at every `\n`
 * and each piece is handed, in order, to one fresh line parser, whose graph
 * is the result. The description the parser collects is not part of it.
 */
module Mtx {
  import opened Js
  import opened Graphs
  import opened MtxParser

  /** `createLineParser()`: a parser in its initial state, with a graph of its own. */
  method CreateLineParser() returns (parser: LineParser)
    ensures fresh(parser) && fresh(parser.graph) && fresh(parser.description)
    ensures parser.Valid() && parser.Current() == Initial()
  {
    parser := new LineParser();
  }

  /** The graph `load(text)` returns. */
  function Loaded(text: string): MtxGraph
  {
    Feed(Initial(), SplitOn(text, '\n')).graph
  }

  /** `load(text)`: split on `\n`, parse every piece with one fresh parser, return its graph. */
  method Load(text: string) returns (g: Graph<Num, Float>)
    ensures fresh(g) && g.Valid() && g.Value() == Loaded(text)
  {
    var lines := SplitOn(text, '\n');
    var parser := CreateLineParser();
    for i := 0 to |lines|
      invariant fresh(parser) && fresh(parser.graph) && fresh(parser.description) && parser.Valid()
      invariant parser.Current() == Feed(Initial(), lines[..i])
    {
      assert lines[..i + 1][..i] == lines[..i];
      parser.Parse(lines[i]);
    }
    assert lines[..|lines|] == lines;
    g := parser.GetGraph();
  }

  /** The empty text is the single empty line, which is skipped: the graph stays empty. */
  lemma LoadEmptyText()
    ensures Loaded("") == Empty()
  {
    assert SplitOn("", '\n') == [""];
    FeedCons(Initial(), "", []);
  }

  /**
   * Feeding lines one at a time to a fresh parser builds the same graph as
   * loading the text those lines make when joined with `\n`.
   */
  lemma StreamingMatchesLoad(lines: seq<string>)
    requires forall i :: 0 <= i < |lines| ==> '\n' !in lines[i]
    ensures Feed(Initial(), lines).graph == Loaded(JoinWith(lines, '\n'))
  {
    if |lines| == 0 {
      LoadEmptyText();
    } else {
      SplitJoin(lines, '\n');
    }
  }

  /**
   * Comment or empty lines, then the dimensions line, then one data line
   * per entry, fed to a fresh parser, build the graph those entries build,
   * in order; the dimensions themselves are never checked.
   */
  lemma FeedDocument(comments: seq<string>, header: string, lines: seq<string>, es: seq<Entry>)
    requires forall i :: 0 <= i < |comments| ==> !IsContent(comments[i])
    requires IsContent(header)
    requires |lines| == |es|
    requires forall i :: 0 <= i < |lines| ==> Spells(lines[i], es[i])
    ensures Feed(Initial(), comments + [header] + lines).graph == ApplyEntries(Empty(), es)
  {
    FeedConcat(Initial(), comments + [header], lines);
    FirstContentLineIsHeader(comments, header);
    FeedDataLines(Session(Empty(), CommentBodies(comments), ReadData), lines, es);
  }

  /** Such a document, as one text with its lines joined by `\n`, loads as the same graph. */
  lemma LoadDocument(comments: seq<string>, header: string, lines: seq<string>, es: seq<Entry>)
    requires forall i :: 0 <= i < |comments| ==> !IsContent(comments[i]) && '\n' !in comments[i]
    requires IsContent(header) && '\n' !in header
    requires |lines| == |es|
    requires forall i :: 0 <= i < |lines| ==> Spells(lines[i], es[i]) && '\n' !in lines[i]
    ensures Loaded(JoinWith(comments + [header] + lines, '\n')) == ApplyEntries(Empty(), es)
  {
    var all := comments + [header] + lines;
    assert forall i :: 0 <= i < |all| ==> '\n' !in all[i] by {
      forall i | 0 <= i < |all|
        ensures '\n' !in all[i]
      {
        if i < |comments| {
          assert all[i] == comments[i];
        } else if i > |comments| {
          assert all[i] == lines[i - |comments| - 1];
        }
      }
    }
    StreamingMatchesLoad(all);
    FeedDocument(comments, header, lines, es);
  }

  /** The dimensions line of the sample document. */
  const SampleHeader: string := "  5  5  8"

  /**
   * A sample data line: four spaces, the row, five spaces, the column, then
   * the value, set three spaces off (two before a negative value, so that
   * the digits line up).
   */
  function SampleLine(e: Entry): string
  {
    var v := if e.value.Some? then e.value.value else "";
    Indented("    ", e.row, "     ", e.col, if |v| > 0 && v[0] == '-' then "  " else "   ", v)
  }

  /** The eight data lines of the sample document, one per sample entry. */
  function SampleEntries(): (lines: seq<string>)
    ensures |lines| == |SampleEntryList()|
  {
    seq(|SampleEntryList()|, i requires 0 <= i < |SampleEntryList()| => SampleLine(SampleEntryList()[i]))
  }

  /** The graph the sample entries describe: five nodes with their diagonal values and three links. */
  function SampleGraph(): MtxGraph
  {
    GraphValue(
      [Int(1), Int(2), Int(3), Int(4), Int(5)],
      map[Int(1) := Some(ParseFloat("1")), Int(2) := Some(ParseFloat("1.5")), Int(3) := Some(ParseFloat("1.5")),
          Int(4) := Some(ParseFloat("-2.8")), Int(5) := Some(ParseFloat("1.2"))],
      [ Link(Int(1), Int(4), Some(ParseFloat("6.0"))),
        Link(Int(4), Int(2), Some(ParseFloat("2.5"))),
        Link(Int(4), Int(5), Some(ParseFloat("3.3"))) ])
  }

  /** The entries the sample's data lines state. */
  function SampleEntryList(): seq<Entry>
  {
    [ Entry(1, 1, Some("1")), Entry(2, 2, Some("1.5")), Entry(3, 3, Some("1.5")), Entry(1, 4, Some("6.0")),
      Entry(4, 2, Some("2.5")), Entry(4, 4, Some("-2.8")), Entry(4, 5, Some("3.3")), Entry(5, 5, Some("1.2")) ]
  }

  /** Every sample entry carries a value token. */
  lemma SampleValuesAreTokens()
    ensures forall i :: 0 <= i < |SampleEntryList()| ==>
      SampleEntryList()[i].value.Some? && SampleEntryList()[i].value.value != "" && NoWhiteSpace(SampleEntryList()[i].value.value)
  {
  }

  /** Each sample data line spells its entry. */
  lemma SampleEntriesSpell()
    ensures forall i :: 0 <= i < |SampleEntries()| ==> Spells(SampleEntries()[i], SampleEntryList()[i])
  {
    SampleValuesAreTokens();
    forall i | 0 <= i < |SampleEntries()|
      ensures Spells(SampleEntries()[i], SampleEntryList()[i])
    {
      var e := SampleEntryList()[i];
      var v := e.value.value;
      IndentedEntrySpells("    ", e.row, "     ", e.col, if v[0] == '-' then "  " else "   ", v);
    }
  }

  /** The graph after the first `k` sample entries. */
  function SampleGraphAfter(k: nat): MtxGraph
    requires k <= 8
  {
    var v1, v15, v28, v12 := Some(ParseFloat("1")), Some(ParseFloat("1.5")), Some(ParseFloat("-2.8")), Some(ParseFloat("1.2"));
    var l14, l42, l45 := Link(Int(1), Int(4), Some(ParseFloat("6.0"))), Link(Int(4), Int(2), Some(ParseFloat("2.5"))),
      Link(Int(4), Int(5), Some(ParseFloat("3.3")));
    if k == 0 then Empty()
    else if k == 1 then GraphValue([Int(1)], map[Int(1) := v1], [])
    else if k == 2 then GraphValue([Int(1), Int(2)], map[Int(1) := v1, Int(2) := v15], [])
    else if k == 3 then GraphValue([Int(1), Int(2), Int(3)], map[Int(1) := v1, Int(2) := v15, Int(3) := v15], [])
    else if k == 4 then
      GraphValue([Int(1), Int(2), Int(3), Int(4)], map[Int(1) := v1, Int(2) := v15, Int(3) := v15, Int(4) := None], [l14])
    else if k == 5 then
      GraphValue([Int(1), Int(2), Int(3), Int(4)], map[Int(1) := v1, Int(2) := v15, Int(3) := v15, Int(4) := None], [l14, l42])
    else if k == 6 then
      GraphValue([Int(1), Int(2), Int(3), Int(4)], map[Int(1) := v1, Int(2) := v15, Int(3) := v15, Int(4) := v28], [l14, l42])
    else if k == 7 then
      GraphValue([Int(1), Int(2), Int(3), Int(4), Int(5)],
        map[Int(1) := v1, Int(2) := v15, Int(3) := v15, Int(4) := v28, Int(5) := None], [l14, l42, l45])
    else SampleGraph()
  }

  /** The diagonal sample entries each set one node's payload. */
  lemma SampleNodeStep(k: nat)
    requires k == 1 || k == 2 || k == 3 || k == 6 || k == 8
    ensures ApplyEntry(SampleGraphAfter(k - 1), SampleEntryList()[k - 1]) == SampleGraphAfter(k)
  {
  }

  /**
   * The off-diagonal sample entries each append a link: the link 1 -> 4
   * creates node 4 with no payload, the link 4 -> 2 keeps node 2's diagonal
   * value, the link 4 -> 5 creates node 5.
   */
  lemma SampleLinkStep(k: nat)
    requires k == 4 || k == 5 || k == 7
    ensures ApplyEntry(SampleGraphAfter(k - 1), SampleEntryList()[k - 1]) == SampleGraphAfter(k)
  {
    var g := SampleGraphAfter(k - 1);
    if k == 4 {
      assert Touch(g, Int(1)) == g;
    } else if k == 5 {
      assert Touch(g, Int(4)) == g;
      assert Touch(g, Int(2)) == g;
    } else {
      assert Touch(g, Int(4)) == g;
    }
  }

  /** Sample entry `k - 1` turns the graph after `k - 1` entries into the graph after `k`. */
  lemma SampleStep(k: nat)
    requires 0 < k <= 8
    ensures ApplyEntry(SampleGraphAfter(k - 1), SampleEntryList()[k - 1]) == SampleGraphAfter(k)
  {
    if k == 4 || k == 5 || k == 7 {
      SampleLinkStep(k);
    } else {
      SampleNodeStep(k);
    }
  }

  /** The sample entries, read one by one, pass through `SampleGraphAfter`. */
  lemma {:induction false} SampleTrace(k: nat)
    requires k <= 8
    ensures ApplyEntries(Empty(), SampleEntryList()[..k]) == SampleGraphAfter(k)
  {
    if k > 0 {
      SampleTrace(k - 1);
      ApplyEntriesPrefix(Empty(), SampleEntryList(), k);
      SampleStep(k);
    }
  }

  /** The eight sample entries build `SampleGraph`. */
  lemma SampleEntriesGraph()
    ensures ApplyEntries(Empty(), SampleEntryList()) == SampleGraph()
  {
    SampleTrace(8);
    assert SampleEntryList()[..8] == SampleEntryList();
  }

  /** What the sample test checks of the graph. */
  lemma SampleGraphCounts()
    ensures NodesCount(SampleGraph()) == 5 && LinksCount(SampleGraph()) == 3
    ensures HasLink(SampleGraph(), Int(1), Int(4))
    ensures DataOf(SampleGraph(), Int(2)) == Some(ParseFloat("1.5"))
  {
    assert SampleGraph().links[0] == Link(Int(1), Int(4), Some(ParseFloat("6.0")));
  }

  /** A sample data line whose value is a token holds no line break. */
  lemma SampleLineHasNoBreak(e: Entry)
    requires e.value.Some? && NoWhiteSpace(e.value.value)
    ensures '\n' !in SampleLine(e)
  {
    ToDecimalHasNoWhiteSpace(e.row);
    ToDecimalHasNoWhiteSpace(e.col);
    assert IsWhiteSpace('\n');
  }

  /** The sample's dimensions line and data lines are content lines without a line break. */
  lemma SampleLinesAreLines()
    ensures IsContent(SampleHeader) && '\n' !in SampleHeader
    ensures forall i :: 0 <= i < |SampleEntries()| ==> '\n' !in SampleEntries()[i]
  {
    SampleValuesAreTokens();
    forall i | 0 <= i < |SampleEntries()|
      ensures '\n' !in SampleEntries()[i]
    {
      SampleLineHasNoBreak(SampleEntryList()[i]);
    }
  }

  /**
   * Loading the sample document, whatever its block of `%` lines holds,
   * gives five nodes and three links, among them 1 -> 4, and node 2 keeps
   * its diagonal value 1.5 although the link 4 -> 2 touches it later.
   */
  lemma SampleDocument(comments: seq<string>)
    requires forall i :: 0 <= i < |comments| ==> comments[i] != "" && comments[i][0] == '%' && '\n' !in comments[i]
    ensures var g := Loaded(JoinWith(comments + [SampleHeader] + SampleEntries(), '\n'));
      && g == SampleGraph()
      && NodesCount(g) == 5 && LinksCount(g) == 3
      && HasLink(g, Int(1), Int(4))
      && DataOf(g, Int(2)) == Some(ParseFloat("1.5"))
  {
    SampleLinesAreLines();
    SampleEntriesSpell();
    LoadDocument(comments, SampleHeader, SampleEntries(), SampleEntryList());
    SampleEntriesGraph();
    SampleGraphCounts();
  }
}
