/** A worked report: two sections under labels of the tool's own, turned into
    two snippets for the device "ups1". */
module Scenarios {
  import opened LineReader
  import opened SnippetParser
  import opened SnippetSections

  /** The report, as nut-scanner prints it. */
  const Report: string := "[ignored]\n" + "port = 1\n" + "mibs = ietf\n" + "[ignored2]\n" + "driver = snmp-ups\n"
  /** Its lines, each with its newline. */
  const ReportLines: seq<string> := ["[ignored]\n", "port = 1\n", "mibs = ietf\n", "[ignored2]\n", "driver = snmp-ups\n"]

  /** The lines make up the report. */
  lemma ScenarioConcat()
    ensures Concat(ReportLines) == Report
  {
    var a, b, c, d, e := "[ignored]\n", "port = 1\n", "mibs = ietf\n", "[ignored2]\n", "driver = snmp-ups\n";
    ConcatCons(e, []);
    ConcatCons(d, [e]);
    ConcatCons(c, [d, e]);
    ConcatCons(b, [c, d, e]);
    ConcatCons(a, [b, c, d, e]);
    assert [a] + [b, c, d, e] == ReportLines;
    assert a + (b + (c + (d + (e + [])))) == a + b + c + d + e;
  }

  /** Each line ends in its only newline. */
  lemma ScenarioSeparated()
    ensures NewlineSeparated(ReportLines)
  {
    OneLine("[ignored]\n");
    OneLine("port = 1\n");
    OneLine("mibs = ietf\n");
    OneLine("[ignored2]\n");
    OneLine("driver = snmp-ups\n");
  }

  /** A literal line ending in its only newline. */
  lemma OneLine(line: string)
    requires |line| > 0 && line[|line| - 1] == '\n' && '\n' !in line[..|line| - 1]
    ensures Terminated(line) && NoInnerNewline(line)
  {
    assert forall i :: 0 <= i < |line| - 1 ==> line[i] in line[..|line| - 1];
  }

  /** Successive reads deliver the lines and then one empty line. */
  lemma ScenarioLines()
    ensures LinesFrom(Report) == ReportLines + [""]
  {
    ScenarioSeparated();
    ScenarioConcat();
    ReadBack(ReportLines);
    assert Trailer(ReportLines) == [""];
  }

  /** The two snippets expected. */
  const First: string := "[ups1]\n" + "port = 1\n" + "mibs = ietf\n"
  const Second: string := "[ups1]\n" + "driver = snmp-ups\n"

  /** The parser states the report passes through, line by line. */
  const Trace: seq<Parser> :=
    [Parser([], [], false), Parser([], [], true), Parser([], "[ups1]\n" + "port = 1\n", false),
     Parser([], First, false), Parser([First], [], true), Parser([First], Second, false),
     Parser([First], Second, false)]

  /** The first section: the label is dropped, the header written lazily. */
  lemma TraceFirstSection()
    ensures Feed("ups1", Trace[0], (ReportLines + [""])[0..]) == Feed("ups1", Trace[3], (ReportLines + [""])[3..])
  {
    StepAt("ups1", Trace, ReportLines + [""], 0);
    StepAt("ups1", Trace, ReportLines + [""], 1);
    StepAt("ups1", Trace, ReportLines + [""], 2);
  }

  /** The second section: the first snippet is pushed at the second label. */
  lemma TraceSecondSection()
    ensures Feed("ups1", Trace[3], (ReportLines + [""])[3..]) == Trace[6]
  {
    var lines := ReportLines + [""];
    StepAt("ups1", Trace, lines, 3);
    StepAt("ups1", Trace, lines, 4);
    StepAt("ups1", Trace, lines, 5);
    assert lines[6..] == [];
  }

  /** The whole main loop. */
  lemma ScenarioFeed()
    ensures Feed("ups1", Parser([], [], false), ReportLines + [""]) == Parser([First], Second, false)
  {
    TraceFirstSection();
    TraceSecondSection();
    assert (ReportLines + [""])[0..] == ReportLines + [""];
  }

  /** One step of the trace. */
  lemma StepAt(name: string, states: seq<Parser>, lines: seq<string>, i: nat)
    requires i < |lines| && i + 1 < |states|
    requires Step(name, states[i], lines[i]) == states[i + 1]
    ensures Feed(name, states[i], lines[i..]) == Feed(name, states[i + 1], lines[i + 1..])
  {
    assert lines[i..][1..] == lines[i + 1..];
  }

  /** The report yields the two snippets, and no error is reported. */
  lemma ScenarioReport()
    ensures ParseText("ups1", Report, []) ==
      ParseOutcome([First, Second], false)
  {
    ScenarioLines();
    ScenarioFeed();
    assert Reads(Stream.Open(Report)) == ReportLines + [""];
  }

  /** A device name holding a newline. The parser accepts any name, but its
      header then reads back as two lines. */
  const OddName: string := "a\nb"
  /** The snippet the parser pushes under that name for the report "[x]\np\n". */
  const OddSnippet: string := "[a\nb]\n" + "p\n"

  /** Under a name with a newline the parser still pushes header and body. */
  lemma OddNameSnippet()
    ensures ParseText(OddName, "[x]\n" + "p\n", []) == ParseOutcome([OddSnippet], false)
  {
    var lines := ["[x]\n", "p\n"];
    var states := [Parser([], [], false), Parser([], [], true), Parser([], OddSnippet, false),
                   Parser([], OddSnippet, false)];
    assert LinesFrom("[x]\n" + "p\n") == lines + [""] by {
      OneLine("[x]\n");
      OneLine("p\n");
      assert NewlineSeparated(lines);
      ConcatCons("p\n", []);
      ConcatCons("[x]\n", ["p\n"]);
      assert ["[x]\n"] + ["p\n"] == lines;
      assert Concat(lines) == "[x]\n" + "p\n";
      ReadBack(lines);
      assert Trailer(lines) == [""];
    }
    StepAt(OddName, states, lines + [""], 0);
    StepAt(OddName, states, lines + [""], 1);
    StepAt(OddName, states, lines + [""], 2);
    assert (lines + [""])[3..] == [];
    assert (lines + [""])[0..] == lines + [""];
    assert Reads(Stream.Open("[x]\n" + "p\n")) == lines + [""];
  }

  /** Read back, that snippet's header splits at the newline of the name: the
      first half is taken for a tag and the second half for a body line, so
      parsing the snippet again does not reproduce it. This is why the reparse
      properties ask for a name without a newline. */
  lemma OddNameBreaksReparse()
    ensures ParseText(OddName, OddSnippet, []) ==
      ParseOutcome(["[a\nb]\n" + "b]\n" + "p\n"], false)
    ensures !Reproduces(OddName, OddSnippet)
  {
    OddSnippetLines();
    OddTrace();
    assert Reads(Stream.Open(OddSnippet)) == ["[a\n", "b]\n", "p\n"] + [""];
    assert "[a\nb]\n" + "b]\n" + "p\n" != OddSnippet by {
      assert |"[a\nb]\n" + "b]\n" + "p\n"| != |OddSnippet|;
    }
  }

  /** The main loop over the snippet's lines under the odd name: the first half
      of the header opens a section, the second half is its first body line. */
  lemma OddTrace()
    ensures Feed(OddName, Parser([], [], false), ["[a\n", "b]\n", "p\n"] + [""]) ==
      Parser([], "[a\nb]\n" + "b]\n" + "p\n", false)
  {
    var lines := ["[a\n", "b]\n", "p\n"] + [""];
    var grown := "[a\nb]\n" + "b]\n";
    var states := [Parser([], [], false), Parser([], [], true), Parser([], grown, false),
                   Parser([], grown + "p\n", false), Parser([], grown + "p\n", false)];
    StepAt(OddName, states, lines, 0);
    StepAt(OddName, states, lines, 1);
    StepAt(OddName, states, lines, 2);
    StepAt(OddName, states, lines, 3);
    assert lines[4..] == [];
    assert lines[0..] == lines;
  }

  /** The snippet reads back as three lines and a final empty one. */
  lemma OddSnippetLines()
    ensures LinesFrom(OddSnippet) == ["[a\n", "b]\n", "p\n"] + [""]
  {
    var lines := ["[a\n", "b]\n", "p\n"];
    OneLine("[a\n");
    OneLine("b]\n");
    OneLine("p\n");
    assert NewlineSeparated(lines);
    ConcatCons("p\n", []);
    ConcatCons("b]\n", ["p\n"]);
    ConcatCons("[a\n", ["b]\n", "p\n"]);
    assert ["b]\n"] + ["p\n"] == ["b]\n", "p\n"];
    assert ["[a\n"] + ["b]\n", "p\n"] == lines;
    assert Concat(lines) == OddSnippet;
    ReadBack(lines);
    assert Trailer(lines) == [""];
  }
}
