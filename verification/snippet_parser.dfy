/** The snippet parser of src/nutscan.cc (`s_parse_nut_scanner_output`): turns
    the report of nut-scanner into configuration snippets labelled with the
    device's own name. */
module SnippetParser {
  import opened Stream
  import opened LineReader

  /** A line the parser skips: empty, or starting with a newline. */
  predicate IsBlank(line: string) {
    |line| == 0 || line[0] == '\n'
  }

  /** A line that opens a new section: it starts with '['. */
  predicate IsTag(line: string) {
    |line| > 0 && line[0] == '['
  }

  /** A line that belongs to the body of a section. */
  predicate IsBodyLine(line: string) {
    !IsBlank(line) && !IsTag(line)
  }

  /** The section header written in place of the tool's own label. */
  function Header(name: string): string {
    "[" + name + "]\n"
  }

  /** The parser's state: the snippets pushed so far, the snippet being built
      (`buf`), and whether a tag was seen whose header is not yet written
      (`got_name`). */
  datatype Parser = Parser(out: seq<string>, buf: string, gotName: bool)

  /** What a parse leaves behind: the output vector, and whether the error
      "got a section tag but no other data" was logged. */
  datatype ParseOutcome = ParseOutcome(out: seq<string>, tagWithoutData: bool)

  /** A pending header is only ever pending on an empty buffer. */
  predicate Consistent(p: Parser) {
    p.gotName ==> p.buf == []
  }

  /** The handling of one line read. A tag flushes the snippet being built and
      marks the header as pending; a body line first writes a pending header and
      is then appended, but only to a buffer that already holds something. */
  function Step(name: string, p: Parser, line: string): (q: Parser)
    ensures Consistent(p) ==> Consistent(q)
    ensures p.out <= q.out && |q.out| <= |p.out| + 1
    ensures |q.out| == |p.out| + 1 ==> IsTag(line) && q.out[|p.out|] == p.buf
    ensures IsBodyLine(line) ==> !q.gotName && q.out == p.out
  {
    if IsBlank(line) then p
    else if IsTag(line) then
      Parser(if |p.buf| > 0 then p.out + [p.buf] else p.out, [], true)
    else
      var buf := if p.gotName then p.buf + Header(name) else p.buf;
      Parser(p.out, if |buf| > 0 then buf + line else buf, false)
  }

  /** The main loop of the parser over a sequence of lines. */
  function Feed(name: string, p: Parser, lines: seq<string>): (q: Parser)
    ensures p.out <= q.out
    ensures Consistent(p) ==> Consistent(q)
    decreases |lines|
  {
    if lines == [] then p else Feed(name, Step(name, p, lines[0]), lines[1..])
  }

  /** The end of the parse: a tag still pending on an empty buffer is reported
      as a tag without data; a non-empty buffer is pushed as the last snippet. */
  function Finish(p: Parser): (r: ParseOutcome)
    ensures p.out <= r.out && |r.out| <= |p.out| + 1
    ensures r.tagWithoutData ==> |r.out| == |p.out|
  {
    ParseOutcome(if |p.buf| > 0 then p.out + [p.buf] else p.out, p.gotName && |p.buf| == 0)
  }

  /** A whole parse of a sequence of lines, appending to `out`. */
  function ParseLines(name: string, lines: seq<string>, out: seq<string>): (r: ParseOutcome)
    ensures out <= r.out
  {
    Finish(Feed(name, Parser(out, [], false), lines))
  }

  /** A parse of what is left of a stream; a stream that is not good is left alone. */
  function Parse(name: string, inp: Stream, out: seq<string>): (r: ParseOutcome)
    requires inp.Valid()
    ensures out <= r.out
    ensures !inp.Good() ==> r == ParseOutcome(out, false)
  {
    if !inp.Good() then ParseOutcome(out, false) else ParseLines(name, Reads(inp), out)
  }

  /** A parse of a whole report, as held in a fresh string stream. */
  function ParseText(name: string, text: string, out: seq<string>): (r: ParseOutcome)
    ensures out <= r.out
  {
    Parse(name, Open(text), out)
  }

  /** `s_parse_nut_scanner_output`: reads the stream line by line with
      `s_readline` and does what `Parse` describes. */
  method ParseNutScannerOutput(name: string, inp: Stream, out: seq<string>)
      returns (out': seq<string>, tagWithoutData: bool)
    requires inp.Valid()
    ensures ParseOutcome(out', tagWithoutData) == Parse(name, inp, out)
  {
    out' := out;
    tagWithoutData := false;
    if !inp.Good() {
      return;
    }
    var buf: string := [];
    var gotName := false;
    var s := inp;
    // `good() && !eof()` is `good()`: a good stream has the eof bit clear.
    while s.Good()
      invariant s.Valid()
      invariant Feed(name, Parser(out', buf, gotName), Reads(s)) == Feed(name, Parser(out, [], false), Reads(inp))
      decreases |s.data| - s.pos + (if s.Good() then 1 else 0)
    {
      ghost var before := Parser(out', buf, gotName);
      var line: string;
      var ret: int;
      ret, s, line := ReadLine(s, []);
      assert line[0..] == line;
      FeedFirst(name, before, line, Reads(s));
      if ret == -1 {
        break;
      }
      if |line| == 0 {
        assert Step(name, before, line) == before;
        continue;
      }
      if line[0] == '\n' {
        assert Step(name, before, line) == before;
        continue;
      }
      out', buf, gotName := HandleLine(name, out', buf, gotName, line);
    }
    tagWithoutData := gotName && |buf| == 0;
    if |buf| > 0 {
      out' := out' + [buf];
    }
  }

  /** The body of the main loop for a line that is not blank: a tag flushes
      the buffer and marks the header as pending, another line writes a pending
      header and is appended to a non-empty buffer. */
  method HandleLine(name: string, out: seq<string>, buf: string, gotName: bool, line: string)
      returns (out': seq<string>, buf': string, gotName': bool)
    requires !IsBlank(line)
    ensures Parser(out', buf', gotName') == Step(name, Parser(out, buf, gotName), line)
  {
    out', buf', gotName' := out, buf, gotName;
    if line[0] == '[' {
      if |buf'| > 0 {
        out' := out' + [buf'];
        buf' := [];
      }
      gotName' := true;
    } else {
      if gotName' {
        buf' := buf' + Header(name);
        gotName' := false;
      }
      if |buf'| > 0 {
        buf' := buf' + line;
      }
    }
  }

  /** Feeding a line and then the rest is stepping on the line first. */
  lemma FeedFirst(name: string, p: Parser, line: string, rest: seq<string>)
    ensures Feed(name, p, [line] + rest) == Feed(name, Step(name, p, line), rest)
  {
    assert ([line] + rest)[1..] == rest;
  }
}
