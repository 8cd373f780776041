/** A reference description of what the snippet parser produces, written
    section by section rather than line by line, and the properties of the
    parser proved against it. */
module SnippetSections {
  import opened Stream
  import opened LineReader
  import opened SnippetParser

  /** The body that `lines` give the section they continue: the body lines up
      to the next tag, blank lines left out. */
  function Body(lines: seq<string>): (body: seq<string>)
    ensures forall i :: 0 <= i < |body| ==> IsBodyLine(body[i])
    ensures |body| <= |lines|
  {
    if lines == [] || IsTag(lines[0]) then []
    else if IsBlank(lines[0]) then Body(lines[1..])
    else [lines[0]] + Body(lines[1..])
  }

  /** The bodies of the sections of `lines`, one per tag, in order. Lines before
      the first tag belong to no section. */
  function Bodies(lines: seq<string>): (bodies: seq<seq<string>>)
    ensures |bodies| <= |lines|
  {
    if lines == [] then []
    else if IsTag(lines[0]) then [Body(lines[1..])] + Bodies(lines[1..])
    else Bodies(lines[1..])
  }

  /** The snippets the sections become: one for each section with a body, the
      device's header followed by the body lines. */
  function Render(name: string, bodies: seq<seq<string>>): (snippets: seq<string>)
    ensures |snippets| <= |bodies|
    ensures forall k :: 0 <= k < |snippets| ==> Header(name) <= snippets[k]
  {
    if bodies == [] then []
    else if bodies[0] == [] then Render(name, bodies[1..])
    else [Header(name) + Concat(bodies[0])] + Render(name, bodies[1..])
  }

  /** The number of tags followed by at least one body line before the next tag. */
  function TagsWithBody(lines: seq<string>): nat {
    if lines == [] then 0
    else (if IsTag(lines[0]) && Body(lines[1..]) != [] then 1 else 0) + TagsWithBody(lines[1..])
  }

  /** The last tag of `lines` has no body. */
  predicate LastSectionEmpty(lines: seq<string>) {
    var bodies := Bodies(lines);
    |bodies| > 0 && bodies[|bodies| - 1] == []
  }

  /** What the section open in parser state `p` becomes once `lines` follow it. */
  function Pending(name: string, p: Parser, lines: seq<string>): seq<string> {
    if p.buf != [] then [p.buf + Concat(Body(lines))]
    else if p.gotName && Body(lines) != [] then [Header(name) + Concat(Body(lines))]
    else []
  }

  /** The parser, started in any consistent state, pushes the open section and
      then the rendered sections of the lines it is fed. */
  lemma {:induction false} FeedFinish(name: string, p: Parser, lines: seq<string>)
    requires Consistent(p)
    ensures Finish(Feed(name, p, lines)).out == p.out + Pending(name, p, lines) + Render(name, Bodies(lines))
    decreases |lines|
  {
    if lines == [] {
      assert p.buf + Concat([]) == p.buf;
    } else {
      var line, rest := lines[0], lines[1..];
      var q := Step(name, p, line);
      FeedFinish(name, q, rest);
      assert Feed(name, p, lines) == Feed(name, q, rest);
      StepPending(name, p, lines);
    }
  }

  /** One step of the parser moves a line from the lines to come into the
      state, without changing what the parse ends with. */
  lemma StepPending(name: string, p: Parser, lines: seq<string>)
    requires Consistent(p) && lines != []
    ensures var q := Step(name, p, lines[0]);
      q.out + Pending(name, q, lines[1..]) + Render(name, Bodies(lines[1..])) ==
      p.out + Pending(name, p, lines) + Render(name, Bodies(lines))
  {
    var line, rest := lines[0], lines[1..];
    var q := Step(name, p, line);
    if IsBlank(line) {
      assert q == p;
      assert Body(lines) == Body(rest) && Bodies(lines) == Bodies(rest);
    } else if IsTag(line) {
      StepTag(name, p, lines);
      var later := Pending(name, q, rest) + Render(name, Bodies(rest));
      assert q.out + Pending(name, q, rest) + Render(name, Bodies(rest)) == q.out + later;
    } else {
      StepBody(name, p, lines);
    }
  }

  /** A tag closes the open section and opens the next one. */
  lemma StepTag(name: string, p: Parser, lines: seq<string>)
    requires Consistent(p) && lines != [] && IsTag(lines[0])
    ensures var q := Step(name, p, lines[0]);
      && q.out == p.out + Pending(name, p, lines)
      && Pending(name, q, lines[1..]) + Render(name, Bodies(lines[1..])) == Render(name, Bodies(lines))
  {
    var rest := lines[1..];
    var q := Step(name, p, lines[0]);
    assert Body(lines) == [];
    assert Bodies(lines) == [Body(rest)] + Bodies(rest);
    RenderAppend(name, [Body(rest)], Bodies(rest));
    assert Pending(name, q, rest) == Render(name, [Body(rest)]);
    assert p.buf + Concat([]) == p.buf;
  }

  /** A body line joins the open section, if there is one. */
  lemma StepBody(name: string, p: Parser, lines: seq<string>)
    requires Consistent(p) && lines != [] && IsBodyLine(lines[0])
    ensures var q := Step(name, p, lines[0]);
      && q.out == p.out
      && Pending(name, q, lines[1..]) == Pending(name, p, lines)
      && Bodies(lines[1..]) == Bodies(lines)
  {
    var line, rest := lines[0], lines[1..];
    assert Body(lines) == [line] + Body(rest);
    assert Bodies(lines) == Bodies(rest);
    if p.buf != [] || p.gotName {
      var q := Step(name, p, line);
      var front := if p.buf != [] then p.buf else Header(name);
      var body := Concat(Body(rest));
      ConcatCons(line, Body(rest));
      assert Concat(Body(lines)) == line + body;
      JoinSection(name, p, line);
      Associative(front, line, body);
      assert Pending(name, q, rest) == [q.buf + body];
      assert Pending(name, p, lines) == [front + Concat(Body(lines))];
    } else {
      assert Step(name, p, line) == p;
    }
  }

  /** Concatenation of strings is associative. */
  lemma Associative(a: string, b: string, c: string)
    ensures (a + b) + c == a + (b + c)
  {
  }

  /** A body line joins an open section: it is appended to the buffer, or to
      the pending header. */
  lemma JoinSection(name: string, p: Parser, line: string)
    requires Consistent(p) && IsBodyLine(line) && (p.buf != [] || p.gotName)
    ensures var q := Step(name, p, line);
      && q.out == p.out && !q.gotName
      && q.buf == (if p.buf != [] then p.buf else Header(name)) + line
  {
    if p.buf == [] {
      assert [] + Header(name) == Header(name);
    }
  }

  /** The parser, started in any consistent state, reports a tag without data
      exactly when the last section it saw has no body; with no tag among the
      lines, when a tag was pending and no body line followed. */
  lemma {:induction false} FeedFinishFlag(name: string, p: Parser, lines: seq<string>)
    requires Consistent(p)
    ensures Finish(Feed(name, p, lines)).tagWithoutData <==>
      if Bodies(lines) == [] then p.gotName && Body(lines) == []
      else Bodies(lines)[|Bodies(lines)| - 1] == []
    decreases |lines|
  {
    if lines != [] {
      var line, rest := lines[0], lines[1..];
      var q := Step(name, p, line);
      FeedFinishFlag(name, q, rest);
      assert Feed(name, p, lines) == Feed(name, q, rest);
      if IsBlank(line) {
        assert Body(lines) == Body(rest) && Bodies(lines) == Bodies(rest);
      } else if IsTag(line) {
        assert Bodies(lines) == [Body(rest)] + Bodies(rest);
      } else {
        assert Bodies(lines) == Bodies(rest) && Body(lines) != [];
      }
    }
  }

  /** Rendering distributes over concatenation of section lists. */
  lemma {:induction false} RenderAppend(name: string, xs: seq<seq<string>>, ys: seq<seq<string>>)
    ensures Render(name, xs + ys) == Render(name, xs) + Render(name, ys)
    decreases |xs|
  {
    if xs == [] {
      assert xs + ys == ys;
    } else {
      RenderAppend(name, xs[1..], ys);
      assert (xs + ys)[0] == xs[0];
      assert (xs + ys)[1..] == xs[1..] + ys;
    }
  }

  /** The parse, characterised: the existing entries of `out` are kept, the
      rendered sections follow in order, and a tag without data is reported
      exactly when the last tag has no body. */
  lemma ParseLinesCharacterised(name: string, lines: seq<string>, out: seq<string>)
    ensures ParseLines(name, lines, out).out == out + Render(name, Bodies(lines))
    ensures ParseLines(name, lines, out).tagWithoutData <==> LastSectionEmpty(lines)
  {
    FeedFinish(name, Parser(out, [], false), lines);
    FeedFinishFlag(name, Parser(out, [], false), lines);
  }

  /** The same for a stream: what is left of it is read line by line. */
  lemma ParseCharacterised(name: string, inp: Stream, out: seq<string>)
    requires inp.Valid()
    ensures Parse(name, inp, out).out == out + Render(name, Bodies(Reads(inp)))
    ensures Parse(name, inp, out).tagWithoutData <==> LastSectionEmpty(Reads(inp))
  {
    if inp.Good() {
      ParseLinesCharacterised(name, Reads(inp), out);
    }
  }

  /** Without a tag line there are no sections. */
  lemma {:induction false} BodiesWithoutTag(pre: seq<string>, lines: seq<string>)
    requires forall i :: 0 <= i < |pre| ==> !IsTag(pre[i])
    ensures Bodies(pre + lines) == Bodies(lines)
    decreases |pre|
  {
    if pre == [] {
      assert pre + lines == lines;
    } else {
      BodiesWithoutTag(pre[1..], lines);
      assert (pre + lines)[0] == pre[0] && !IsTag(pre[0]);
      assert (pre + lines)[1..] == pre[1..] + lines;
    }
  }

  /** If no line is a tag, nothing is pushed and no error is reported. */
  lemma NoTagNoSnippet(name: string, lines: seq<string>, out: seq<string>)
    requires forall i :: 0 <= i < |lines| ==> !IsTag(lines[i])
    ensures ParseLines(name, lines, out) == ParseOutcome(out, false)
  {
    BodiesWithoutTag(lines, []);
    assert lines + [] == lines;
    ParseLinesCharacterised(name, lines, out);
  }

  /** Lines before the first tag are dropped: they change nothing. */
  lemma PreambleDropped(name: string, pre: seq<string>, lines: seq<string>, out: seq<string>)
    requires forall i :: 0 <= i < |pre| ==> !IsTag(pre[i])
    ensures ParseLines(name, pre + lines, out) == ParseLines(name, lines, out)
  {
    BodiesWithoutTag(pre, lines);
    ParseLinesCharacterised(name, pre + lines, out);
    ParseLinesCharacterised(name, lines, out);
  }

  /** One snippet per tag that is followed by a body line. */
  lemma {:induction false} RenderCount(name: string, lines: seq<string>)
    ensures |Render(name, Bodies(lines))| == TagsWithBody(lines)
    decreases |lines|
  {
    if lines != [] {
      RenderCount(name, lines[1..]);
      if IsTag(lines[0]) {
        RenderAppend(name, [Body(lines[1..])], Bodies(lines[1..]));
      }
    }
  }

  /** The number of snippets pushed is the number of tags with a body. */
  lemma SnippetCount(name: string, lines: seq<string>, out: seq<string>)
    ensures |ParseLines(name, lines, out).out| == |out| + TagsWithBody(lines)
  {
    ParseLinesCharacterised(name, lines, out);
    RenderCount(name, lines);
  }

  /** Every snippet pushed starts with the device's header, whatever label the
      tool printed. */
  lemma SnippetsLabelled(name: string, lines: seq<string>, out: seq<string>)
    ensures forall k :: |out| <= k < |ParseLines(name, lines, out).out| ==>
      Header(name) <= ParseLines(name, lines, out).out[k]
  {
    ParseLinesCharacterised(name, lines, out);
  }

  /** A section ends where the next tag begins. */
  lemma {:induction false} BodyBeforeTag(a: seq<string>, b: seq<string>)
    requires b == [] || IsTag(b[0])
    ensures Body(a + b) == Body(a)
    decreases |a|
  {
    if a == [] {
    } else {
      BodyBeforeTag(a[1..], b);
      assert (a + b)[1..] == a[1..] + b;
    }
  }

  /** Splitting the lines in front of a tag splits the sections. */
  lemma {:induction false} BodiesBeforeTag(a: seq<string>, b: seq<string>)
    requires b == [] || IsTag(b[0])
    ensures Bodies(a + b) == Bodies(a) + Bodies(b)
    decreases |a|
  {
    if a == [] {
      assert a + b == b;
    } else {
      BodiesBeforeTag(a[1..], b);
      BodyBeforeTag(a[1..], b);
      assert (a + b)[1..] == a[1..] + b;
    }
  }

  /** Sections are handled independently and in order: parsing `a` and then,
      from a tag on, `b` is parsing `a + b`. The error flag is decided by the
      last section. */
  lemma SectionsInOrder(name: string, a: seq<string>, b: seq<string>, out: seq<string>)
    requires b != [] && IsTag(b[0])
    ensures ParseLines(name, a + b, out) == ParseLines(name, b, ParseLines(name, a, out).out)
  {
    var mid := ParseLines(name, a, out).out;
    ParseLinesCharacterised(name, a, out);
    ParseLinesCharacterised(name, b, mid);
    ParseLinesCharacterised(name, a + b, out);
    SectionsSplit(name, a, b, out);
  }

  /** The section-wise description splits in front of a tag: the rendered
      sections of `b` follow those of `a`, and the last section is that of `b`. */
  lemma SectionsSplit(name: string, a: seq<string>, b: seq<string>, out: seq<string>)
    requires b != [] && IsTag(b[0])
    ensures out + Render(name, Bodies(a + b)) == (out + Render(name, Bodies(a))) + Render(name, Bodies(b))
    ensures LastSectionEmpty(a + b) <==> LastSectionEmpty(b)
  {
    var xs, ys := Bodies(a), Bodies(b);
    BodiesBeforeTag(a, b);
    RenderAppend(name, xs, ys);
    assert ys == [Body(b[1..])] + Bodies(b[1..]);
    assert (xs + ys)[|xs + ys| - 1] == ys[|ys| - 1];
  }

  /** A tag followed only by blank lines up to the next tag or the end of the
      report yields no snippet; at the end of the report it is reported as a
      tag without data. */
  lemma EmptySectionDropped(name: string, a: seq<string>, tag: string, blanks: seq<string>,
                            b: seq<string>, out: seq<string>)
    requires IsTag(tag) && (b == [] || IsTag(b[0]))
    requires forall i :: 0 <= i < |blanks| ==> IsBlank(blanks[i])
    ensures ParseLines(name, a + ([tag] + (blanks + b)), out).out == ParseLines(name, a + b, out).out
    ensures b == [] ==> ParseLines(name, a + ([tag] + (blanks + b)), out).tagWithoutData
  {
    var section := [tag] + (blanks + b);
    var xs, ys := Bodies(a), Bodies(b);
    assert Bodies(section) == [[]] + ys by {
      assert section[1..] == blanks + b;
      BodyBeforeTag(blanks, b);
      BodyOfBodyLines([], blanks);
      assert [] + blanks == blanks;
      BodiesWithoutTag(blanks, b);
    }
    assert Bodies(a + section) == xs + ([[]] + ys) by {
      BodiesBeforeTag(a, section);
    }
    assert Bodies(a + b) == xs + ys by {
      BodiesBeforeTag(a, b);
    }
    assert Render(name, xs + ([[]] + ys)) == Render(name, xs + ys) by {
      RenderAppend(name, xs, [[]] + ys);
      RenderAppend(name, [[]], ys);
      RenderAppend(name, xs, ys);
      assert Render(name, [[]]) == [];
    }
    ParseLinesCharacterised(name, a + section, out);
    ParseLinesCharacterised(name, a + b, out);
    if b == [] {
      assert ys == [];
      assert (xs + ([[]] + ys))[|xs + ([[]] + ys)| - 1] == [];
    }
  }

  /** A body as the parser can collect it from a report: body lines, each with
      a newline at most at its end, all but the last ending in one. */
  predicate WellFormedBody(body: seq<string>) {
    && (forall i :: 0 <= i < |body| ==> IsBodyLine(body[i]))
    && NewlineSeparated(body)
  }

  /** The body collected from newline-separated lines is well formed. */
  lemma {:induction false} BodyWellFormed(lines: seq<string>)
    requires NewlineSeparated(lines)
    ensures WellFormedBody(Body(lines))
    decreases |lines|
  {
    if lines != [] && !IsTag(lines[0]) {
      SeparatedTail(lines);
      BodyWellFormed(lines[1..]);
      if !IsBlank(lines[0]) {
        var body := [lines[0]] + Body(lines[1..]);
        assert body[1..] == Body(lines[1..]);
        assert Body(lines[1..]) != [] ==> |lines| > 1;
      }
    }
  }

  /** Every body collected from newline-separated lines is well formed. */
  lemma {:induction false} BodiesWellFormed(lines: seq<string>)
    requires NewlineSeparated(lines)
    ensures forall j :: 0 <= j < |Bodies(lines)| ==> WellFormedBody(Bodies(lines)[j])
    decreases |lines|
  {
    if lines != [] {
      SeparatedTail(lines);
      BodiesWellFormed(lines[1..]);
      BodyWellFormed(lines[1..]);
    }
  }

  /** A line with a newline at most at its end, and ending in one unless nothing
      follows it, is the first line read. */
  lemma FirstLineOf(line: string, rest: string)
    requires NoInnerNewline(line) && (Terminated(line) || rest == [])
    ensures FirstLine(line + rest) == line
  {
    var data := line + rest;
    assert data[0..] == data;
    if Terminated(line) {
      FirstLineUpTo(data, 0, |line| - 1);
      assert data[..|line|] == line;
    } else {
      FirstLineUpTo(data, 0, |line|);
    }
  }

  /** The first of newline-separated lines, and the ones after it. */
  lemma SeparatedTail(lines: seq<string>)
    requires NewlineSeparated(lines) && lines != []
    ensures NoInnerNewline(lines[0]) && (|lines| > 1 ==> Terminated(lines[0]))
    ensures NewlineSeparated(lines[1..])
  {
    var rest := lines[1..];
    assert forall i :: 0 <= i < |rest| ==> rest[i] == lines[i + 1];
  }

  /** A complete line in front of more input is read first, on its own. */
  lemma ReadCons(line: string, rest: string)
    requires NoInnerNewline(line) && Terminated(line)
    ensures LinesFrom(line + rest) == [line] + LinesFrom(rest)
  {
    FirstLineOf(line, rest);
    assert (line + rest)[|line|..] == rest;
  }

  /** A last line is read as it is, followed by an empty line if it ends in a
      newline. */
  lemma ReadLast(line: string)
    requires NoInnerNewline(line)
    ensures LinesFrom(line) == [line] + (if Terminated(line) then [[]] else [])
  {
    assert line + [] == line;
    FirstLineOf(line, []);
    if Terminated(line) {
      assert line[|line|..] == [];
    }
  }

  /** The empty line that a read after a final newline yields. */
  function Trailer(lines: seq<string>): seq<string> {
    if lines == [] || Terminated(lines[|lines| - 1]) then [[]] else []
  }

  /** Reading back concatenated newline-separated lines gives them back, plus
      the empty line a final newline yields. */
  lemma {:induction false} ReadBack(lines: seq<string>)
    requires NewlineSeparated(lines)
    ensures LinesFrom(Concat(lines)) == lines + Trailer(lines)
    decreases |lines|
  {
    if lines != [] {
      var line, rest := lines[0], lines[1..];
      SeparatedTail(lines);
      assert lines == [line] + rest;
      if rest == [] {
        ConcatCons(line, rest);
        assert Concat(lines) == line + [];
        ReadLast(line);
      } else {
        ReadBack(rest);
        ReadBackCons(line, rest);
      }
    }
  }

  /** The inductive step of `ReadBack`. */
  lemma ReadBackCons(line: string, rest: seq<string>)
    requires NoInnerNewline(line) && Terminated(line) && rest != []
    requires LinesFrom(Concat(rest)) == rest + Trailer(rest)
    ensures LinesFrom(Concat([line] + rest)) == [line] + rest + Trailer([line] + rest)
  {
    var tail := Trailer(rest);
    assert Concat([line] + rest) == line + Concat(rest) by {
      ConcatCons(line, rest);
    }
    assert LinesFrom(line + Concat(rest)) == [line] + (rest + tail) by {
      ReadCons(line, Concat(rest));
    }
    assert Trailer([line] + rest) == tail by {
      assert ([line] + rest)[|[line] + rest| - 1] == rest[|rest| - 1];
    }
    assert [line] + (rest + tail) == [line] + rest + tail;
  }

  /** Blank lines after the last body line add nothing to the body. */
  lemma {:induction false} BodyOfBodyLines(body: seq<string>, tail: seq<string>)
    requires forall i :: 0 <= i < |body| ==> IsBodyLine(body[i])
    requires forall i :: 0 <= i < |tail| ==> IsBlank(tail[i])
    ensures Body(body + tail) == body
    decreases |body| + |tail|
  {
    if body != [] {
      BodyOfBodyLines(body[1..], tail);
      assert (body + tail)[1..] == body[1..] + tail;
    } else if tail != [] {
      BodyOfBodyLines([], tail[1..]);
      assert ([] + tail)[1..] == [] + tail[1..];
    }
  }

  /** The header is a complete tag line when the name holds no newline. */
  lemma HeaderLine(name: string)
    requires '\n' !in name
    ensures IsTag(Header(name)) && Terminated(Header(name)) && NoInnerNewline(Header(name))
  {
    var header := Header(name);
    assert forall i :: 1 <= i < |header| - 2 ==> header[i] == name[i - 1];
  }

  /** A snippet read back line by line: its header, its body lines, and the
      empty line a final newline yields. */
  lemma SnippetReadBack(name: string, body: seq<string>)
    requires '\n' !in name && WellFormedBody(body)
    ensures LinesFrom(Header(name) + Concat(body)) == [Header(name)] + body + Trailer(body)
  {
    var lines := [Header(name)] + body;
    HeaderLine(name);
    assert lines[1..] == body;
    assert NewlineSeparated(lines);
    ConcatCons(Header(name), body);
    ReadBack(lines);
    assert Trailer(lines) == Trailer(body);
  }

  /** A tag followed by body lines and blank lines is one section. */
  lemma OneSection(tag: string, body: seq<string>, tail: seq<string>)
    requires IsTag(tag)
    requires forall i :: 0 <= i < |body| ==> IsBodyLine(body[i])
    requires forall i :: 0 <= i < |tail| ==> IsBlank(tail[i])
    ensures Bodies([tag] + (body + tail)) == [body]
  {
    var lines := [tag] + (body + tail);
    assert lines[0] == tag && lines[1..] == body + tail;
    BodyOfBodyLines(body, tail);
    BodiesWithoutTag(body + tail, []);
    assert body + tail + [] == body + tail;
    assert Bodies(lines) == [Body(body + tail)] + Bodies(body + tail);
  }

  /** Read line by line, `snippet` opens with the device's header and holds no
      other tag line. */
  predicate OwnTagOnly(name: string, snippet: string) {
    LinesFrom(snippet)[0] == Header(name) && NoLaterTag(LinesFrom(snippet))
  }

  /** No line after the first is a tag. */
  predicate NoLaterTag(read: seq<string>) {
    forall j :: 1 <= j < |read| ==> !IsTag(read[j])
  }

  /** A snippet built from a well-formed body, read back line by line, is the
      device's header followed by the body lines: no other tag appears in it. */
  lemma SnippetHasOneTag(name: string, body: seq<string>)
    requires '\n' !in name && WellFormedBody(body)
    ensures OwnTagOnly(name, Header(name) + Concat(body))
  {
    var read := LinesFrom(Header(name) + Concat(body));
    var tail := Trailer(body);
    assert read == [Header(name)] + (body + tail) by {
      SnippetReadBack(name, body);
    }
    assert NoLaterTag([Header(name)] + (body + tail)) by {
      assert tail == [] || tail == [[]];
      NoTagAfterHeader(Header(name), body, tail);
    }
  }

  /** Body lines and at most one empty line after a first line hold no tag. */
  lemma NoTagAfterHeader(header: string, body: seq<string>, tail: seq<string>)
    requires forall i :: 0 <= i < |body| ==> IsBodyLine(body[i])
    requires tail == [] || tail == [[]]
    ensures NoLaterTag([header] + (body + tail))
  {
    var read := [header] + (body + tail);
    forall j | 1 <= j < |read|
      ensures !IsTag(read[j])
    {
      assert read[j] == (body + tail)[j - 1];
      if j <= |body| {
        assert read[j] == body[j - 1];
      } else {
        assert read[j] == tail[0];
      }
    }
  }

  /** A snippet built from a well-formed body, parsed again under the same
      name, reproduces itself. */
  lemma Reparse(name: string, body: seq<string>, out: seq<string>)
    requires '\n' !in name
    requires body != [] && WellFormedBody(body)
    ensures ParseText(name, Header(name) + Concat(body), out) ==
      ParseOutcome(out + [Header(name) + Concat(body)], false)
  {
    var snippet := Header(name) + Concat(body);
    var read := [Header(name)] + (body + Trailer(body));
    SnippetReadBack(name, body);
    assert [Header(name)] + body + Trailer(body) == read;
    assert Reads(Open(snippet)) == read;
    ReparseLines(name, body, out);
  }

  /** The lines of a snippet make one section, rendered as the snippet. */
  lemma ReparseLines(name: string, body: seq<string>, out: seq<string>)
    requires '\n' !in name
    requires body != [] && WellFormedBody(body)
    ensures ParseLines(name, [Header(name)] + (body + Trailer(body)), out) ==
      ParseOutcome(out + [Header(name) + Concat(body)], false)
  {
    var tail := Trailer(body);
    var read := [Header(name)] + (body + tail);
    HeaderLine(name);
    assert forall i :: 0 <= i < |tail| ==> tail[i] == [];
    OneSection(Header(name), body, tail);
    assert Render(name, [body]) == [Header(name) + Concat(body)] + Render(name, []);
    ParseLinesCharacterised(name, read, out);
  }

  /** `snippet`, parsed under `name` into an empty vector, gives back itself
      and reports no error. */
  predicate Reproduces(name: string, snippet: string) {
    ParseText(name, snippet, []) == ParseOutcome([snippet], false)
  }

  /** Every snippet the parser pushes for a report, parsed again under the same
      name, reproduces itself and nothing else. */
  lemma ReparseIdempotent(name: string, text: string, out: seq<string>)
    requires '\n' !in name
    ensures forall k :: |out| <= k < |ParseText(name, text, out).out| ==>
      Reproduces(name, ParseText(name, text, out).out[k])
  {
    var lines := LinesFrom(text);
    assert Reads(Open(text)) == lines;
    ParseLinesCharacterised(name, lines, out);
    BodiesWellFormed(lines);
    ReparseRendered(name, Bodies(lines));
    var r := ParseText(name, text, out);
    assert forall k :: |out| <= k < |r.out| ==> r.out[k] == Render(name, Bodies(lines))[k - |out|];
  }

  /** Each rendered snippet of well-formed bodies reparses to itself. */
  lemma {:induction false} ReparseRendered(name: string, bodies: seq<seq<string>>)
    requires '\n' !in name
    requires forall j :: 0 <= j < |bodies| ==> WellFormedBody(bodies[j])
    ensures forall k :: 0 <= k < |Render(name, bodies)| ==> Reproduces(name, Render(name, bodies)[k])
    decreases |bodies|
  {
    if bodies != [] {
      ReparseRendered(name, bodies[1..]);
      if bodies[0] != [] {
        Reparse(name, bodies[0], []);
        assert [] + [Header(name) + Concat(bodies[0])] == [Header(name) + Concat(bodies[0])];
      }
    }
  }

  /** No label of the tool survives: read line by line, every snippet the parser
      pushes holds the device's header as its only tag line. */
  lemma SnippetsCarryOwnTagOnly(name: string, text: string, out: seq<string>)
    requires '\n' !in name
    ensures forall k :: |out| <= k < |ParseText(name, text, out).out| ==>
      OwnTagOnly(name, ParseText(name, text, out).out[k])
  {
    var lines := LinesFrom(text);
    assert Reads(Open(text)) == lines;
    ParseLinesCharacterised(name, lines, out);
    BodiesWellFormed(lines);
    RenderedOwnTagOnly(name, Bodies(lines));
    var r := ParseText(name, text, out);
    assert forall k :: |out| <= k < |r.out| ==> r.out[k] == Render(name, Bodies(lines))[k - |out|];
  }

  /** Each rendered snippet of well-formed bodies carries only its header tag. */
  lemma {:induction false} RenderedOwnTagOnly(name: string, bodies: seq<seq<string>>)
    requires '\n' !in name
    requires forall j :: 0 <= j < |bodies| ==> WellFormedBody(bodies[j])
    ensures forall k :: 0 <= k < |Render(name, bodies)| ==> OwnTagOnly(name, Render(name, bodies)[k])
    decreases |bodies|
  {
    if bodies != [] {
      RenderedOwnTagOnly(name, bodies[1..]);
      if bodies[0] != [] {
        SnippetHasOneTag(name, bodies[0]);
      }
    }
  }
}
