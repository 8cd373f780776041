/** The line reader of src/nutscan.cc (`s_readline`) and the sequence of lines
    that repeated calls of it produce on a string stream. */
module LineReader {
  import opened Stream

  /** The line ends with a newline character. */
  predicate Terminated(line: string) {
    |line| > 0 && line[|line| - 1] == '\n'
  }

  /** A newline occurs in `line` at most as its last character. */
  predicate NoInnerNewline(line: string) {
    forall i :: 0 <= i < |line| - 1 ==> line[i] != '\n'
  }

  /** The concatenation of a sequence of lines. */
  function Concat(lines: seq<string>): string {
    if lines == [] then [] else lines[0] + Concat(lines[1..])
  }

  /** The line at the front of `rest`: everything up to and including the first
      newline, or all of `rest` when it holds no newline. */
  function FirstLine(rest: string): (text: string)
    ensures text <= rest
    ensures NoInnerNewline(text)
    ensures text == rest || Terminated(text)
  {
    if rest == [] then []
    else if rest[0] == '\n' then ['\n']
    else [rest[0]] + FirstLine(rest[1..])
  }

  /** A newline at most at the end of each line, and every line but the last
      ending in one. */
  predicate NewlineSeparated(lines: seq<string>) {
    && (forall i :: 0 <= i < |lines| ==> NoInnerNewline(lines[i]))
    && (forall i :: 0 <= i < |lines| - 1 ==> Terminated(lines[i]))
  }

  /** The shape of what successive reads deliver: newline-separated lines, at
      least one, the last of which has no newline. */
  predicate LineShaped(lines: seq<string>) {
    && |lines| > 0
    && !Terminated(lines[|lines| - 1])
    && NewlineSeparated(lines)
  }

  /** The lines successive reads deliver from a good stream whose unread part is
      `rest`. A read that stops at a newline leaves the stream good, so the next
      read starts after it; a read that stops at the end of the buffer sets the
      eof bit and is the last one. In particular a buffer ending in a newline
      yields one more, empty, line. The reads give back the input exactly. */
  function LinesFrom(rest: string): (lines: seq<string>)
    ensures Concat(lines) == rest
    ensures LineShaped(lines)
    decreases |rest|
  {
    var text := FirstLine(rest);
    if Terminated(text) then
      var tail := LinesFrom(rest[|text|..]);
      assert rest == text + rest[|text|..];
      ConsLine(text, tail);
      [text] + tail
    else
      assert Concat([text]) == text + Concat([]);
      [text]
  }

  /** A complete line put in front of the reads that follow it. */
  lemma ConsLine(text: string, tail: seq<string>)
    requires Terminated(text) && NoInnerNewline(text) && LineShaped(tail)
    ensures Concat([text] + tail) == text + Concat(tail)
    ensures LineShaped([text] + tail)
  {
    ConcatCons(text, tail);
  }

  /** Concatenation unfolds from the front. */
  lemma ConcatCons(line: string, lines: seq<string>)
    ensures Concat([line] + lines) == line + Concat(lines)
  {
    assert ([line] + lines)[1..] == lines;
  }

  /** The lines still to be read from `s`: none once it is not good. */
  function Reads(s: Stream): seq<string>
    requires s.Valid()
  {
    if s.Good() then LinesFrom(s.Rest()) else []
  }

  /** `s_readline`: returns -1 and leaves `line` alone when the stream is not
      good; otherwise appends the next line of the stream to `line` (its newline
      included) and returns the number of characters before the newline. */
  method ReadLine(inp: Stream, line: string) returns (ret: int, inp': Stream, line': string)
    requires inp.Valid()
    ensures inp'.Valid() && inp'.data == inp.data
    ensures !inp.Good() ==> ret == -1 && inp' == inp && line' == line
    ensures inp.Good() ==> line' == line + FirstLine(inp.Rest())
    ensures inp.Good() ==> ret == |FirstLine(inp.Rest())| - (if Terminated(FirstLine(inp.Rest())) then 1 else 0)
    ensures inp.Good() ==> |line| <= |line'| && Reads(inp) == [line'[|line|..]] + Reads(inp')
    ensures inp.pos <= inp'.pos && (inp.Good() && inp'.Good() ==> inp.pos < inp'.pos)
  {
    if !inp.Good() {
      return -1, inp, line;
    }
    var s, buf;
    ret, s, buf := ScanLine(inp);
    inp', buf := EndLine(inp, s, buf);
    line' := line + buf;
    assert line'[|line|..] == buf;
  }

  /** The end of `s_readline`, after the counting loop: a newline waiting at the
      read position is taken and appended, which completes the first line of
      what was unread; the reads left are those after that line. */
  method EndLine(inp: Stream, s: Stream, buf: string) returns (s': Stream, buf': string)
    requires inp.Valid() && inp.Good() && s.Valid() && s.data == inp.data && inp.pos <= s.pos
    requires buf == inp.data[inp.pos..s.pos]
    requires forall i :: inp.pos <= i < s.pos ==> s.data[i] != '\n'
    requires s.Good() ==> s.pos < |s.data| && s.data[s.pos] == '\n'
    requires !s.Good() ==> s.pos == |s.data|
    ensures s'.Valid() && s'.data == inp.data && s.pos <= s'.pos
    ensures buf' == FirstLine(inp.Rest())
    ensures buf' == buf + (if s.Good() then "\n" else "")
    ensures Terminated(buf') <==> s.Good()
    ensures Reads(inp) == [buf'] + Reads(s')
    ensures s'.Good() ==> inp.pos < s'.pos
  {
    var p := Peek(s);
    s' := p.s;
    buf' := buf;
    if p.got == Char('\n') {
      var g := Get(s');
      s' := g.s;
      buf' := buf' + [g.got.c];
    }
    assert buf' == inp.data[inp.pos..s'.pos];
    assert buf' == FirstLine(inp.Rest()) by {
      FirstLineUpTo(inp.data, inp.pos, s.pos);
    }
    assert Terminated(buf') <==> s.Good();
    ReadsAfterLine(inp, s');
  }

  /** The counting loop of `s_readline`: copies characters until the next one
      is a newline or the buffer is exhausted, and counts them. When it stops at
      a newline the stream is still good; otherwise the eof bit is set. */
  method ScanLine(inp: Stream) returns (ret: int, s: Stream, buf: string)
    requires inp.Valid() && inp.Good()
    ensures s.Valid() && s.data == inp.data && inp.pos <= s.pos
    ensures buf == inp.data[inp.pos..s.pos] && ret == |buf|
    ensures forall i :: inp.pos <= i < s.pos ==> s.data[i] != '\n'
    ensures s.Good() ==> s.pos < |s.data| && s.data[s.pos] == '\n'
    ensures !s.Good() ==> s.pos == |s.data|
  {
    s := inp;
    buf := [];
    ret := 0;
    while s.Good()
      invariant s.Valid() && s.data == inp.data && inp.pos <= s.pos
      invariant buf == inp.data[inp.pos..s.pos] && ret == |buf|
      invariant forall i :: inp.pos <= i < s.pos ==> s.data[i] != '\n'
      invariant !s.Good() ==> s.pos == |s.data|
      decreases |s.data| - s.pos
    {
      var p := Peek(s);
      s := p.s;
      if p.got == Char('\n') {
        break;
      }
      var g := Get(s);
      s := g.s;
      if s.eof {
        break;
      }
      buf := buf + [g.got.c];
      ret := ret + 1;
    }
  }

  /** The first line is the newline-free stretch at the front, plus the newline
      that ends it if there is one. */
  lemma {:induction false} FirstLineUpTo(data: string, from: nat, to: nat)
    requires from <= to <= |data|
    requires forall i :: from <= i < to ==> data[i] != '\n'
    ensures to < |data| && data[to] == '\n' ==> FirstLine(data[from..]) == data[from..to + 1]
    ensures to == |data| ==> FirstLine(data[from..]) == data[from..]
    decreases |data| - from
  {
    if from < to {
      FirstLineUpTo(data, from + 1, to);
      assert data[from..][1..] == data[from + 1..];
      if to < |data| {
        assert data[from..to + 1] == [data[from]] + data[from + 1..to + 1];
      }
    }
  }

  /** After one line has been read, the reads left are those that followed it. */
  lemma ReadsAfterLine(inp: Stream, s: Stream)
    requires inp.Valid() && s.Valid() && inp.Good() && s.data == inp.data
    requires Terminated(FirstLine(inp.Rest())) ==> s.Good() && s.pos == inp.pos + |FirstLine(inp.Rest())|
    requires !Terminated(FirstLine(inp.Rest())) ==> !s.Good()
    ensures Reads(inp) == [FirstLine(inp.Rest())] + Reads(s)
  {
    var text := FirstLine(inp.Rest());
    if Terminated(text) {
      assert inp.Rest()[|text|..] == s.Rest();
    }
  }
}
