/** An input string stream (std::istringstream) reduced to what the line reader
    observes: the buffer, the read position, and the eof and fail bits. The bad
    bit is never set by a string stream and is not modelled. */
module Stream {

  datatype Stream = Stream(data: string, pos: nat, eof: bool, fail: bool) {

    /** The read position lies inside the buffer. */
    ghost predicate Valid() {
      pos <= |data|
    }

    /** `good()`: neither eof nor fail is set. */
    predicate Good() {
      !eof && !fail
    }

    /** The characters not read yet. */
    function Rest(): string
      requires Valid()
    {
      data[pos..]
    }
  }

  /** What `peek()` or `get()` hands back: a character or the end-of-file marker. */
  datatype Peeked = Char(c: char) | EndOfFile

  /** The stream after an input operation, together with what it returned. */
  datatype Access = Access(s: Stream, got: Peeked)

  /** A freshly constructed stream over `data`: positioned at its start, all bits clear. */
  function Open(data: string): (s: Stream)
    ensures s.Valid() && s.Good() && s.Rest() == data
  {
    Stream(data, 0, false, false)
  }

  /** `peek()`: on a stream that is not good the sentry sets the fail bit and the
      end-of-file marker comes back; at the end of the buffer the eof bit is set;
      otherwise the next character is returned and nothing moves. */
  function Peek(s: Stream): (r: Access)
    requires s.Valid()
    ensures r.s.Valid() && r.s.data == s.data && r.s.pos == s.pos
    ensures r.got.Char? <==> s.Good() && s.pos < |s.data|
    ensures r.got.Char? ==> r.got.c == s.data[s.pos] && r.s == s
    ensures s.Good() && s.pos == |s.data| ==> r.s.eof && !r.s.fail
    ensures !s.Good() ==> r.s.fail
  {
    if !s.Good() then Access(s.(fail := true), EndOfFile)
    else if s.pos == |s.data| then Access(s.(eof := true), EndOfFile)
    else Access(s, Char(s.data[s.pos]))
  }

  /** `get()`: like `peek()`, but a character read advances the position, and
      reading at the end of the buffer sets both the eof and the fail bit. */
  function Get(s: Stream): (r: Access)
    requires s.Valid()
    ensures r.s.Valid() && r.s.data == s.data
    ensures r.got.Char? <==> s.Good() && s.pos < |s.data|
    ensures r.got.Char? ==> r.got.c == s.data[s.pos] && r.s.pos == s.pos + 1 && r.s.Good()
    ensures r.got.EndOfFile? ==> !r.s.Good() && r.s.pos == s.pos
    ensures s.Good() && s.pos == |s.data| ==> r.s.eof && r.s.fail
  {
    if !s.Good() then Access(s.(fail := true), EndOfFile)
    else if s.pos == |s.data| then Access(s.(eof := true, fail := true), EndOfFile)
    else Access(s.(pos := s.pos + 1), Char(s.data[s.pos]))
  }
}
