/** Writing a request the way an HTTP client does, and reading it back. */
module RequestWriting {
  import opened Tasks
  import opened Sequences
  import opened Chunks
  import opened Utf8
  import opened CodePoints
  import opened RequestAuth
  import opened RequestHead
  import opened RequestReader

  const SPACE: byte := 32
  const VERSION: string := "HTTP/1.1"

  function RequestLine(r: HttpRequest): Bytes {
    r.verb + [SPACE] + (r.path + [SPACE] + Ascii(VERSION))
  }

  function HeaderLine(h: Header): Bytes {
    h.key + [COLON] + ([SPACE] + h.value)
  }

  function HeaderLines(headers: seq<Header>): (lines: seq<Bytes>)
    ensures |lines| == |headers|
    ensures forall i :: 0 <= i < |headers| ==> lines[i] == HeaderLine(headers[i])
  {
    seq(|headers|, i requires 0 <= i < |headers| => HeaderLine(headers[i]))
  }

  function JoinLines(lines: seq<Bytes>): Bytes
    requires lines != []
  {
    if |lines| == 1 then lines[0] else lines[0] + CRLF + JoinLines(lines[1..])
  }

  function Lines(r: HttpRequest): (lines: seq<Bytes>)
    ensures lines != []
  {
    [RequestLine(r)] + HeaderLines(r.headers)
  }

  function WriteRequest(r: HttpRequest): Bytes {
    JoinLines(Lines(r)) + (BLANK_LINE + r.body)
  }

  // ---------------------------------------------------------------------
  // What can be written
  // ---------------------------------------------------------------------

  /** Text without white space. */
  predicate Word(w: Bytes) {
    w != [] && WellFormed(w) && WordLen(w) == |w| && Free(w, CR)
  }

  predicate WritableHeader(h: Header) {
    && WellFormed(h.key) && Free(h.key, CR) && Free(h.key, COLON) && Trim(h.key) == h.key
    && WellFormed(h.value) && Free(h.value, CR) && Trim(h.value) == h.value
  }

  /** A head within the limit. */
  predicate WritableHead(r: HttpRequest) {
    && Word(r.verb) && Word(r.path)
    && (forall i :: 0 <= i < |r.headers| ==> WritableHeader(r.headers[i]))
    && |JoinLines(Lines(r))| + 4 <= MAX_REQUEST_BYTES
  }

  /** And a body whose length is the content length. */
  predicate Writable(r: HttpRequest) {
    WritableHead(r) && WellFormed(r.body) && ContentLength(r.headers) == |r.body| <= MAX_REQUEST_BYTES
  }

  // ---------------------------------------------------------------------
  // Lines
  // ---------------------------------------------------------------------

  lemma {:induction false} SplitLinesCons(a: Bytes, rest: Bytes)
    requires Free(a, CR)
    ensures SplitLines(a + CRLF + rest) == [a] + SplitLines(rest)
    decreases |a|
  {
    var s := a + CRLF + rest;
    if a == [] {
      assert s[..2] == CRLF && s[2..] == rest;
    } else {
      assert s[1..] == a[1..] + CRLF + rest;
      SplitLinesCons(a[1..], rest);
      assert [a[0]] + a[1..] == a;
      assert ([a[1..]] + SplitLines(rest))[1..] == SplitLines(rest);
    }
  }

  lemma {:induction false} SplitLinesOne(a: Bytes)
    requires Free(a, CR)
    ensures SplitLines(a) == [a]
    decreases |a|
  {
    if a != [] {
      SplitLinesOne(a[1..]);
      assert [a[0]] + a[1..] == a;
    }
  }

  ghost predicate AllFree(lines: seq<Bytes>) {
    forall i :: 0 <= i < |lines| ==> Free(lines[i], CR) && lines[i] != []
  }

  lemma {:induction false} SplitOfJoin(lines: seq<Bytes>)
    requires lines != [] && AllFree(lines)
    ensures SplitLines(JoinLines(lines)) == lines
    decreases |lines|
  {
    hide SplitLines, Free;
    if |lines| == 1 {
      SplitLinesOne(lines[0]);
    } else {
      SplitOfJoin(lines[1..]);
      SplitLinesCons(lines[0], JoinLines(lines[1..]));
      assert [lines[0]] + lines[1..] == lines;
    }
  }

  lemma {:induction false} BlankAfterLine(a: Bytes, tail: Bytes, p: nat)
    requires Free(a, CR) && tail != [] && tail[0] != CR && FindBlankLine(tail) == Some(p)
    ensures FindBlankLine(a + CRLF + tail) == Some(|a| + 2 + p)
    decreases |a|
  {
    var s := a + CRLF + tail;
    if a == [] {
      assert s[1..][1..] == tail;
      assert s[2] != CR && s[1] != CR;
      assert s[..4] != BLANK_LINE && s[1..][..4] != BLANK_LINE by {
        assert s[..4][2] == s[2] && s[1..][..4][0] == s[1];
      }
    } else {
      assert s[1..] == a[1..] + CRLF + tail;
      assert s[..4][0] == a[0];
      BlankAfterLine(a[1..], tail, p);
    }
  }

  lemma {:induction false} BlankAtEnd(a: Bytes, rest: Bytes)
    requires Free(a, CR)
    ensures FindBlankLine(a + (BLANK_LINE + rest)) == Some(|a|)
    decreases |a|
  {
    var s := a + (BLANK_LINE + rest);
    if a == [] {
      assert s[..4] == BLANK_LINE;
    } else {
      assert s[1..] == a[1..] + (BLANK_LINE + rest);
      assert s[..4][0] == a[0];
      BlankAtEnd(a[1..], rest);
    }
  }

  lemma {:induction false} BlankOfJoin(lines: seq<Bytes>, rest: Bytes)
    requires lines != [] && AllFree(lines)
    ensures FindBlankLine(JoinLines(lines) + (BLANK_LINE + rest)) == Some(|JoinLines(lines)|)
    ensures JoinLines(lines) != [] && JoinLines(lines)[0] != CR
    decreases |lines|
  {
    hide FindBlankLine;
    if |lines| == 1 {
      BlankAtEnd(lines[0], rest);
    } else {
      var more := JoinLines(lines[1..]);
      var tail := more + (BLANK_LINE + rest);
      BlankOfJoin(lines[1..], rest);
      BlankAfterLine(lines[0], tail, |more|);
      assert JoinLines(lines) + (BLANK_LINE + rest) == lines[0] + CRLF + tail;
    }
  }

  lemma {:induction false} JoinIsText(lines: seq<Bytes>)
    requires lines != [] && forall i :: 0 <= i < |lines| ==> WellFormed(lines[i])
    ensures WellFormed(JoinLines(lines))
    decreases |lines|
  {
    hide CharLen;
    if |lines| > 1 {
      JoinIsText(lines[1..]);
      LineBreakIsText();
      WellFormedAppend(lines[0], CRLF);
      WellFormedAppend(lines[0] + CRLF, JoinLines(lines[1..]));
    }
  }

  lemma LineBreakIsText()
    ensures WellFormed(CRLF)
  {
    assert CharLen(CRLF) == 1 && CharLen(CRLF[1..]) == 1;
    assert CRLF[1..][1..] == [];
  }

  // ---------------------------------------------------------------------
  // Words
  // ---------------------------------------------------------------------

  lemma BlankAhead(x: Bytes)
    ensures SpaceAhead([SPACE] + x) && CharLen([SPACE] + x) == 1
    ensures SkipSpace([SPACE] + x) == SkipSpace(x) && WordLen([SPACE] + x) == 0
  {
    assert ([SPACE] + x)[1..] == x;
  }

  lemma {:induction false} WordStops(w: Bytes, x: Bytes)
    requires WellFormed(w) && WordLen(w) == |w|
    ensures WordLen(w + ([SPACE] + x)) == |w|
    decreases |w|
  {
    hide CharLen, HeadPoint;
    var rest := [SPACE] + x;
    if w == [] {
      assert w + rest == rest;
      BlankAhead(x);
    } else {
      var n := CharLen(w);
      HeadPointOfAppend(w, rest);
      assert (w + rest)[n..] == w[n..] + rest;
      WordStops(w[n..], x);
    }
  }

  lemma WordStays(w: Bytes, x: Bytes)
    requires Word(w)
    ensures SkipSpace(w + x) == w + x
  {
    hide CharLen, HeadPoint;
    HeadPointOfAppend(w, x);
  }

  lemma {:induction false} RequestLineReads(r: HttpRequest)
    requires Word(r.verb) && Word(r.path)
    ensures var line := RequestLine(r);
      && SkipSpace(line) == line && WordLen(line) == |r.verb| && line[..|r.verb|] == r.verb
      && var second := SkipSpace(line[|r.verb|..]);
         WordLen(second) == |r.path| && second[..|r.path|] == r.path
  {
    hide CharLen, SkipSpace, WordLen, Ascii;
    var line := RequestLine(r);
    var second := r.path + [SPACE] + Ascii(VERSION);
    assert line == r.verb + ([SPACE] + second);
    WordStays(r.verb, [SPACE] + second);
    WordStops(r.verb, second);
    assert line[|r.verb|..] == [SPACE] + second;
    BlankAhead(second);
    assert second == r.path + ([SPACE] + Ascii(VERSION));
    WordStays(r.path, [SPACE] + Ascii(VERSION));
    WordStops(r.path, Ascii(VERSION));
  }

  // ---------------------------------------------------------------------
  // Header fields
  // ---------------------------------------------------------------------

  lemma HeaderLineReads(h: Header)
    requires WritableHeader(h)
    ensures SplitOnce(HeaderLine(h), COLON) == Some((h.key, [SPACE] + h.value))
    ensures Trim(h.key) == h.key && Trim([SPACE] + h.value) == h.value
    ensures HeaderLine(h) != [] && Free(HeaderLine(h), CR) && WellFormed(HeaderLine(h))
  {
    hide CharLen, WellFormed, SplitOnce, SkipSpace, TextLen;
    SplitAt(h.key, COLON, [SPACE] + h.value);
    BlankAhead(h.value);
    SeparatorsAreText();
    WellFormedAppend(h.key, [COLON]);
    WellFormedAppend([SPACE], h.value);
    WellFormedAppend(h.key + [COLON], [SPACE] + h.value);
  }

  lemma SeparatorsAreText()
    ensures WellFormed([COLON]) && WellFormed([SPACE])
  {
    assert [COLON][1..] == [] && [SPACE][1..] == [];
  }

  lemma {:induction false} FieldsOfLines(headers: seq<Header>)
    requires forall i :: 0 <= i < |headers| ==> WritableHeader(headers[i])
    ensures Fields(HeaderLines(headers)) == headers
    decreases |headers|
  {
    hide Trim, SplitOnce, WritableHeader, HeaderLine;
    if headers != [] {
      FieldsOfLines(Front(headers));
      HeaderLineReads(Last(headers));
      assert Front(HeaderLines(headers)) == HeaderLines(Front(headers));
      assert Last(HeaderLines(headers)) == HeaderLine(Last(headers));
      assert headers == Front(headers) + [Last(headers)];
    }
  }

  lemma VersionIsText()
    ensures WellFormed(Ascii(VERSION)) && Free(Ascii(VERSION), CR)
  {
    AsciiIsText(VERSION);
  }

  lemma {:induction false} AsciiIsText(s: string)
    requires forall i :: 0 <= i < |s| ==> s[i] < 128 as char
    ensures WellFormed(Ascii(s))
    decreases |s|
  {
    if s != [] {
      AsciiIsText(s[1..]);
      assert Ascii(s)[1..] == Ascii(s[1..]);
      assert CharLen(Ascii(s)) == 1;
    }
  }

  lemma RequestLineIsText(r: HttpRequest)
    requires Word(r.verb) && Word(r.path)
    ensures RequestLine(r) != [] && WellFormed(RequestLine(r)) && Free(RequestLine(r), CR)
  {
    hide CharLen, WellFormed, WordLen, Ascii;
    VersionIsText();
    SeparatorsAreText();
    WellFormedAppend(r.path, [SPACE]);
    WellFormedAppend(r.path + [SPACE], Ascii(VERSION));
    WellFormedAppend(r.verb, [SPACE]);
    WellFormedAppend(r.verb + [SPACE], r.path + [SPACE] + Ascii(VERSION));
  }

  lemma {:induction false} LinesAreText(r: HttpRequest)
    requires WritableHead(r)
    ensures AllFree(Lines(r)) && forall i :: 0 <= i < |Lines(r)| ==> WellFormed(Lines(r)[i])
  {
    hide RequestLine, HeaderLine, WritableHeader, Word, WellFormed, Free, JoinLines;
    RequestLineIsText(r);
    forall i | 0 <= i < |Lines(r)|
      ensures Lines(r)[i] != [] && WellFormed(Lines(r)[i]) && Free(Lines(r)[i], CR)
    {
      if i > 0 {
        assert Lines(r)[i] == HeaderLine(r.headers[i - 1]);
        HeaderLineReads(r.headers[i - 1]);
      }
    }
  }

  // ---------------------------------------------------------------------
  // The round trip
  // ---------------------------------------------------------------------

  lemma {:induction false} HeadReads(r: HttpRequest)
    requires WritableHead(r)
    ensures ParseHead(JoinLines(Lines(r))) == Ok(Head(r.verb, r.path, r.headers, ContentLength(r.headers)))
  {
    hide RequestLine, HeaderLine, WritableHeader, WellFormed, Free, JoinLines, SplitLines, SkipSpace, WordLen, Fields,
         HeaderLines, ContentLength;
    var lines := Lines(r);
    LinesAreText(r);
    JoinIsText(lines);
    SplitOfJoin(lines);
    RequestLineReads(r);
    FieldsOfLines(r.headers);
    assert lines[0] == RequestLine(r) && lines[1..] == HeaderLines(r.headers);
  }

  /** A written head, whatever follows it. */
  lemma {:induction false} HeadThenRest(r: HttpRequest, rest: Bytes)
    requires WritableHead(r)
    ensures Parse(JoinLines(Lines(r)) + (BLANK_LINE + rest))
         == Finish(Head(r.verb, r.path, r.headers, ContentLength(r.headers)), rest)
  {
    hide ParseHead, Lines, JoinLines, FindBlankLine, WellFormed, Word, WritableHeader, ContentLength, Finish;
    var head := JoinLines(Lines(r));
    var stream := head + (BLANK_LINE + rest);
    LinesAreText(r);
    BlankOfJoin(Lines(r), rest);
    HeadReads(r);
    assert stream[..|head|] == head;
    assert stream[|head| + 4..] == rest;
  }

  /** A request written by a client is read back as it was: method, path, header
      fields and body, whatever follows it on the connection. */
  lemma {:induction false} WrittenRequestIsRead(r: HttpRequest, more: Bytes)
    requires Writable(r)
    ensures Parse(WriteRequest(r) + more) == Ok(r)
  {
    hide Parse, Lines, JoinLines, WellFormed, Word, WritableHeader, ContentLength;
    HeadThenRest(r, r.body + more);
    assert WriteRequest(r) + more == JoinLines(Lines(r)) + (BLANK_LINE + (r.body + more));
    assert (r.body + more)[..|r.body|] == r.body;
  }

  /** So the reader returns it for every legal split of what the client wrote,
      unless its head ends within one read of the limit and its body exceeds it. */
  lemma {:induction false} WrittenRequestArrives(r: HttpRequest, chunks: seq<Bytes>)
    requires Writable(r) && LegalReads(chunks) && Concat(chunks) == WriteRequest(r)
    requires !NearLimit(WriteRequest(r))
    ensures Read(chunks) == Ok(r)
  {
    hide Read, Parse, WriteRequest, Writable, LegalReads, Concat, NearLimit;
    ReadIsParse(chunks);
    WrittenRequestIsRead(r, []);
    assert WriteRequest(r) + [] == WriteRequest(r);
  }
}
