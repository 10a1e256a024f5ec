/** Reading one HTTP request from a socket, in the pieces it arrives in. */
module RequestReader {
  import opened Tasks
  import opened Chunks
  import opened Utf8
  import opened RequestAuth
  import opened RequestHead

  const MAX_REQUEST_BYTES: nat := 32 * 1024 * 1024
  const BLANK_LINE: Bytes := [13, 10, 13, 10]

  datatype HttpRequest = HttpRequest(verb: Bytes, path: Bytes, headers: seq<Header>, body: Bytes)

  // ---------------------------------------------------------------------
  // What the whole stream means
  // ---------------------------------------------------------------------

  /** Where the first blank line starts. */
  function FindBlankLine(s: Bytes): (p: Option<nat>)
    ensures p.Some? ==> p.value + 4 <= |s|
  {
    if |s| < 4 then None
    else if s[..4] == BLANK_LINE then Some(0)
    else
      var p := FindBlankLine(s[1..]);
      if p.Some? then Some(p.value + 1) else None
  }

  /** The body: so many bytes after the blank line, or as many as there are. */
  function Take(s: Bytes, n: nat): Bytes {
    if n <= |s| then s[..n] else s
  }

  function Finish(head: Head, rest: Bytes): Result<HttpRequest, ReadError> {
    if head.contentLength > MAX_REQUEST_BYTES then Err(BodyTooBig)
    else if !WellFormed(Take(rest, head.contentLength)) then Err(BodyNotUtf8)
    else Ok(HttpRequest(head.verb, head.path, head.headers, Take(rest, head.contentLength)))
  }

  function Parse(stream: Bytes): Result<HttpRequest, ReadError> {
    match FindBlankLine(stream)
    case None => Err(if |stream| > MAX_REQUEST_BYTES then TooBig else Closed)
    case Some(p) =>
      if p + 4 > MAX_REQUEST_BYTES then Err(TooBig)
      else match ParseHead(stream[..p])
        case Err(e) => Err(e)
        case Ok(head) => Finish(head, stream[p + 4..])
  }

  // ---------------------------------------------------------------------
  // What the reader does
  // ---------------------------------------------------------------------

  /** Buffer with a blank line at p, and what the socket still holds. */
  datatype Found = Found(p: nat, buf: Bytes, rest: seq<Bytes>)

  function ReadHead(buf: Bytes, chunks: seq<Bytes>): (r: Result<Found, ReadError>)
    ensures r.Ok? ==> r.value.p + 4 <= |r.value.buf|
    decreases |chunks|
  {
    if chunks == [] then Err(Closed)
    else
      var buf := buf + chunks[0];
      if |buf| > MAX_REQUEST_BYTES then Err(TooBig)
      else match FindBlankLine(buf)
        case Some(p) => Ok(Found(p, buf, chunks[1..]))
        case None => ReadHead(buf, chunks[1..])
  }

  function ReadBody(body: Bytes, chunks: seq<Bytes>, contentLength: nat): Result<Bytes, ReadError>
    decreases |chunks|
  {
    if |body| >= contentLength then Ok(body[..contentLength])
    else if contentLength > MAX_REQUEST_BYTES then Err(BodyTooBig)
    else if chunks == [] then Ok(body)
    else ReadBody(body + chunks[0], chunks[1..], contentLength)
  }

  function Read(chunks: seq<Bytes>): Result<HttpRequest, ReadError> {
    match ReadHead([], chunks)
    case Err(e) => Err(e)
    case Ok(f) =>
      match ParseHead(f.buf[..f.p])
      case Err(e) => Err(e)
      case Ok(head) =>
        match ReadBody(f.buf[f.p + 4..], f.rest, head.contentLength)
        case Err(e) => Err(e)
        case Ok(body) =>
          if !WellFormed(body) then Err(BodyNotUtf8)
          else Ok(HttpRequest(head.verb, head.path, head.headers, body))
  }

  method ReadRequest(chunks: seq<Bytes>) returns (r: Result<HttpRequest, ReadError>)
    requires LegalReads(chunks)
    ensures r == Read(chunks)
  {
    var buf: Bytes := [];
    var next := 0;
    var headerEnd: Option<nat> := None;
    while headerEnd.None?
      invariant next <= |chunks|
      invariant headerEnd.None? ==> ReadHead([], chunks) == ReadHead(buf, chunks[next..])
      invariant headerEnd.Some? ==> headerEnd.value + 4 <= |buf|
      invariant headerEnd.Some? ==> ReadHead([], chunks) == Ok(Found(headerEnd.value, buf, chunks[next..]))
      decreases |chunks| - next, headerEnd.None?
    {
      if next == |chunks| {
        return Err(Closed);
      }
      buf := buf + chunks[next];
      next := next + 1;
      if |buf| > MAX_REQUEST_BYTES {
        return Err(TooBig);
      }
      headerEnd := FindBlankLine(buf);
    }
    var parsed := ParseHeadLines(buf[..headerEnd.value]);
    if parsed.Err? {
      return Err(parsed.error);
    }
    var head := parsed.value;
    var body := ReadRemaining(buf[headerEnd.value + 4..], chunks[next..], head.contentLength);
    if body.Err? {
      return Err(body.error);
    }
    if !WellFormed(body.value) {
      return Err(BodyNotUtf8);
    }
    return Ok(HttpRequest(head.verb, head.path, head.headers, body.value));
  }

  /** The second loop of the reader: from what was buffered after the blank line
      to the body. */
  method ReadRemaining(buffered: Bytes, chunks: seq<Bytes>, contentLength: nat) returns (r: Result<Bytes, ReadError>)
    requires LegalReads(chunks)
    ensures r == ReadBody(buffered, chunks, contentLength)
  {
    var body := buffered;
    var next := 0;
    while |body| < contentLength
      invariant next <= |chunks|
      invariant ReadBody(buffered, chunks, contentLength) == ReadBody(body, chunks[next..], contentLength)
      decreases |chunks| - next
    {
      var need := contentLength - |body|;
      if |body| + need > MAX_REQUEST_BYTES {
        return Err(BodyTooBig);
      }
      if next == |chunks| {
        return Ok(body);
      }
      var n := |chunks[next]|;
      assert n <= READ_SIZE && chunks[next][..n] == chunks[next];
      body := body + chunks[next][..if n <= need + 4096 then n else need + 4096];
      next := next + 1;
    }
    return Ok(body[..contentLength]);
  }

  // ---------------------------------------------------------------------
  // The split into reads
  // ---------------------------------------------------------------------

  /** The first blank line of a longer stream. */
  lemma {:induction false} BlankLineOfAppend(s: Bytes, more: Bytes)
    ensures var p, q := FindBlankLine(s), FindBlankLine(s + more);
      if p.Some? then q == p else q.Some? ==> q.value + 4 > |s|
    decreases |s|
  {
    if |s| < 4 {
    } else if s[..4] == BLANK_LINE {
      assert (s + more)[..4] == s[..4];
    } else {
      assert (s + more)[..4] == s[..4];
      assert (s + more)[1..] == s[1..] + more;
      BlankLineOfAppend(s[1..], more);
    }
  }

  /** Reading the head finds the first blank line of the stream, as long as the
      buffer that holds it cannot exceed the limit. */
  lemma {:induction false} HeadIsFound(buf: Bytes, chunks: seq<Bytes>)
    requires LegalReads(chunks) && |buf| <= MAX_REQUEST_BYTES && FindBlankLine(buf).None?
    ensures var stream := buf + Concat(chunks);
      match FindBlankLine(stream)
      case None => ReadHead(buf, chunks) == Err(if |stream| > MAX_REQUEST_BYTES then TooBig else Closed)
      case Some(p) =>
        if p + 4 > MAX_REQUEST_BYTES then ReadHead(buf, chunks) == Err(TooBig)
        else if p + 3 + READ_SIZE > MAX_REQUEST_BYTES && |stream| > MAX_REQUEST_BYTES then true
        else
          var f := ReadHead(buf, chunks);
          f.Ok? && f.value.p == p && LegalReads(f.value.rest) && p + 4 <= |f.value.buf| <= MAX_REQUEST_BYTES
          && f.value.buf + Concat(f.value.rest) == stream
    decreases |chunks|
  {
    if chunks == [] {
      assert buf + Concat(chunks) == buf;
    } else {
      var next := buf + chunks[0];
      ConcatCons(chunks[0], chunks[1..]);
      assert [chunks[0]] + chunks[1..] == chunks;
      assert buf + Concat(chunks) == next + Concat(chunks[1..]);
      BlankLineOfAppend(buf, Concat(chunks));
      BlankLineOfAppend(next, Concat(chunks[1..]));
      if |next| <= MAX_REQUEST_BYTES && FindBlankLine(next).None? {
        HeadIsFound(next, chunks[1..]);
      }
    }
  }

  lemma {:induction false} BodyIsTaken(body: Bytes, chunks: seq<Bytes>, contentLength: nat)
    requires |body| <= MAX_REQUEST_BYTES || contentLength <= MAX_REQUEST_BYTES
    ensures ReadBody(body, chunks, contentLength)
         == if contentLength > MAX_REQUEST_BYTES then Err(BodyTooBig) else Ok(Take(body + Concat(chunks), contentLength))
    decreases |chunks|
  {
    if |body| >= contentLength {
      assert (body + Concat(chunks))[..contentLength] == body[..contentLength];
    } else if chunks == [] {
      assert body + Concat(chunks) == body;
    } else if contentLength <= MAX_REQUEST_BYTES {
      ConcatCons(chunks[0], chunks[1..]);
      assert [chunks[0]] + chunks[1..] == chunks;
      assert body + Concat(chunks) == (body + chunks[0]) + Concat(chunks[1..]);
      BodyIsTaken(body + chunks[0], chunks[1..], contentLength);
    }
  }

  /** The blank line is within the limit, but one more read may not be. */
  predicate NearLimit(stream: Bytes) {
    var p := FindBlankLine(stream);
    && |stream| > MAX_REQUEST_BYTES
    && p.Some? && p.value + 4 <= MAX_REQUEST_BYTES < p.value + 3 + READ_SIZE
  }

  lemma {:induction false} RestIsTaken(f: Found, stream: Bytes, contentLength: nat)
    requires f.buf + Concat(f.rest) == stream && f.p + 4 <= |f.buf| <= MAX_REQUEST_BYTES
    ensures f.buf[..f.p] == stream[..f.p]
    ensures ReadBody(f.buf[f.p + 4..], f.rest, contentLength)
         == if contentLength > MAX_REQUEST_BYTES then Err(BodyTooBig) else Ok(Take(stream[f.p + 4..], contentLength))
  {
    hide Concat;
    assert f.buf[f.p + 4..] + Concat(f.rest) == stream[f.p + 4..];
    BodyIsTaken(f.buf[f.p + 4..], f.rest, contentLength);
  }

  lemma {:induction false} ReadIsParse(chunks: seq<Bytes>)
    requires LegalReads(chunks) && !NearLimit(Concat(chunks))
    ensures Read(chunks) == Parse(Concat(chunks))
  {
    hide ParseHead, WellFormed, FindBlankLine, ReadHead, ReadBody, Take, Concat, LegalReads;
    var stream := Concat(chunks);
    assert [] + stream == stream;
    NothingBlank();
    HeadIsFound([], chunks);
    var p := FindBlankLine(stream);
    if p.Some? && p.value + 4 <= MAX_REQUEST_BYTES {
      var f := ReadHead([], chunks).value;
      var head := ParseHead(stream[..f.p]);
      RestIsTaken(f, stream, if head.Ok? then head.value.contentLength else 0);
    }
  }

  lemma NothingBlank()
    ensures FindBlankLine([]).None?
  {
  }

  lemma {:induction false} ReadPast(buf: Bytes, chunks: seq<Bytes>, more: seq<Bytes>)
    requires |buf + Concat(chunks)| <= MAX_REQUEST_BYTES && FindBlankLine(buf + Concat(chunks)).None?
    ensures ReadHead(buf, chunks + more) == ReadHead(buf + Concat(chunks), more)
    decreases |chunks|
  {
    hide FindBlankLine;
    if chunks == [] {
      assert chunks + more == more && buf + Concat(chunks) == buf;
    } else {
      var next := buf + chunks[0];
      ConcatCons(chunks[0], chunks[1..]);
      assert [chunks[0]] + chunks[1..] == chunks;
      assert buf + Concat(chunks) == next + Concat(chunks[1..]);
      BlankLineOfAppend(next, Concat(chunks[1..]));
      assert (chunks + more)[1..] == chunks[1..] + more;
      ReadPast(next, chunks[1..], more);
    }
  }

  lemma OverTheLimit(buf: Bytes, chunk: Bytes, more: seq<Bytes>)
    requires |buf + chunk| > MAX_REQUEST_BYTES
    ensures ReadHead(buf, [chunk] + more) == Err(TooBig)
  {
  }

  /** The reads of the part before the cut, one full read, then the rest. */
  lemma {:induction false} CutConcat(start: Bytes, full: Bytes, rest: Bytes)
    ensures Concat(Singles(start) + ([full] + Singles(rest))) == start + (full + rest)
  {
    hide Concat, Singles;
    ConcatSingles(start);
    ConcatSingles(rest);
    ConcatCons(full, Singles(rest));
    ConcatAppend(Singles(start), [full] + Singles(rest));
  }

  /** A split of such a stream that stops just before the blank line ends and
      then fills the buffer. */
  lemma {:induction false} UnluckySplit(stream: Bytes) returns (chunks: seq<Bytes>)
    requires NearLimit(stream)
    ensures LegalReads(chunks) && Concat(chunks) == stream
    ensures Read(chunks) == Err(TooBig)
  {
    hide FindBlankLine, Concat, ReadHead;
    var cut := FindBlankLine(stream).value + 3;
    var end := if cut + READ_SIZE <= |stream| then cut + READ_SIZE else |stream|;
    var start, full, rest := stream[..cut], stream[cut..end], stream[end..];
    assert stream == start + (full + rest);
    chunks := Singles(start) + ([full] + Singles(rest));
    CutConcat(start, full, rest);
    ConcatSingles(start);
    BlankLineOfAppend(start, full + rest);
    assert [] + start == start;
    ReadPast([], Singles(start), [full] + Singles(rest));
    OverTheLimit(start, full, Singles(rest));
  }

  lemma ParseNeverTooBig(stream: Bytes)
    requires NearLimit(stream)
    ensures Parse(stream) != Err(TooBig)
  {
    hide FindBlankLine, SplitLines, SkipSpace, WordLen, Fields;
  }

  /** How a request is cut into reads does not matter, exactly unless the stream
      is over the limit and its blank line ends within one read of it. */
  lemma {:induction false} SplitIsIrrelevantExactly(stream: Bytes)
    ensures (forall chunks: seq<Bytes> :: LegalReads(chunks) && Concat(chunks) == stream ==> Read(chunks) == Parse(stream))
       <==> !NearLimit(stream)
  {
    hide Parse, Read;
    if NearLimit(stream) {
      var chunks := UnluckySplit(stream);
      ParseNeverTooBig(stream);
    } else {
      forall chunks: seq<Bytes> | LegalReads(chunks) && Concat(chunks) == stream
        ensures Read(chunks) == Parse(stream)
      {
        ReadIsParse(chunks);
      }
    }
  }

  // ---------------------------------------------------------------------
  // What is read can be authenticated
  // ---------------------------------------------------------------------

  function Signed(r: HttpRequest): Request {
    Request(r.verb, r.path, r.body)
  }

  lemma ReadHasNoNewline(chunks: seq<Bytes>)
    requires Read(chunks).Ok?
    ensures Free(Read(chunks).value.verb, NEWLINE) && Free(Read(chunks).value.path, NEWLINE)
  {
    hide Free, ParseHead, ReadHead, ReadBody, WellFormed;
    var f := ReadHead([], chunks).value;
    ParsedHasNoNewline(f.buf[..f.p]);
  }

  /** For any two requests as read from the wire, a header computed for one
      verifies for the other, in the window and under the same key, exactly when
      method, path and body agree. */
  lemma ReadRequestsAreBound(c: Crypto, key: Bytes, ts: nat, sent: seq<Bytes>, received: seq<Bytes>, now: nat)
    requires Read(sent).Ok? && Read(received).Ok?
    requires ts < U64_LIMIT && InWindow(now, ts)
    requires var r, q := Signed(Read(sent).value), Signed(Read(received).value);
      && |c.hash(r.body)| == |c.hash(q.body)|
      && (c.hash(r.body) == c.hash(q.body) ==> r.body == q.body)
      && c.mac(key, Frame(c, ts, r)) != []
      && NoCollision(c, key, Frame(c, ts, r), key, Frame(c, ts, q))
    ensures var r, q := Signed(Read(sent).value), Signed(Read(received).value);
      VerifyRequestAuth(c, key, ComputeRequestAuth(c, key, r, ts), q, now).Ok? <==> q == r
  {
    hide Read, Frame, VerifyRequestAuth, ComputeRequestAuth, Free, NoCollision;
    ReadHasNoNewline(sent);
    ReadHasNoNewline(received);
    BindsExactlyOneRequest(c, key, Signed(Read(sent).value), ts, key, Signed(Read(received).value), now);
  }
}
