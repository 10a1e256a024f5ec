/** The head of an HTTP request: request line and header fields. */
module RequestHead {
  import opened Tasks
  import opened Sequences
  import opened Utf8
  import opened CodePoints
  import opened RequestAuth

  const CR: byte := 13
  const LF: byte := 10
  const CRLF: Bytes := [CR, LF]

  datatype ReadError = Closed | TooBig | HeadNotUtf8 | NoMethod | NoPath | BodyTooBig | BodyNotUtf8

  datatype Header = Header(key: Bytes, value: Bytes)

  datatype Head = Head(verb: Bytes, path: Bytes, headers: seq<Header>, contentLength: nat)

  // ---------------------------------------------------------------------
  // Words
  // ---------------------------------------------------------------------

  /** Unicode White_Space. */
  predicate IsSpace(p: CodePoint) {
    || 0x09 <= p <= 0x0D || p == 0x20 || p == 0x85 || p == 0xA0 || p == 0x1680
    || 0x2000 <= p <= 0x200A || p == 0x2028 || p == 0x2029 || p == 0x202F || p == 0x205F || p == 0x3000
  }

  predicate SpaceAhead(s: Bytes) {
    CharLen(s) > 0 && IsSpace(HeadPoint(s))
  }

  function SkipSpace(s: Bytes): (r: Bytes)
    ensures |r| <= |s|
    decreases |s|
  {
    if SpaceAhead(s) then SkipSpace(s[CharLen(s)..]) else s
  }

  /** Length of the word at the head of s. */
  function WordLen(s: Bytes): (n: nat)
    ensures n <= |s|
    decreases |s|
  {
    if CharLen(s) == 0 || SpaceAhead(s) then 0 else CharLen(s) + WordLen(s[CharLen(s)..])
  }

  /** Where the last character of s that is not white space ends. */
  function TextLen(s: Bytes): (n: nat)
    ensures n <= |s|
    decreases |s|
  {
    if CharLen(s) == 0 then 0
    else
      var rest := TextLen(s[CharLen(s)..]);
      if rest == 0 && SpaceAhead(s) then 0 else CharLen(s) + rest
  }

  function Trim(s: Bytes): Bytes {
    var r := SkipSpace(s);
    r[..TextLen(r)]
  }

  // ---------------------------------------------------------------------
  // Lines
  // ---------------------------------------------------------------------

  /** str.split on CR LF. */
  function SplitLines(s: Bytes): (lines: seq<Bytes>)
    ensures lines != []
    decreases |s|
  {
    if s == [] then [[]]
    else if CRLF <= s then [[]] + SplitLines(s[2..])
    else
      var rest := SplitLines(s[1..]);
      [[s[0]] + rest[0]] + rest[1..]
  }

  function LowerByte(b: byte): byte {
    if 65 <= b <= 90 then b + 32 else b
  }

  predicate EqualsIgnoringCase(a: Bytes, b: Bytes) {
    |a| == |b| && forall i :: 0 <= i < |a| ==> LowerByte(a[i]) == LowerByte(b[i])
  }

  const CONTENT_LENGTH: string := "content-length"

  predicate IsContentLength(h: Header) {
    EqualsIgnoringCase(h.key, Ascii(CONTENT_LENGTH))
  }

  function LengthOf(value: Bytes): nat {
    var n := ParseU64(value);
    if n.Some? then n.value else 0
  }

  /** The header fields of the lines: a line without a colon is skipped. */
  function Fields(lines: seq<Bytes>): seq<Header> {
    if lines == [] then []
    else
      var before := Fields(Front(lines));
      match SplitOnce(Last(lines), COLON)
      case None => before
      case Some((k, v)) => before + [Header(Trim(k), Trim(v))]
  }

  /** The last content length given, if any, decides. */
  function ContentLength(headers: seq<Header>): nat {
    if headers == [] then 0
    else if IsContentLength(Last(headers)) then LengthOf(Last(headers).value)
    else ContentLength(Front(headers))
  }

  function ParseHead(s: Bytes): Result<Head, ReadError> {
    if !WellFormed(s) then Err(HeadNotUtf8)
    else
      var lines := SplitLines(s);
      var first := SkipSpace(lines[0]);
      var verb := first[..WordLen(first)];
      var second := SkipSpace(first[WordLen(first)..]);
      var path := second[..WordLen(second)];
      if verb == [] then Err(NoMethod)
      else if path == [] then Err(NoPath)
      else Ok(Head(verb, path, Fields(lines[1..]), ContentLength(Fields(lines[1..]))))
  }

  method ParseHeadLines(s: Bytes) returns (r: Result<Head, ReadError>)
    ensures r == ParseHead(s)
  {
    if !WellFormed(s) {
      return Err(HeadNotUtf8);
    }
    var lines := SplitLines(s);
    var first := SkipSpace(lines[0]);
    var verb := first[..WordLen(first)];
    if verb == [] {
      return Err(NoMethod);
    }
    var second := SkipSpace(first[WordLen(first)..]);
    var path := second[..WordLen(second)];
    if path == [] {
      return Err(NoPath);
    }
    var headers: seq<Header> := [];
    var contentLength := 0;
    lines := lines[1..];
    for k := 0 to |lines|
      invariant headers == Fields(lines[..k])
      invariant contentLength == ContentLength(headers)
    {
      assert Front(lines[..k + 1]) == lines[..k] && Last(lines[..k + 1]) == lines[k];
      if lines[k] == [] {
        continue;
      }
      var parts := SplitOnce(lines[k], COLON);
      if parts.Some? {
        var field := Header(Trim(parts.value.0), Trim(parts.value.1));
        if IsContentLength(field) {
          contentLength := LengthOf(field.value);
        }
        assert Front(headers + [field]) == headers;
        headers := headers + [field];
      }
    }
    assert lines[..|lines|] == lines;
    return Ok(Head(verb, path, headers, contentLength));
  }

  // ---------------------------------------------------------------------
  // What a parsed head guarantees
  // ---------------------------------------------------------------------

  /** A character other than a newline has no newline byte. */
  lemma CharHasNoNewline(s: Bytes)
    requires CharLen(s) > 0 && !SpaceAhead(s)
    ensures Free(s[..CharLen(s)], NEWLINE)
  {
  }

  lemma {:induction false} WordHasNoNewline(s: Bytes)
    ensures Free(s[..WordLen(s)], NEWLINE)
    decreases |s|
  {
    hide CharLen, HeadPoint;
    if CharLen(s) > 0 && !SpaceAhead(s) {
      var n := CharLen(s);
      CharHasNoNewline(s);
      WordHasNoNewline(s[n..]);
      assert s[..WordLen(s)] == s[..n] + s[n..][..WordLen(s[n..])];
    }
  }

  /** Method and path of a parsed request contain no newline. */
  lemma ParsedHasNoNewline(s: Bytes)
    requires ParseHead(s).Ok?
    ensures Free(ParseHead(s).value.verb, NEWLINE) && Free(ParseHead(s).value.path, NEWLINE)
  {
    var first := SkipSpace(SplitLines(s)[0]);
    WordHasNoNewline(first);
    WordHasNoNewline(SkipSpace(first[WordLen(first)..]));
  }

  /** With several content lengths the last one decides, whatever stands before
      and whatever other fields follow. */
  lemma {:induction false} LastContentLengthDecides(before: seq<Header>, h: Header, after: seq<Header>)
    requires IsContentLength(h)
    requires forall i :: 0 <= i < |after| ==> !IsContentLength(after[i])
    ensures ContentLength(before + [h] + after) == LengthOf(h.value)
    decreases |after|
  {
    hide IsContentLength, LengthOf;
    var all := before + [h] + after;
    if after == [] {
      assert all == before + [h];
    } else {
      assert Front(all) == before + [h] + Front(after) && Last(all) == Last(after);
      LastContentLengthDecides(before, h, Front(after));
    }
  }
}
