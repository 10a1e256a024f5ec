/** What becomes of a request as it is sent: a body whose length is declared is read
    exactly, whatever the spelling of the field's name; blanks around names, values
    and words do not count; and each malformed head has its own error. */
module SentRequests {
  import opened Tasks
  import opened Sequences
  import opened Chunks
  import opened Utf8
  import opened CodePoints
  import opened RequestAuth
  import opened RequestHead
  import opened RequestReader
  import opened RequestWriting

  const LOWER: string := "content-length"
  const UPPER: string := "CONTENT-LENGTH"

  /** Any mix of upper and lower case. */
  predicate NamesContentLength(key: Bytes) {
    |key| == 14 && forall i :: 0 <= i < 14 ==> key[i] == Ascii(LOWER)[i] || key[i] == Ascii(UPPER)[i]
  }

  lemma LetterPairs(i: nat)
    requires i < 14
    ensures |LOWER| == |UPPER| == 14
    ensures var a, b := LOWER[i] as int, UPPER[i] as int;
      (97 <= a <= 122 && b == a - 32) || (i == 7 && a == b == 45)
    ensures CONTENT_LENGTH == LOWER
  {
    if {
      case i == 0 => assert LOWER[0] == 'c' && UPPER[0] == 'C';
      case i == 1 => assert LOWER[1] == 'o' && UPPER[1] == 'O';
      case i == 2 => assert LOWER[2] == 'n' && UPPER[2] == 'N';
      case i == 3 => assert LOWER[3] == 't' && UPPER[3] == 'T';
      case i == 4 => assert LOWER[4] == 'e' && UPPER[4] == 'E';
      case i == 5 => assert LOWER[5] == 'n' && UPPER[5] == 'N';
      case i == 6 => assert LOWER[6] == 't' && UPPER[6] == 'T';
      case i == 7 => assert LOWER[7] == '-' && UPPER[7] == '-';
      case i == 8 => assert LOWER[8] == 'l' && UPPER[8] == 'L';
      case i == 9 => assert LOWER[9] == 'e' && UPPER[9] == 'E';
      case i == 10 => assert LOWER[10] == 'n' && UPPER[10] == 'N';
      case i == 11 => assert LOWER[11] == 'g' && UPPER[11] == 'G';
      case i == 12 => assert LOWER[12] == 't' && UPPER[12] == 'T';
      case i == 13 => assert LOWER[13] == 'h' && UPPER[13] == 'H';
    }
  }

  /** Exactly these names are recognised. */
  lemma NamesExactly(h: Header)
    ensures IsContentLength(h) <==> NamesContentLength(h.key)
  {
    LetterPairs(0);
    var key := Ascii(CONTENT_LENGTH);
    assert |key| == 14;
    if |h.key| == 14 {
      forall i | 0 <= i < 14
        ensures LowerByte(h.key[i]) == LowerByte(key[i]) <==> h.key[i] == Ascii(LOWER)[i] || h.key[i] == Ascii(UPPER)[i]
      {
        LetterPairs(i);
      }
    }
  }

  /** The declared value is read as the number it spells, and as 0 if it spells none
      of 64 bits. */
  lemma LengthIsTheNumber(value: Bytes)
    ensures forall n: nat :: n < U64_LIMIT && SpellsNumber(value, n) ==> LengthOf(value) == n
    ensures (forall n: nat :: n < U64_LIMIT ==> !SpellsNumber(value, n)) ==> LengthOf(value) == 0
  {
    forall n: nat | n < U64_LIMIT && SpellsNumber(value, n)
      ensures LengthOf(value) == n
    {
      NumbersExactly(value, n);
    }
    var n := ParseU64(value);
    if n.Some? {
      NumbersExactly(value, n.value);
    }
  }

  /** The only field that declares a length holds this value. */
  predicate DeclaresAs(r: HttpRequest, k: nat, value: Bytes) {
    && k < |r.headers| && NamesContentLength(r.headers[k].key) && r.headers[k].value == value
    && forall i :: 0 <= i < |r.headers| && i != k ==> !NamesContentLength(r.headers[i].key)
  }

  lemma DeclaredValueIsRead(r: HttpRequest, k: nat, value: Bytes)
    requires DeclaresAs(r, k, value)
    ensures ContentLength(r.headers) == LengthOf(value)
  {
    hide NamesContentLength, IsContentLength, LengthOf;
    var before, h, after := r.headers[..k], r.headers[k], r.headers[k + 1..];
    assert r.headers == before + [h] + after;
    NamesExactly(h);
    forall i | 0 <= i < |after|
      ensures !IsContentLength(after[i])
    {
      NamesExactly(after[i]);
    }
    LastContentLengthDecides(before, h, after);
  }

  /** Exactly one field declares the length, and it is that of the body; or none
      does, and there is no body. */
  predicate Declares(r: HttpRequest) {
    || (exists k: nat :: k < |r.headers| && DeclaresAs(r, k, Decimal(|r.body|)))
    || (r.body == [] && forall i :: 0 <= i < |r.headers| ==> !NamesContentLength(r.headers[i].key))
  }

  lemma {:induction false} NoLength(headers: seq<Header>)
    requires forall i :: 0 <= i < |headers| ==> !NamesContentLength(headers[i].key)
    ensures ContentLength(headers) == 0
    decreases |headers|
  {
    hide NamesContentLength, IsContentLength;
    if headers != [] {
      NamesExactly(Last(headers));
      NoLength(Front(headers));
    }
  }

  lemma DeclaredLengthIsRead(r: HttpRequest)
    requires Declares(r) && |r.body| <= MAX_REQUEST_BYTES
    ensures ContentLength(r.headers) == |r.body|
  {
    hide NamesContentLength, IsContentLength;
    if k: nat :| k < |r.headers| && DeclaresAs(r, k, Decimal(|r.body|)) {
      DeclaredValueIsRead(r, k, Decimal(|r.body|));
      DecimalRoundTrip(|r.body|);
    } else {
      NoLength(r.headers);
    }
  }

  /** Within the limits, and with the length declared. */
  predicate Sendable(r: HttpRequest) {
    WritableHead(r) && WellFormed(r.body) && |r.body| <= MAX_REQUEST_BYTES && Declares(r)
  }

  /** A request that declares its length is read back with exactly its body, whatever
      follows it on the connection. */
  lemma SentRequestIsRead(r: HttpRequest, more: Bytes)
    requires Sendable(r)
    ensures Parse(WriteRequest(r) + more) == Ok(r)
  {
    hide Declares, Parse, WriteRequest, WritableHeader, Word, WellFormed, ContentLength;
    DeclaredLengthIsRead(r);
    WrittenRequestIsRead(r, more);
  }

  /** And so does the reader for every legal split, away from the limit. */
  lemma SentRequestArrives(r: HttpRequest, chunks: seq<Bytes>)
    requires Sendable(r) && LegalReads(chunks) && Concat(chunks) == WriteRequest(r) && !NearLimit(WriteRequest(r))
    ensures Read(chunks) == Ok(r)
  {
    hide Declares, Read, WriteRequest, WritableHeader, Word, WellFormed, ContentLength, NearLimit, LegalReads, Concat;
    DeclaredLengthIsRead(r);
    WrittenRequestArrives(r, chunks);
  }

  /** What becomes of the bytes after the head when n bytes are declared: more than
      32 MiB are refused; else the first n are the body, or all there are if the
      connection closes early, unless they are not UTF-8. */
  lemma BodyIsAsDeclared(r: HttpRequest, k: nat, value: Bytes, n: nat, rest: Bytes)
    requires WritableHead(r) && DeclaresAs(r, k, value) && SpellsNumber(value, n) && n < U64_LIMIT
    ensures var body := if n <= |rest| then rest[..n] else rest;
      Parse(JoinLines(Lines(r)) + (BLANK_LINE + rest)) ==
        if n > 33_554_432 then Err(BodyTooBig)
        else if WellFormed(body) then Ok(HttpRequest(r.verb, r.path, r.headers, body))
        else Err(BodyNotUtf8)
  {
    DeclaredValueIsRead(r, k, value);
    LengthIsTheNumber(value);
    hide Parse, Lines, JoinLines, WellFormed, WritableHead, ContentLength, LengthOf, DeclaresAs, SpellsNumber;
    HeadThenRest(r, rest);
  }

  predicate BlankAt(s: Bytes, p: nat) {
    p + 4 <= |s| && s[p] == 13 && s[p + 1] == 10 && s[p + 2] == 13 && s[p + 3] == 10
  }

  lemma {:induction false} FirstBlankLine(s: Bytes)
    ensures match FindBlankLine(s)
      case None => forall p: nat :: !BlankAt(s, p)
      case Some(p) => BlankAt(s, p) && forall q: nat :: q < p ==> !BlankAt(s, q)
    decreases |s|
  {
    if |s| >= 4 {
      assert s[..4] == BLANK_LINE <==> BlankAt(s, 0) by {
        assert BlankAt(s, 0) ==> s[..4] == [s[0], s[1], s[2], s[3]];
      }
      if s[..4] != BLANK_LINE {
        FirstBlankLine(s[1..]);
        assert forall q: nat :: q > 0 ==> (BlankAt(s, q) <==> BlankAt(s[1..], q - 1));
      }
    }
  }

  /** A stream that ends before a blank line, or whose first one ends beyond 32 MiB. */
  lemma HeadIsMissing(s: Bytes)
    requires forall p: nat :: BlankAt(s, p) ==> p + 4 > 33_554_432
    ensures Parse(s) == Err(if |s| > 33_554_432 then TooBig else Closed)
  {
    FirstBlankLine(s);
    hide ParseHead, FindBlankLine;
  }

  // ---------------------------------------------------------------------
  // Blanks around a field
  // ---------------------------------------------------------------------

  /** Spaces and tabs. */
  predicate Blanks(s: Bytes) {
    forall i :: 0 <= i < |s| ==> s[i] == 32 || s[i] == 9
  }

  /** A printable character of ASCII. */
  predicate Graphic(b: byte) {
    33 <= b <= 126
  }

  lemma {:induction false} BlanksAreSkipped(a: Bytes, s: Bytes)
    requires Blanks(a)
    ensures SkipSpace(a + s) == SkipSpace(s)
    decreases |a|
  {
    if a == [] {
      assert a + s == s;
    } else {
      assert (a + s)[0] == a[0] && (a + s)[1..] == a[1..] + s;
      assert CharLen(a + s) == 1 && HeadPoint(a + s) == a[0] as int;
      BlanksAreSkipped(a[1..], s);
    }
  }

  lemma {:induction false} BlanksAreNoText(b: Bytes)
    requires Blanks(b)
    ensures TextLen(b) == 0
    decreases |b|
  {
    if b != [] {
      assert CharLen(b) == 1 && HeadPoint(b) == b[0] as int;
      BlanksAreNoText(b[1..]);
    }
  }

  lemma {:induction false} TextEnds(t: Bytes, b: Bytes)
    requires t != [] && WellFormed(t) && Graphic(Last(t)) && Blanks(b)
    ensures TextLen(t + b) == |t|
    decreases |t|
  {
    hide CharLen, HeadPoint;
    var n := CharLen(t);
    HeadPointOfAppend(t, b);
    assert (t + b)[n..] == t[n..] + b;
    if n == |t| {
      assert t[n..] + b == b;
      BlanksAreNoText(b);
      GraphicIsNoSpace(t);
      assert t + b == t + b;
    } else {
      TextEnds(t[n..], b);
    }
  }

  lemma GraphicIsNoSpace(t: Bytes)
    requires t != [] && CharLen(t) == |t| && Graphic(Last(t))
    ensures |t| == 1 && !IsSpace(HeadPoint(t))
  {
  }

  /** Trimming takes the blanks around a text and nothing of the text. */
  lemma TrimTakesBlanks(a: Bytes, t: Bytes, b: Bytes)
    requires Blanks(a) && Blanks(b)
    requires t != [] && WellFormed(t) && Graphic(t[0]) && Graphic(Last(t))
    ensures Trim(a + (t + b)) == t
  {
    BlanksAreSkipped(a, t + b);
    assert SkipSpace(t + b) == t + b by {
      assert CharLen(t + b) == 1 && HeadPoint(t + b) == t[0] as int;
    }
    hide SkipSpace, TextLen, WellFormed;
    TextEnds(t, b);
  }

  /** A tidy text begins and ends with a printable character. */
  predicate Tidy(t: Bytes) {
    t != [] && WellFormed(t) && Graphic(t[0]) && Graphic(Last(t))
  }

  /** A field is read without the blanks around its name and its value, and a line
      without a colon is no field. */
  lemma FieldIsRead(lines: seq<Bytes>, a: Bytes, key: Bytes, b: Bytes, c: Bytes, value: Bytes, d: Bytes, junk: Bytes)
    requires Blanks(a) && Blanks(b) && Blanks(c) && Blanks(d)
    requires Tidy(key) && Free(key, COLON) && Tidy(value) && Free(junk, COLON)
    ensures Fields(lines + [a + (key + b) + [COLON] + (c + (value + d))]) == Fields(lines) + [Header(key, value)]
    ensures Fields(lines + [junk]) == Fields(lines)
  {
    hide Trim, WellFormed, Fields;
    var line := a + (key + b) + [COLON] + (c + (value + d));
    SplitAt(a + (key + b), COLON, c + (value + d));
    TrimTakesBlanks(a, key, b);
    TrimTakesBlanks(c, value, d);
    OneLineMore(lines, line);
    OneLineMore(lines, junk);
    NoColonNoSplit(junk);
  }

  lemma {:induction false} NoColonNoSplit(junk: Bytes)
    requires Free(junk, COLON)
    ensures SplitOnce(junk, COLON).None?
    decreases |junk|
  {
    if junk != [] {
      NoColonNoSplit(junk[1..]);
    }
  }

  lemma OneLineMore(lines: seq<Bytes>, line: Bytes)
    ensures Fields(lines + [line]) ==
      match SplitOnce(line, COLON)
      case None => Fields(lines)
      case Some((k, v)) => Fields(lines) + [Header(Trim(k), Trim(v))]
  {
    assert Front(lines + [line]) == lines;
  }

  // ---------------------------------------------------------------------
  // Malformed heads
  // ---------------------------------------------------------------------

  /** A first line, and possibly more. */
  function HeadOf(line: Bytes, more: Option<Bytes>): Bytes {
    if more.Some? then line + CRLF + more.value else line
  }

  lemma FirstLineIs(line: Bytes, more: Option<Bytes>)
    requires Free(line, CR)
    ensures SplitLines(HeadOf(line, more))[0] == line
  {
    if more.Some? {
      SplitLinesCons(line, more.value);
    } else {
      SplitLinesOne(line);
    }
  }

  /** A head that is not UTF-8, one whose first line is blank, and one with a single
      word in its first line are refused, each in its own way. */
  lemma MalformedHeads(a: Bytes, w: Bytes, b: Bytes, more: Option<Bytes>, junk: Bytes)
    requires Blanks(a) && Blanks(b) && Word(w) && !WellFormed(junk)
    ensures ParseHead(junk) == Err(HeadNotUtf8)
    ensures WellFormed(HeadOf(a, more)) ==> ParseHead(HeadOf(a, more)) == Err(NoMethod)
    ensures WellFormed(HeadOf(a + (w + b), more)) ==> ParseHead(HeadOf(a + (w + b), more)) == Err(NoPath)
  {
    hide ParseHead, WellFormed, Word, HeadOf;
    if WellFormed(HeadOf(a, more)) {
      BlankFirstLine(a, more);
    }
    if WellFormed(HeadOf(a + (w + b), more)) {
      OneWordLine(a, w, b, more);
    }
    assert ParseHead(junk) == Err(HeadNotUtf8) by { JunkHead(junk); }
  }

  lemma JunkHead(junk: Bytes)
    requires !WellFormed(junk)
    ensures ParseHead(junk) == Err(HeadNotUtf8)
  {
  }

  lemma BlankFirstLine(a: Bytes, more: Option<Bytes>)
    requires Blanks(a) && WellFormed(HeadOf(a, more))
    ensures ParseHead(HeadOf(a, more)) == Err(NoMethod)
  {
    FirstLineIs(a, more);
    BlanksAreSkipped(a, []);
    assert a + [] == a && SkipSpace([]) == [];
    hide WellFormed, SplitLines, Fields, ContentLength, SkipSpace, WordLen, HeadOf;
  }

  lemma OneWordLine(a: Bytes, w: Bytes, b: Bytes, more: Option<Bytes>)
    requires Blanks(a) && Blanks(b) && Word(w) && WellFormed(HeadOf(a + (w + b), more))
    ensures ParseHead(HeadOf(a + (w + b), more)) == Err(NoPath)
  {
    var line := a + (w + b);
    FirstLineIs(line, more);
    BlanksAreSkipped(a, w + b);
    WordStays(w, b);
    WordEnds(w, b);
    BlanksAreSkipped(b, []);
    assert b + [] == b && SkipSpace([]) == [];
    hide WellFormed, SplitLines, Fields, ContentLength, SkipSpace, WordLen, HeadOf;
    assert (w + b)[..|w|] == w && (w + b)[|w|..] == b;
  }

  lemma {:induction false} WordEnds(w: Bytes, b: Bytes)
    requires WellFormed(w) && WordLen(w) == |w| && Blanks(b)
    ensures WordLen(w + b) == |w|
    decreases |w|
  {
    if w == [] {
      assert w + b == b;
      assert b != [] ==> CharLen(b) == 1 && HeadPoint(b) == b[0] as int;
    } else {
      hide CharLen, HeadPoint;
      var n := CharLen(w);
      HeadPointOfAppend(w, b);
      assert (w + b)[n..] == w[n..] + b;
      WordEnds(w[n..], b);
    }
  }
}
