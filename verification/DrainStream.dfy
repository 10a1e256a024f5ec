/** Draining a process's output pipe into a capped text buffer. */
module Draining {
  import opened Tasks
  import opened Sequences
  import opened Chunks
  import opened Utf8

  /** The text so far, and the bytes that are not text yet. */
  datatype State = State(text: Bytes, leftover: Bytes)

  /** Append s up to the cap, cutting at a character boundary. */
  function Append(text: Bytes, s: Bytes, cap: nat): (r: Bytes) {
    if |text| >= cap then text else text + s[..Floor(s, cap - |text|)]
  }

  function Feed(st: State, chunk: Bytes, cap: nat): State {
    var data := st.leftover + chunk;
    var v := ValidUpTo(data);
    State(Append(st.text, data[..v], cap), data[v..])
  }

  function Drain(text: Bytes, chunks: seq<Bytes>, cap: nat): State {
    if chunks == [] then State(text, []) else Feed(Drain(text, Front(chunks), cap), Last(chunks), cap)
  }

  /** The text of a stream: its longest well-formed prefix. */
  function Text(stream: Bytes): Bytes {
    stream[..ValidUpTo(stream)]
  }

  /** Well-formed text cut at the last character boundary within the cap. */
  function Cut(text: Bytes, cap: nat): Bytes {
    text[..Floor(text, cap)]
  }

  /** What the buffer should hold at the end of the stream. */
  function Clip(stream: Bytes, cap: nat): Bytes {
    Cut(Text(stream), cap)
  }

  // ---------------------------------------------------------------------
  // What holds for every stream, split and cap
  // ---------------------------------------------------------------------

  /** Clip is the longest well-formed prefix of the stream within the cap. */
  lemma {:induction false} ClipIsLongest(stream: Bytes, cap: nat, k: nat)
    ensures Clip(stream, cap) <= stream && |Clip(stream, cap)| <= cap && WellFormed(Clip(stream, cap))
    ensures |Clip(stream, cap)| < k <= |stream| && k <= cap ==> !WellFormed(stream[..k])
  {
    var text := Text(stream);
    ValidPrefix(stream);
    BoundaryIsCharEnd(text, Floor(text, cap));
    if |Clip(stream, cap)| < k <= |stream| && k <= cap {
      if k <= |text| {
        BoundaryIsCharEnd(text, k);
        assert text[..k] == stream[..k];
      } else {
        ValidUpToIsLongest(stream, k);
      }
    }
  }

  lemma {:induction false} AppendKeepsText(text: Bytes, s: Bytes, cap: nat)
    requires WellFormed(text) && WellFormed(s)
    ensures WellFormed(Append(text, s, cap))
    ensures text <= Append(text, s, cap)
    ensures |text| <= cap ==> |Append(text, s, cap)| <= cap
  {
    if |text| < cap {
      var i := Floor(s, cap - |text|);
      BoundaryIsCharEnd(s, i);
      WellFormedAppend(text, s[..i]);
    }
  }

  lemma {:induction false} FeedKeepsText(st: State, chunk: Bytes, cap: nat)
    requires WellFormed(st.text)
    ensures WellFormed(Feed(st, chunk, cap).text)
    ensures st.text <= Feed(st, chunk, cap).text
    ensures |st.text| <= cap ==> |Feed(st, chunk, cap).text| <= cap
  {
    var data := st.leftover + chunk;
    ValidPrefix(data);
    AppendKeepsText(st.text, data[..ValidUpTo(data)], cap);
  }

  /** At every moment the buffer is well-formed, within the cap, and grows only
      at its end. */
  lemma {:induction false} DrainKeepsText(text: Bytes, chunks: seq<Bytes>, cap: nat, k: nat)
    requires WellFormed(text) && k <= |chunks|
    ensures WellFormed(Drain(text, chunks, cap).text)
    ensures Drain(text, chunks[..k], cap).text <= Drain(text, chunks, cap).text
    ensures |text| <= cap ==> |Drain(text, chunks, cap).text| <= cap
    decreases |chunks|
  {
    if chunks != [] {
      DrainKeepsText(text, Front(chunks), cap, if k < |chunks| then k else 0);
      FeedKeepsText(Drain(text, Front(chunks), cap), Last(chunks), cap);
      if k < |chunks| {
        assert Front(chunks)[..k] == chunks[..k];
      } else {
        assert chunks[..k] == chunks;
      }
    }
  }

  lemma {:induction false} LeftoverIsUnread(chunks: seq<Bytes>, cap: nat)
    ensures Drain([], chunks, cap).leftover == Concat(chunks)[ValidUpTo(Concat(chunks))..]
  {
    if chunks != [] {
      LeftoverIsUnread(Front(chunks), cap);
      ValidGrows(Concat(Front(chunks)), Last(chunks));
    }
  }

  /** One read adds the text that became valid, as far as the cap lets it. */
  lemma {:induction false} DrainStep(chunks: seq<Bytes>, cap: nat) returns (s: Bytes)
    requires chunks != []
    ensures WellFormed(s)
    ensures Text(Concat(chunks)) == Text(Concat(Front(chunks))) + s
    ensures Drain([], chunks, cap).text == Append(Drain([], Front(chunks), cap).text, s, cap)
  {
    var before := Concat(Front(chunks));
    var data := before[ValidUpTo(before)..] + Last(chunks);
    LeftoverIsUnread(Front(chunks), cap);
    ValidGrows(before, Last(chunks));
    ValidPrefix(data);
    s := data[..ValidUpTo(data)];
  }

  // ---------------------------------------------------------------------
  // When the split does not matter
  // ---------------------------------------------------------------------

  /** Every character of t is longer than room. */
  predicate AllLonger(t: Bytes, room: nat)
    decreases |t|
  {
    t == [] || (CharLen(t) > room && AllLonger(t[CharLen(t)..], room))
  }

  /** Nothing of the text after the cut could still fit in the room it left. */
  predicate CleanCut(text: Bytes, cap: nat) {
    var cut := Floor(text, cap);
    AllLonger(text[cut..], cap - cut)
  }

  predicate CutsCleanly(stream: Bytes, cap: nat) {
    CleanCut(Text(stream), cap)
  }

  lemma {:induction false} AllLongerOfAppend(a: Bytes, b: Bytes, room: nat)
    requires WellFormed(a)
    ensures AllLonger(a + b, room) <==> AllLonger(a, room) && AllLonger(b, room)
    decreases |a|
  {
    hide CharLen;
    if a == [] {
      assert a + b == b;
    } else {
      var n := CharLen(a);
      CharLenOfAppend(a, b);
      assert (a + b)[n..] == a[n..] + b;
      AllLongerOfAppend(a[n..], b, room);
    }
  }

  lemma {:induction false} NothingFits(s: Bytes, room: nat)
    requires WellFormed(s) && AllLonger(s, room)
    ensures Floor(s, room) == 0
  {
    if s != [] {
      forall j | 0 < j <= room && j <= |s|
        ensures !Boundary(s, j)
      {
        BoundaryIsCharEnd(s, j);
        CharLenOfPrefix(s, j);
      }
      FloorIs(s, room, 0);
    }
  }

  lemma {:induction false} WholeIsClean(v: Bytes, cap: nat)
    requires |v| <= cap
    ensures CleanCut(v, cap) && Cut(v, cap) == v
  {
    assert v[..|v|] == v && v[|v|..] == [];
  }

  lemma {:induction false} CutWithin(v: Bytes, s: Bytes, cap: nat)
    requires WellFormed(s) && |v| <= cap
    ensures Append(v, s, cap) == Cut(v + s, cap)
  {
    FloorOfAppend(v, s, cap);
    var i := Floor(s, cap - |v|);
    assert (v + s)[..|v| + i] == v + s[..i];
    assert |v| == cap ==> v + s[..0] == v;
  }

  lemma {:induction false} CutBeyond(v: Bytes, s: Bytes, cap: nat)
    requires WellFormed(v) && WellFormed(s) && |v| > cap
    ensures Cut(v + s, cap) == Cut(v, cap)
    ensures CleanCut(v + s, cap) ==> CleanCut(v, cap) && Append(Cut(v, cap), s, cap) == Cut(v, cap)
  {
    hide CharLen;
    var cut := Floor(v, cap);
    FloorOfAppend(v, s, cap);
    BoundaryIsCharEnd(v, cut);
    assert (v + s)[..cut] == v[..cut];
    assert (v + s)[cut..] == v[cut..] + s;
    AllLongerOfAppend(v[cut..], s, cap - cut);
    if CleanCut(v + s, cap) {
      NothingFits(s, cap - cut);
      assert v[..cut] + s[..0] == v[..cut];
    }
  }

  lemma {:induction false} CleanDrain(chunks: seq<Bytes>, cap: nat)
    requires CutsCleanly(Concat(chunks), cap)
    ensures Drain([], chunks, cap).text == Clip(Concat(chunks), cap)
  {
    hide CharLen;
    if chunks != [] {
      var s := DrainStep(chunks, cap);
      var v := Text(Concat(Front(chunks)));
      ValidPrefix(Concat(Front(chunks)));
      if |v| <= cap {
        WholeIsClean(v, cap);
        CutWithin(v, s, cap);
      } else {
        CutBeyond(v, s, cap);
      }
      CleanDrain(Front(chunks), cap);
    }
  }

  /** A text with a character of length n that fits after a longer one. */
  ghost predicate ShortAt(text: Bytes, cap: nat, q: nat, n: nat) {
    && cap < q && q + n <= |text|
    && WellFormed(text[..q]) && CleanCut(text[..q], cap)
    && CharLen(text[q..]) == n && 0 < n <= cap - Floor(text[..q], cap)
  }

  lemma {:induction false} HeadChar(t: Bytes, room: nat) returns (c: Bytes, rest: Bytes)
    requires WellFormed(t) && t != []
    ensures t == c + rest && |c| == CharLen(t) == CharLen(c) > 0
    ensures WellFormed(c) && WellFormed(rest)
    ensures AllLonger(c, room) <==> |c| > room
    ensures AllLonger(t, room) <==> |c| > room && AllLonger(rest, room)
  {
    var n := CharLen(t);
    c, rest := t[..n], t[n..];
    CharLenOfPrefix(t, n);
    assert c[n..] == [];
  }

  /** A clean cut stays clean when a longer character follows. */
  lemma {:induction false} CleanCutExtends(v: Bytes, c: Bytes, cap: nat)
    requires WellFormed(v) && WellFormed(c) && |v| > cap && CleanCut(v, cap)
    requires AllLonger(c, cap - Floor(v, cap))
    ensures WellFormed(v + c) && CleanCut(v + c, cap) && Floor(v + c, cap) == Floor(v, cap)
  {
    hide CharLen;
    var cut := Floor(v, cap);
    WellFormedAppend(v, c);
    FloorOfAppend(v, c, cap);
    BoundaryIsCharEnd(v, cut);
    assert (v + c)[cut..] == v[cut..] + c;
    AllLongerOfAppend(v[cut..], c, cap - cut);
  }

  /** The first character that fits the room, if the rest is not clean. */
  lemma {:induction false} FindShort(v: Bytes, t: Bytes, cap: nat) returns (q: nat, n: nat)
    requires WellFormed(v) && WellFormed(t) && |v| > cap && CleanCut(v, cap)
    requires !AllLonger(t, cap - Floor(v, cap))
    ensures ShortAt(v + t, cap, q, n)
    decreases |t|
  {
    hide CharLen;
    var c, rest := HeadChar(t, cap - Floor(v, cap));
    if |c| <= cap - Floor(v, cap) {
      q, n := |v|, |c|;
      assert (v + t)[..q] == v && (v + t)[q..] == t;
    } else {
      CleanCutExtends(v, c, cap);
      assert v + t == (v + c) + rest;
      q, n := FindShort(v + c, rest, cap);
    }
  }

  lemma {:induction false} CrossingChar(text: Bytes, v: Bytes, c: Bytes, rest: Bytes, cap: nat)
    requires WellFormed(text) && WellFormed(v) && WellFormed(c) && WellFormed(rest) && c != []
    requires text == v + (c + rest) && |v| == Floor(text, cap)
    requires AllLonger(c, cap - |v|) <==> |c| > cap - |v|
    ensures |v + c| > cap && WellFormed(v + c) && CleanCut(v + c, cap) && Floor(v + c, cap) == |v|
  {
    hide CharLen;
    WellFormedAppend(v, c);
    assert (v + c) + rest == text;
    BoundaryOfAppend(v + c, rest, |v + c|);
    assert Boundary(text, |v + c|);
    assert |v + c| > cap;
    FloorOfAppend(v + c, rest, cap);
    assert (v + c)[|v|..] == c;
  }

  lemma {:induction false} CutPieces(text: Bytes, cap: nat) returns (upTo: Bytes, rest: Bytes)
    requires WellFormed(text) && !CleanCut(text, cap)
    ensures text == upTo + rest
    ensures WellFormed(upTo) && WellFormed(rest) && |upTo| > cap && CleanCut(upTo, cap)
    ensures !AllLonger(rest, cap - Floor(upTo, cap))
  {
    hide CharLen;
    var cut := Floor(text, cap);
    BoundaryIsCharEnd(text, cut);
    var v, t := text[..cut], text[cut..];
    var c;
    c, rest := HeadChar(t, cap - cut);
    assert text == v + (c + rest);
    CrossingChar(text, v, c, rest, cap);
    upTo := v + c;
  }

  /** If the cut is not clean there is such a character: the first one that
      crosses the cap does not fit, a later one does. */
  lemma {:induction false} UncleanHasShort(text: Bytes, cap: nat) returns (q: nat, n: nat)
    requires WellFormed(text) && !CleanCut(text, cap)
    ensures ShortAt(text, cap, q, n)
  {
    var upTo, rest := CutPieces(text, cap);
    q, n := FindShort(upTo, rest, cap);
  }

  /** The read that completes a character that fits. */
  lemma {:induction false} OneMoreByte(st: State, b: byte, cap: nat)
    requires var c := st.leftover + [b];
      CharLen(c) == |c| && |st.text| + |c| <= cap
    ensures Feed(st, [b], cap).text == st.text + (st.leftover + [b])
  {
    var c := st.leftover + [b];
    assert c[|c|..] == [] && c[..|c|] == c;
    assert ValidUpTo(c) == |c|;
  }

  lemma {:induction false} TextOfBroken(a: Bytes, r: Bytes)
    requires WellFormed(a) && CharLen(r) > 0
    ensures Text(a + r[..CharLen(r) - 1]) == a
  {
    var broken := r[..CharLen(r) - 1];
    CharLenOfPrefix(r, CharLen(r) - 1);
    WellFormedAppend(a, broken);
    assert ValidUpTo(broken) == 0;
    assert (a + broken)[..|a|] == a;
  }

  /** The stream up to the last byte of that character has one byte to go. */
  lemma {:induction false} AllButOneByte(stream: Bytes, cap: nat, q: nat, n: nat)
    requires ShortAt(Text(stream), cap, q, n)
    ensures var early := stream[..q + n - 1];
      && Text(early) == Text(stream)[..q]
      && early[q..] + [stream[q + n - 1]] == Text(stream)[q..][..n]
  {
    hide CharLen, AllLonger, Floor, ValidUpTo, WellFormed;
    var text := Text(stream);
    TextOfBroken(text[..q], text[q..]);
    assert stream[..q + n - 1] == text[..q] + text[q..][..n - 1];
    assert stream[q + n - 1] == text[q + n - 1];
  }

  /** Reading all but the last byte of it leaves the text cut as before. */
  lemma {:induction false} DrainAllButOneByte(stream: Bytes, cap: nat, q: nat, n: nat)
    requires ShortAt(Text(stream), cap, q, n)
    ensures var st := Drain([], Singles(stream[..q + n - 1]), cap);
      && st.text == Cut(Text(stream)[..q], cap)
      && st.leftover + [stream[q + n - 1]] == Text(stream)[q..][..n]
  {
    hide CharLen;
    var early := stream[..q + n - 1];
    AllButOneByte(stream, cap, q, n);
    ConcatSingles(early);
    CleanDrain(Singles(early), cap);
    LeftoverIsUnread(Singles(early), cap);
  }

  lemma {:induction false} FedTextStays(chunks: seq<Bytes>, k: nat, cap: nat)
    requires k < |chunks|
    ensures |Feed(Drain([], chunks[..k], cap), chunks[k], cap).text| <= |Drain([], chunks, cap).text|
  {
    assert Front(chunks[..k + 1]) == chunks[..k] && Last(chunks[..k + 1]) == chunks[k];
    DrainKeepsText([], chunks, cap, k + 1);
  }

  /** Then reading byte by byte appends it. */
  lemma {:induction false} ByteByByteOvershoots(stream: Bytes, cap: nat, q: nat, n: nat)
    requires ShortAt(Text(stream), cap, q, n)
    ensures |Drain([], Singles(stream), cap).text| > |Cut(Text(stream)[..q], cap)|
  {
    hide CharLen;
    var k := q + n - 1;
    DrainAllButOneByte(stream, cap, q, n);
    CharLenOfPrefix(Text(stream)[q..], n);
    assert Singles(stream)[..k] == Singles(stream[..k]);
    OneMoreByte(Drain([], Singles(stream[..k]), cap), stream[k], cap);
    FedTextStays(Singles(stream), k, cap);
  }

  /** The split into reads does not matter, and the buffer ends as the longest
      well-formed prefix within the cap, exactly when the cut is clean: when no
      character after it is as short as the room that was left. */
  lemma {:induction false} SplitIsIrrelevantExactly(stream: Bytes, cap: nat)
    ensures (forall chunks: seq<Bytes> :: LegalReads(chunks) && Concat(chunks) == stream ==>
               Drain([], chunks, cap).text == Clip(stream, cap))
       <==> CutsCleanly(stream, cap)
  {
    hide CharLen;
    if CutsCleanly(stream, cap) {
      forall chunks: seq<Bytes> | LegalReads(chunks) && Concat(chunks) == stream
        ensures Drain([], chunks, cap).text == Clip(stream, cap)
      {
        CleanDrain(chunks, cap);
      }
    } else {
      ValidPrefix(stream);
      var q, n := UncleanHasShort(Text(stream), cap);
      ByteByByteOvershoots(stream, cap, q, n);
      ConcatSingles(stream);
      var text := Text(stream);
      assert text == text[..q] + text[q..];
      WellFormedAppend(text[..q], text[q..]);
      CutBeyond(text[..q], text[q..], cap);
      assert LegalReads(Singles(stream));
    }
  }

  /** The two cases that always cut cleanly: all the text fits, or the cap falls
      on a character boundary. */
  lemma {:induction false} CleanCases(stream: Bytes, cap: nat)
    ensures ValidUpTo(stream) <= cap ==> CutsCleanly(stream, cap) && Clip(stream, cap) == Text(stream)
    ensures cap <= ValidUpTo(stream) && WellFormed(stream[..cap]) ==>
              CutsCleanly(stream, cap) && Clip(stream, cap) == stream[..cap]
  {
    var text := Text(stream);
    ValidPrefix(stream);
    if |text| <= cap {
      WholeIsClean(text, cap);
    }
    if cap <= |text| && WellFormed(stream[..cap]) {
      assert text[..cap] == stream[..cap];
      BoundaryIsCharEnd(text, cap);
      RoomZero(text[cap..]);
    }
  }

  lemma {:induction false} RoomZero(t: Bytes)
    requires WellFormed(t)
    ensures AllLonger(t, 0)
    decreases |t|
  {
    if t != [] {
      RoomZero(t[CharLen(t)..]);
    }
  }

  // ---------------------------------------------------------------------
  // The loop
  // ---------------------------------------------------------------------

  /** A text buffer shared between the reader thread and its observers. */
  class SharedText {
    var text: Bytes

    constructor ()
      ensures text == []
    {
      text := [];
    }
  }

  /** Append s to the buffer, as much of it as the cap lets in. */
  method AppendCapped(buf: SharedText, s: Bytes, cap: nat)
    modifies buf
    ensures buf.text == Append(old(buf.text), s, cap)
  {
    if |buf.text| >= cap {
      return;
    }
    var remaining := cap - |buf.text|;
    if |s| <= remaining {
      assert s[..|s|] == s;
      buf.text := buf.text + s;
    } else {
      var idx := remaining;
      while idx > 0 && !Boundary(s, idx)
        invariant 0 <= idx <= remaining < |s|
        invariant Floor(s, remaining) == Floor(s, idx)
      {
        idx := idx - 1;
      }
      buf.text := buf.text + s[..idx];
    }
  }

  /** Read until the end of the stream or an error; chunks are what the
      successive reads return before it. */
  method DrainStream(chunks: seq<Bytes>, buf: SharedText, cap: nat)
    requires WellFormed(buf.text)
    modifies buf
    ensures buf.text == Drain(old(buf.text), chunks, cap).text
    ensures WellFormed(buf.text) && old(buf.text) <= buf.text
  {
    var leftover: Bytes := [];
    ghost var start := buf.text;
    for k := 0 to |chunks|
      invariant State(buf.text, leftover) == Drain(start, chunks[..k], cap)
    {
      assert Front(chunks[..k + 1]) == chunks[..k] && Last(chunks[..k + 1]) == chunks[k];
      var data := if leftover == [] then chunks[k] else leftover + chunks[k];
      assert data == leftover + chunks[k];
      var validUpTo := ValidUpTo(data);
      leftover := data[validUpTo..];
      AppendCapped(buf, data[..validUpTo], cap);
    }
    assert chunks[..|chunks|] == chunks && chunks[..0] == [];
    DrainKeepsText(start, chunks, cap, 0);
  }
}
