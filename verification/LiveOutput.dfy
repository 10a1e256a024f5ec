/** Live output: the offset endpoint of the local application, and the poller
    of the Python client that prints each line once with a prefix. */
module LiveOutput {
  import opened Tasks
  import opened Sequences
  import opened Chunks
  import opened Utf8
  import opened CodePoints
  import Draining

  const NEWLINE: CodePoint := 10

  // ---------------------------------------------------------------------
  // The endpoint
  // ---------------------------------------------------------------------

  /** What the endpoint answers about an output of which `since` bytes are
      known: the rest as text, and the length in bytes. */
  function Serve(output: Bytes, since: nat): (Text, nat) {
    (Lossy(if since <= |output| then output[since..] else []), |output|)
  }

  // ---------------------------------------------------------------------
  // The poller
  // ---------------------------------------------------------------------

  /** One stream of the poller: bytes consumed, the unfinished line, and what
      it has written so far. */
  datatype Channel = Channel(offset: nat, tail: Text, written: Text)

  const START := Channel(0, [], [])

  /** str.split on newlines. */
  function Split(t: Text): (lines: seq<Text>)
    ensures |lines| >= 1
  {
    if t == [] then [[]]
    else
      var rest := Split(t[1..]);
      if t[0] == NEWLINE then [[]] + rest else [[t[0]] + rest[0]] + rest[1..]
  }

  function Line(prefix: Text, line: Text): Text {
    prefix + line + [NEWLINE]
  }

  function Lines(prefix: Text, lines: seq<Text>): Text {
    if lines == [] then [] else Lines(prefix, Front(lines)) + Line(prefix, Last(lines))
  }

  function Emit(ch: Channel, prefix: Text, chunk: Text): (r: Channel)
    ensures r.offset == ch.offset
  {
    var lines := Split(ch.tail + chunk);
    ch.(tail := Last(lines), written := ch.written + Lines(prefix, Front(lines)))
  }

  /** One answered poll. */
  function Absorb(ch: Channel, prefix: Text, chunk: Text, total: nat): Channel {
    if chunk == [] then ch else Emit(ch.(offset := total), prefix, chunk)
  }

  function Flush(ch: Channel, prefix: Text): Channel {
    if ch.tail == [] then ch else ch.(tail := [], written := ch.written + Line(prefix, ch.tail))
  }

  // ---------------------------------------------------------------------
  // What should be printed
  // ---------------------------------------------------------------------

  /** The text with the prefix in front of every line, and a final newline if it
      has none. */
  function Prefixed(prefix: Text, t: Text, atStart: bool): Text {
    if t == [] then (if atStart then [] else [NEWLINE])
    else (if atStart then prefix else []) + [t[0]] + Prefixed(prefix, t[1..], t[0] == NEWLINE)
  }

  predicate IsLine(t: Text) {
    forall i :: 0 <= i < |t| ==> t[i] != NEWLINE
  }

  /** The text consists of whole lines. */
  predicate EndsLine(t: Text) {
    t == [] || Last(t) == NEWLINE
  }

  lemma {:induction false} PrefixedOneLine(prefix: Text, line: Text, rest: Text, atStart: bool)
    requires IsLine(line)
    ensures Prefixed(prefix, line + [NEWLINE] + rest, atStart)
         == (if atStart then prefix else []) + line + [NEWLINE] + Prefixed(prefix, rest, true)
    decreases |line|
  {
    var t := line + [NEWLINE] + rest;
    if line == [] {
      assert t[1..] == rest;
    } else {
      assert t[1..] == line[1..] + [NEWLINE] + rest;
      PrefixedOneLine(prefix, line[1..], rest, false);
      assert [line[0]] + line[1..] == line;
    }
  }

  lemma {:induction false} PrefixedAppend(prefix: Text, a: Text, b: Text, atStart: bool)
    requires EndsLine(a) && (a == [] ==> atStart)
    ensures Prefixed(prefix, a + b, atStart) == Prefixed(prefix, a, atStart) + Prefixed(prefix, b, true)
    decreases |a|
  {
    if a == [] {
      assert a + b == b;
    } else {
      assert (a + b)[1..] == a[1..] + b;
      PrefixedAppend(prefix, a[1..], b, a[0] == NEWLINE);
    }
  }

  lemma {:induction false} SplitOneLine(line: Text, rest: Text)
    requires IsLine(line)
    ensures Split(line + [NEWLINE] + rest) == [line] + Split(rest)
    decreases |line|
  {
    var t := line + [NEWLINE] + rest;
    if line == [] {
      assert t[1..] == rest;
    } else {
      assert t[1..] == line[1..] + [NEWLINE] + rest;
      SplitOneLine(line[1..], rest);
      assert [line[0]] + line[1..] == line;
    }
  }

  lemma {:induction false} SplitUnfinished(t: Text)
    requires IsLine(t)
    ensures Split(t) == [t]
    decreases |t|
  {
    if t != [] {
      SplitUnfinished(t[1..]);
      assert [t[0]] + t[1..] == t;
    }
  }

  lemma {:induction false} PrefixedUnfinished(prefix: Text, t: Text, atStart: bool)
    requires IsLine(t)
    ensures Prefixed(prefix, t, atStart)
         == if t == [] && atStart then [] else (if atStart then prefix else []) + t + [NEWLINE]
    decreases |t|
  {
    if t != [] {
      PrefixedUnfinished(prefix, t[1..], false);
      assert [t[0]] + t[1..] == t;
    }
  }

  lemma {:induction false} LinesCons(prefix: Text, line: Text, lines: seq<Text>)
    ensures Lines(prefix, [line] + lines) == Line(prefix, line) + Lines(prefix, lines)
    decreases |lines|
  {
    var all := [line] + lines;
    if lines == [] {
      assert Front(all) == [];
    } else {
      assert Front(all) == [line] + Front(lines);
      LinesCons(prefix, line, Front(lines));
    }
  }

  lemma {:induction false} FirstLine(t: Text) returns (line: Text, rest: Text)
    requires !IsLine(t)
    ensures IsLine(line) && t == line + [NEWLINE] + rest
    decreases |t|
  {
    if t[0] == NEWLINE {
      line, rest := [], t[1..];
    } else {
      line, rest := FirstLine(t[1..]);
      line := [t[0]] + line;
    }
  }

  lemma {:induction false} OneMoreLine(prefix: Text, line: Text, lines: seq<Text>, more: Text)
    requires IsLine(line) && lines != [] && EndsLine(more)
    requires Lines(prefix, Front(lines)) == Prefixed(prefix, more, true)
    ensures Lines(prefix, Front([line] + lines)) == Prefixed(prefix, line + [NEWLINE] + more, true)
    ensures Last([line] + lines) == Last(lines) && EndsLine(line + [NEWLINE] + more)
  {
    assert Front([line] + lines) == [line] + Front(lines);
    LinesCons(prefix, line, Front(lines));
    PrefixedOneLine(prefix, line, more, true);
    assert more != [] ==> Last(line + [NEWLINE] + more) == Last(more);
  }

  lemma {:induction false} SplitNone(prefix: Text, t: Text)
    requires IsLine(t)
    ensures Last(Split(t)) == t && Lines(prefix, Front(Split(t))) == Prefixed(prefix, [], true)
  {
    SplitUnfinished(t);
    assert Front([t]) == [];
  }

  /** Splitting cuts a text into printed lines and an unfinished one. */
  lemma {:induction false} SplitPrints(prefix: Text, t: Text) returns (done: Text)
    ensures IsLine(Last(Split(t))) && EndsLine(done)
    ensures t == done + Last(Split(t))
    ensures Lines(prefix, Front(Split(t))) == Prefixed(prefix, done, true)
    decreases |t|
  {
    hide Split, Lines, Prefixed;
    if IsLine(t) {
      SplitNone(prefix, t);
      done := [];
    } else {
      var line, rest := FirstLine(t);
      var more := SplitPrints(prefix, rest);
      SplitOneLine(line, rest);
      OneMoreLine(prefix, line, Split(rest), more);
      done := line + [NEWLINE] + more;
      assert line + [NEWLINE] + (more + Last(Split(rest))) == done + Last(Split(rest));
    }
  }

  // ---------------------------------------------------------------------
  // One poll
  // ---------------------------------------------------------------------

  /** What the poller knows of a text t: it has printed the whole lines of it
      and keeps the rest. */
  ghost predicate Printed(ch: Channel, prefix: Text, t: Text) {
    exists done: Text :: PrintedUpTo(ch, prefix, t, done)
  }

  ghost predicate PrintedUpTo(ch: Channel, prefix: Text, t: Text, done: Text) {
    && t == done + ch.tail
    && IsLine(ch.tail) && EndsLine(done)
    && ch.written == Prefixed(prefix, done, true)
  }

  lemma {:induction false} EmitPrints(ch: Channel, prefix: Text, t: Text, chunk: Text)
    requires Printed(ch, prefix, t)
    ensures Printed(Emit(ch, prefix, chunk), prefix, t + chunk)
  {
    var done :| PrintedUpTo(ch, prefix, t, done);
    var more := SplitPrints(prefix, ch.tail + chunk);
    PrefixedAppend(prefix, done, more, true);
    assert t + chunk == done + (ch.tail + chunk);
    assert done + (more + Last(Split(ch.tail + chunk))) == (done + more) + Last(Split(ch.tail + chunk));
    assert more != [] ==> Last(done + more) == Last(more);
    assert PrintedUpTo(Emit(ch, prefix, chunk), prefix, t + chunk, done + more);
  }

  lemma {:induction false} FlushPrints(ch: Channel, prefix: Text, t: Text)
    requires Printed(ch, prefix, t)
    ensures Flush(ch, prefix).written == Prefixed(prefix, t, true)
  {
    var done :| PrintedUpTo(ch, prefix, t, done);
    PrefixedAppend(prefix, done, ch.tail, true);
    PrefixedUnfinished(prefix, ch.tail, true);
  }

  // ---------------------------------------------------------------------
  // Every schedule of polls
  // ---------------------------------------------------------------------

  /** A poll that failed, or the output the endpoint saw when it answered. */
  function Poll(ch: Channel, prefix: Text, seen: Option<Bytes>): Channel {
    match seen
    case None => ch
    case Some(output) => var (chunk, total) := Serve(output, ch.offset); Absorb(ch, prefix, chunk, total)
  }

  function Polls(ch: Channel, prefix: Text, seen: seq<Option<Bytes>>): Channel {
    if seen == [] then ch else Poll(Polls(ch, prefix, Front(seen)), prefix, Last(seen))
  }

  /** Everything the user sees after stop. */
  function Shown(prefix: Text, seen: seq<Option<Bytes>>): Text {
    Flush(Polls(START, prefix, seen), prefix).written
  }

  /** The longest output any poll saw. */
  function Longest(seen: seq<Option<Bytes>>): nat {
    if seen == [] then 0
    else
      var n := Longest(Front(seen));
      if Last(seen).Some? && |Last(seen).value| > n then |Last(seen).value| else n
  }

  /** The output only grows: what was seen at any time is text, and a prefix of
      what there is at the end. */
  ghost predicate Growing(seen: seq<Option<Bytes>>, final: Bytes) {
    forall i :: 0 <= i < |seen| && seen[i].Some? ==> seen[i].value <= final && WellFormed(seen[i].value)
  }

  lemma {:induction false} LossyEmpty(s: Bytes)
    ensures Lossy(s) == [] <==> s == []
  {
  }

  /** One answer brings the poller from final[..offset] to final[..|output|]. */
  lemma {:induction false} PollPrints(ch: Channel, prefix: Text, output: Bytes, final: Bytes)
    requires ch.offset <= |final| && WellFormed(final[..ch.offset])
    requires Printed(ch, prefix, Lossy(final[..ch.offset]))
    requires output <= final && WellFormed(output)
    ensures var r := Poll(ch, prefix, Some(output));
      && r.offset == (if |output| > ch.offset then |output| else ch.offset)
      && WellFormed(final[..r.offset])
      && Printed(r, prefix, Lossy(final[..r.offset]))
  {
    hide WellFormed, Lossy, Printed, Emit;
    if |output| > ch.offset {
      var rest := output[ch.offset..];
      assert final[..|output|] == output == final[..ch.offset] + rest;
      LossyAppend(final[..ch.offset], rest);
      LossyEmpty(rest);
      EmitPrints(ch.(offset := |output|), prefix, Lossy(final[..ch.offset]), Lossy(rest))
        by { SameText(ch, |output|, prefix, Lossy(final[..ch.offset])); }
    } else {
      LossyEmpty([]);
    }
  }

  lemma SameText(ch: Channel, n: nat, prefix: Text, t: Text)
    requires Printed(ch, prefix, t)
    ensures Printed(ch.(offset := n), prefix, t)
  {
    var done :| PrintedUpTo(ch, prefix, t, done);
    assert PrintedUpTo(ch.(offset := n), prefix, t, done);
  }

  lemma {:induction false} PollsPrint(prefix: Text, seen: seq<Option<Bytes>>, final: Bytes)
    requires Growing(seen, final)
    ensures var ch := Polls(START, prefix, seen);
      && ch.offset == Longest(seen) <= |final|
      && WellFormed(final[..ch.offset])
      && Printed(ch, prefix, Lossy(final[..ch.offset]))
  {
    if seen == [] {
      assert PrintedUpTo(START, prefix, [], []);
      assert final[..0] == [];
    } else {
      var ch := Polls(START, prefix, Front(seen));
      PollsPrint(prefix, Front(seen), final);
      if Last(seen).Some? {
        PollPrints(ch, prefix, Last(seen).value, final);
      }
    }
  }

  /** For every schedule of polls, failed ones and out-of-date ones included,
      the user sees the longest output that was polled, each line once with its
      prefix, and the unfinished last line too. */
  lemma {:induction false} ShownIsLongestSeen(prefix: Text, seen: seq<Option<Bytes>>, final: Bytes)
    requires Growing(seen, final)
    ensures Longest(seen) <= |final|
    ensures Shown(prefix, seen) == Prefixed(prefix, Lossy(final[..Longest(seen)]), true)
  {
    PollsPrint(prefix, seen, final);
    FlushPrints(Polls(START, prefix, seen), prefix, Lossy(final[..Longest(seen)]));
  }

  // ---------------------------------------------------------------------
  // From the pipe to the screen
  // ---------------------------------------------------------------------

  /** Outputs polled while a pipe is drained: each poll fails, or sees the buffer
      as it was after some number of reads. */
  function Snapshots(chunks: seq<Bytes>, cap: nat, at: seq<Option<nat>>): seq<Option<Bytes>>
    requires forall i :: 0 <= i < |at| && at[i].Some? ==> at[i].value <= |chunks|
  {
    seq(|at|, i requires 0 <= i < |at| =>
      if at[i].Some? then Some(Draining.Drain([], chunks[..at[i].value], cap).text) else None)
  }

  lemma {:induction false} LongestBounds(seen: seq<Option<Bytes>>, i: nat)
    requires i < |seen| && seen[i].Some?
    ensures |seen[i].value| <= Longest(seen)
  {
    if i < |seen| - 1 {
      LongestBounds(Front(seen), i);
    }
  }

  lemma {:induction false} SnapshotsGrow(chunks: seq<Bytes>, cap: nat, at: seq<Option<nat>>)
    requires forall i :: 0 <= i < |at| && at[i].Some? ==> at[i].value <= |chunks|
    ensures Growing(Snapshots(chunks, cap, at), Draining.Drain([], chunks, cap).text)
  {
    forall i | 0 <= i < |at| && at[i].Some?
      ensures Draining.Drain([], chunks[..at[i].value], cap).text <= Draining.Drain([], chunks, cap).text
      ensures WellFormed(Draining.Drain([], chunks[..at[i].value], cap).text)
    {
      Draining.DrainKeepsText([], chunks, cap, at[i].value);
      Draining.DrainKeepsText([], chunks[..at[i].value], cap, 0);
    }
  }

  /** However the process's output is split into reads and whenever it is polled,
      if one poll is answered after the last read the user has seen all of the
      buffer, each line once with its prefix. */
  lemma {:induction false} PipeReachesScreen(prefix: Text, chunks: seq<Bytes>, cap: nat, at: seq<Option<nat>>, i: nat)
    requires forall i :: 0 <= i < |at| && at[i].Some? ==> at[i].value <= |chunks|
    requires i < |at| && at[i] == Some(|chunks|)
    ensures Shown(prefix, Snapshots(chunks, cap, at))
         == Prefixed(prefix, Lossy(Draining.Drain([], chunks, cap).text), true)
  {
    hide Prefixed, Lossy, Shown;
    var final := Draining.Drain([], chunks, cap).text;
    var seen := Snapshots(chunks, cap, at);
    SnapshotsGrow(chunks, cap, at);
    ShownIsLongestSeen(prefix, seen, final);
    assert chunks[..|chunks|] == chunks;
    LongestBounds(seen, i);
    assert final[..|final|] == final;
  }

  /** Two ways of reading the same output show the same text, when the buffer is
      large enough for it. */
  lemma {:induction false} ScreenIgnoresSplit(prefix: Text, a: seq<Bytes>, b: seq<Bytes>, cap: nat,
                                              at: seq<Option<nat>>, bt: seq<Option<nat>>, i: nat, j: nat)
    requires Concat(a) == Concat(b) && ValidUpTo(Concat(a)) <= cap
    requires forall i :: 0 <= i < |at| && at[i].Some? ==> at[i].value <= |a|
    requires forall i :: 0 <= i < |bt| && bt[i].Some? ==> bt[i].value <= |b|
    requires i < |at| && at[i] == Some(|a|) && j < |bt| && bt[j] == Some(|b|)
    ensures Shown(prefix, Snapshots(a, cap, at)) == Shown(prefix, Snapshots(b, cap, bt))
  {
    PipeReachesScreen(prefix, a, cap, at, i);
    PipeReachesScreen(prefix, b, cap, bt, j);
    Draining.CleanCases(Concat(a), cap);
    Draining.CleanDrain(a, cap);
    Draining.CleanDrain(b, cap);
  }
}
