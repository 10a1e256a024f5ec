/** The poller object: two channels, polled together. */
module LivePolling {
  import opened Tasks
  import opened Sequences
  import opened CodePoints
  import opened LiveOutput

  /** The answer of the endpoint, as far as the poller reads it. */
  datatype Reply = Reply(outChunk: Text, outTotal: nat, errChunk: Text, errTotal: nat)

  /** One output stream of the user: standard output or standard error. */
  class Stream {
    var offset: nat
    var tail: Text
    var written: Text

    ghost function Value(): Channel
      reads this
    {
      Channel(offset, tail, written)
    }

    constructor ()
      ensures Value() == START
    {
      offset, tail, written := 0, [], [];
    }

    method Write(prefix: Text, chunk: Text)
      modifies this
      ensures Value() == Emit(old(Value()), prefix, chunk)
    {
      var lines := Split(tail + chunk);
      var complete := Front(lines);
      tail := Last(lines);
      ghost var before := written;
      for k := 0 to |complete|
        invariant offset == old(offset) && tail == Last(lines)
        invariant written == before + Lines(prefix, complete[..k])
      {
        assert Front(complete[..k + 1]) == complete[..k] && Last(complete[..k + 1]) == complete[k];
        assert (before + Lines(prefix, complete[..k])) + Line(prefix, complete[k])
            == before + (Lines(prefix, complete[..k]) + Line(prefix, complete[k]));
        written := written + Line(prefix, complete[k]);
      }
      assert complete[..|complete|] == complete;
    }

    method FlushTail(prefix: Text)
      modifies this
      ensures Value() == Flush(old(Value()), prefix)
    {
      if tail != [] {
        written := written + Line(prefix, tail);
        tail := [];
      }
    }
  }

  /** What the endpoint sees when it answers: the output and the error output. */
  datatype Seen = Seen(output: Bytes, errorOutput: Bytes)

  function Answer(seen: Option<Seen>, outSince: nat, errSince: nat): Option<Reply> {
    match seen
    case None => None
    case Some(s) =>
      var (outChunk, outTotal) := Serve(s.output, outSince);
      var (errChunk, errTotal) := Serve(s.errorOutput, errSince);
      Some(Reply(outChunk, outTotal, errChunk, errTotal))
  }

  function Outputs(seen: seq<Option<Seen>>): (r: seq<Option<Bytes>>)
    ensures |r| == |seen|
  {
    seq(|seen|, i requires 0 <= i < |seen| => if seen[i].Some? then Some(seen[i].value.output) else None)
  }

  function ErrorOutputs(seen: seq<Option<Seen>>): (r: seq<Option<Bytes>>)
    ensures |r| == |seen|
  {
    seq(|seen|, i requires 0 <= i < |seen| => if seen[i].Some? then Some(seen[i].value.errorOutput) else None)
  }

  class LivePoller {
    const prefix: Text
    const stdout: Stream
    const stderr: Stream

    constructor (prefix: Text)
      ensures this.prefix == prefix && Valid() && fresh(stdout) && fresh(stderr)
      ensures stdout.Value() == START && stderr.Value() == START
    {
      this.prefix := prefix;
      this.stdout := new Stream();
      this.stderr := new Stream();
    }

    ghost predicate Valid() {
      stdout != stderr
    }

    /** One round; no reply when the request failed or was refused. */
    method PollOnce(reply: Option<Reply>)
      requires Valid()
      modifies stdout, stderr
      ensures stdout.Value() ==
        match reply
        case None => old(stdout.Value())
        case Some(r) => Absorb(old(stdout.Value()), prefix, r.outChunk, r.outTotal)
      ensures stderr.Value() ==
        match reply
        case None => old(stderr.Value())
        case Some(r) => Absorb(old(stderr.Value()), prefix, r.errChunk, r.errTotal)
    {
      if reply.None? {
        return;
      }
      var r := reply.value;
      if r.outChunk != [] {
        stdout.offset := r.outTotal;
        stdout.Write(prefix, r.outChunk);
      }
      if r.errChunk != [] {
        stderr.offset := r.errTotal;
        stderr.Write(prefix, r.errChunk);
      }
    }

    method FlushTails()
      requires Valid()
      modifies stdout, stderr
      ensures stdout.Value() == Flush(old(stdout.Value()), prefix)
      ensures stderr.Value() == Flush(old(stderr.Value()), prefix)
    {
      stdout.FlushTail(prefix);
      stderr.FlushTail(prefix);
    }

    /** The whole life of the poller: background polls, then the last poll and
        the flush of stop. The two streams of the user come out as if each had
        been polled alone. */
    method RunAndStop(seen: seq<Option<Seen>>, last: Option<Seen>)
      requires Valid() && stdout.Value() == START && stderr.Value() == START
      modifies stdout, stderr
      ensures stdout.written == Shown(prefix, Outputs(seen + [last]))
      ensures stderr.written == Shown(prefix, ErrorOutputs(seen + [last]))
    {
      var all := seen + [last];
      for k := 0 to |all|
        invariant stdout.Value() == Polls(START, prefix, Outputs(all[..k]))
        invariant stderr.Value() == Polls(START, prefix, ErrorOutputs(all[..k]))
      {
        OneMore(all, k);
        PollOnce(Answer(all[k], stdout.offset, stderr.offset));
      }
      assert all[..|all|] == all;
      FlushTails();
    }
  }

  lemma OneMore(all: seq<Option<Seen>>, k: nat)
    requires k < |all|
    ensures Front(Outputs(all[..k + 1])) == Outputs(all[..k])
    ensures Front(ErrorOutputs(all[..k + 1])) == ErrorOutputs(all[..k])
  {
  }
}
