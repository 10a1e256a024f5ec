/** Streams of bytes as the reads they arrive in. */
module Chunks {
  import opened Tasks
  import opened Sequences

  /** Most bytes one read returns. */
  const READ_SIZE: nat := 4096

  /** The reads an operating system may produce: each returns at least one byte
      and at most a full buffer. */
  predicate LegalReads(chunks: seq<Bytes>) {
    forall i :: 0 <= i < |chunks| ==> 0 < |chunks[i]| <= READ_SIZE
  }

  /** The stream that successive reads add up to. */
  function Concat(chunks: seq<Bytes>): Bytes {
    if chunks == [] then [] else Concat(Front(chunks)) + Last(chunks)
  }

  /** One byte per read. */
  function Singles(stream: Bytes): (chunks: seq<Bytes>)
    ensures |chunks| == |stream|
    ensures forall i :: 0 <= i < |stream| ==> chunks[i] == [stream[i]]
  {
    seq(|stream|, i requires 0 <= i < |stream| => [stream[i]])
  }

  lemma {:induction false} ConcatSingles(stream: Bytes)
    ensures Concat(Singles(stream)) == stream
  {
    if stream != [] {
      ConcatSingles(Front(stream));
      assert Front(Singles(stream)) == Singles(Front(stream));
      assert stream == Front(stream) + [Last(stream)];
    }
  }

  lemma {:induction false} ConcatCons(chunk: Bytes, chunks: seq<Bytes>)
    ensures Concat([chunk] + chunks) == chunk + Concat(chunks)
    decreases |chunks|
  {
    var all := [chunk] + chunks;
    if chunks == [] {
      assert Front(all) == [];
    } else {
      assert Front(all) == [chunk] + Front(chunks);
      ConcatCons(chunk, Front(chunks));
    }
  }

  lemma {:induction false} ConcatAppend(a: seq<Bytes>, b: seq<Bytes>)
    ensures Concat(a + b) == Concat(a) + Concat(b)
    decreases |b|
  {
    if b == [] {
      assert a + b == a;
    } else {
      ConcatAppend(a, Front(b));
      assert Front(a + b) == a + Front(b) && Last(a + b) == Last(b);
      assert Concat(a + b) == Concat(a + Front(b)) + Last(b);
    }
  }
}
