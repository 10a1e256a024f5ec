/** Decoding bytes to Unicode code points, with a replacement character for what
    is ill-formed. */
module CodePoints {
  import opened Tasks
  import opened Utf8

  /** Text as a client sees it: Unicode code points. */
  type CodePoint = int
  type Text = seq<CodePoint>

  const REPLACEMENT: CodePoint := 0xFFFD

  /** The code point of the character at the head of s. */
  function HeadPoint(s: Bytes): CodePoint
    requires CharLen(s) > 0
  {
    var n := CharLen(s);
    if n == 1 then s[0] as int
    else if n == 2 then (s[0] as int - 0xC0) * 64 + (s[1] as int - 0x80)
    else if n == 3 then ((s[0] as int - 0xE0) * 64 + (s[1] as int - 0x80)) * 64 + (s[2] as int - 0x80)
    else (((s[0] as int - 0xF0) * 64 + (s[1] as int - 0x80)) * 64 + (s[2] as int - 0x80)) * 64 + (s[3] as int - 0x80)
  }

  /** How many ill-formed bytes one replacement character stands for: the
      longest part that could have begun a character. */
  function BadLen(s: Bytes): (n: nat)
    requires s != [] && CharLen(s) == 0
    ensures 0 < n <= |s|
  {
    if |s| > 1 && 0xE0 <= s[0] <= 0xEF && SecondOfThree(s[0], s[1]) then 2
    else if |s| > 1 && 0xF0 <= s[0] <= 0xF4 && SecondOfFour(s[0], s[1]) then (if |s| > 2 && Cont(s[2]) then 3 else 2)
    else 1
  }

  /** from_utf8_lossy. */
  function Lossy(s: Bytes): Text
    decreases |s|
  {
    if s == [] then []
    else if CharLen(s) > 0 then [HeadPoint(s)] + Lossy(s[CharLen(s)..])
    else [REPLACEMENT] + Lossy(s[BadLen(s)..])
  }

  lemma {:induction false} HeadPointOfAppend(s: Bytes, t: Bytes)
    requires CharLen(s) > 0
    ensures CharLen(s + t) == CharLen(s) && HeadPoint(s + t) == HeadPoint(s)
  {
    CharLenOfAppend(s, t);
  }

  /** Decoding in pieces loses nothing when the cut is a character boundary. */
  lemma {:induction false} LossyAppend(a: Bytes, b: Bytes)
    requires WellFormed(a)
    ensures Lossy(a + b) == Lossy(a) + Lossy(b)
    decreases |a|
  {
    hide CharLen, HeadPoint, BadLen;
    if a == [] {
      assert a + b == b;
    } else {
      var n := CharLen(a);
      HeadPointOfAppend(a, b);
      assert (a + b)[n..] == a[n..] + b;
      LossyAppend(a[n..], b);
    }
  }

  // ---------------------------------------------------------------------
  // Encoding, as in section 3 of RFC 3629
  // ---------------------------------------------------------------------

  predicate Scalar(p: CodePoint) {
    0 <= p <= 0x10FFFF && !(0xD800 <= p <= 0xDFFF)
  }

  predicate Scalars(t: Text) {
    forall i :: 0 <= i < |t| ==> Scalar(t[i])
  }

  /** A continuation byte with six bits of p. */
  function Tail(p: nat): byte {
    (0x80 + p % 64) as byte
  }

  function Encode(p: CodePoint): Bytes
    requires Scalar(p)
  {
    if p < 0x80 then [p as byte]
    else if p < 0x800 then [(0xC0 + p / 64) as byte, Tail(p)]
    else if p < 0x10000 then [(0xE0 + p / 64 / 64) as byte, Tail(p / 64), Tail(p)]
    else [(0xF0 + p / 64 / 64 / 64) as byte, Tail(p / 64 / 64), Tail(p / 64), Tail(p)]
  }

  function EncodeText(t: Text): Bytes
    requires Scalars(t)
  {
    if t == [] then [] else Encode(t[0]) + EncodeText(t[1..])
  }

  /** What was encoded is what the head of the text decodes to. */
  lemma {:induction false} HeadOfEncoded(p: CodePoint, rest: Bytes)
    requires Scalar(p)
    ensures CharLen(Encode(p) + rest) == |Encode(p)| > 0 && HeadPoint(Encode(p) + rest) == p
  {
    var s := Encode(p);
    assert CharLen(s) == |s| && HeadPoint(s) == p;
    HeadPointOfAppend(s, rest);
  }

  lemma {:induction false} EncodingOfTwo(b0: byte, b1: byte)
    requires 0xC2 <= b0 <= 0xDF && Cont(b1)
    ensures var p := (b0 as int - 0xC0) * 64 + (b1 as int - 0x80);
      Scalar(p) && Encode(p) == [b0, b1]
  {
  }

  lemma {:induction false} EncodingOfThree(b0: byte, b1: byte, b2: byte)
    requires 0xE0 <= b0 <= 0xEF && SecondOfThree(b0, b1) && Cont(b2)
    ensures var p := ((b0 as int - 0xE0) * 64 + (b1 as int - 0x80)) * 64 + (b2 as int - 0x80);
      Scalar(p) && Encode(p) == [b0, b1, b2]
  {
    var q := (b0 as int - 0xE0) * 64 + (b1 as int - 0x80);
    assert q / 64 == b0 as int - 0xE0 && q % 64 == b1 as int - 0x80;
  }

  lemma {:induction false} EncodingOfFour(b0: byte, b1: byte, b2: byte, b3: byte)
    requires 0xF0 <= b0 <= 0xF4 && SecondOfFour(b0, b1) && Cont(b2) && Cont(b3)
    ensures var p := (((b0 as int - 0xF0) * 64 + (b1 as int - 0x80)) * 64 + (b2 as int - 0x80)) * 64 + (b3 as int - 0x80);
      Scalar(p) && Encode(p) == [b0, b1, b2, b3]
  {
    var q := (b0 as int - 0xF0) * 64 + (b1 as int - 0x80);
    assert q / 64 == b0 as int - 0xF0 && q % 64 == b1 as int - 0x80;
    var r := q * 64 + (b2 as int - 0x80);
    assert r / 64 == q && r % 64 == b2 as int - 0x80;
  }

  /** Every well-formed character is the encoding of its code point: no
      surrogate, no overlong form, nothing beyond 0x10FFFF. */
  lemma {:induction false} EncodingOfHead(s: Bytes)
    requires CharLen(s) > 0
    ensures Scalar(HeadPoint(s)) && Encode(HeadPoint(s)) == s[..CharLen(s)]
  {
    hide Encode, Scalar;
    var n := CharLen(s);
    if n == 1 {
      EncodingOfOne(s[0]);
      assert s[..1] == [s[0]];
    } else if n == 2 {
      EncodingOfTwo(s[0], s[1]);
      assert s[..2] == [s[0], s[1]];
    } else if n == 3 {
      EncodingOfThree(s[0], s[1], s[2]);
      assert s[..3] == [s[0], s[1], s[2]];
    } else {
      EncodingOfFour(s[0], s[1], s[2], s[3]);
      assert s[..4] == [s[0], s[1], s[2], s[3]];
    }
  }

  lemma EncodingOfOne(b: byte)
    requires b <= 0x7F
    ensures Scalar(b as int) && Encode(b as int) == [b]
  {
  }

  lemma {:induction false} DecodeOfEncode(t: Text)
    requires Scalars(t)
    ensures WellFormed(EncodeText(t)) && Lossy(EncodeText(t)) == t
    decreases |t|
  {
    hide CharLen, HeadPoint, Encode, BadLen;
    if t != [] {
      var rest := EncodeText(t[1..]);
      HeadOfEncoded(t[0], rest);
      assert (Encode(t[0]) + rest)[|Encode(t[0])|..] == rest;
      DecodeOfEncode(t[1..]);
      assert [t[0]] + t[1..] == t;
    }
  }

  lemma {:induction false} EncodeOfDecode(s: Bytes)
    requires WellFormed(s)
    ensures Scalars(Lossy(s)) && EncodeText(Lossy(s)) == s
    decreases |s|
  {
    hide CharLen, HeadPoint, Encode, BadLen;
    if s != [] {
      var n := CharLen(s);
      EncodingOfHead(s);
      EncodeOfDecode(s[n..]);
      var p, rest := HeadPoint(s), Lossy(s[n..]);
      assert Lossy(s) == [p] + rest && ([p] + rest)[1..] == rest;
      assert EncodeText([p] + rest) == Encode(p) + EncodeText(rest);
      assert s == s[..n] + s[n..];
    }
  }

  /** The bytes accepted as text are exactly the encodings, and decoding and
      encoding undo each other. */
  lemma {:induction false} WellFormedExactly(s: Bytes)
    ensures WellFormed(s) <==> exists t: Text :: Scalars(t) && EncodeText(t) == s
  {
    hide WellFormed, EncodeText, Lossy, Scalars;
    if WellFormed(s) {
      EncodeOfDecode(s);
    }
    forall t: Text | Scalars(t) && EncodeText(t) == s
      ensures WellFormed(s)
    {
      DecodeOfEncode(t);
    }
  }

  // ---------------------------------------------------------------------
  // What is ill-formed
  // ---------------------------------------------------------------------

  /** A character that is cut short ends where it does. */
  lemma CutCharIsBad(c: Bytes, k: nat, b: Bytes)
    requires CharLen(c) == |c| && 0 < k < |c| && (b == [] || !Cont(b[0]))
    ensures CharLen(c[..k] + b) == 0 && BadLen(c[..k] + b) == k
  {
    var s := c[..k] + b;
    assert s[0] == c[0] && (k > 1 ==> s[1] == c[1]) && (k > 2 ==> s[2] == c[2]);
    assert |s| > k ==> s[k] == b[0];
  }

  /** However a character is cut short it decodes to one replacement character, and
      what stands before and after it is not affected. */
  lemma {:induction false} CutCharIsOneReplacement(a: Bytes, p: CodePoint, k: nat, b: Bytes)
    requires WellFormed(a) && Scalar(p) && 0 < k < |Encode(p)| && (b == [] || !Cont(b[0]))
    ensures Lossy(a + (Encode(p)[..k] + b)) == Lossy(a) + ([0xFFFD] + Lossy(b))
  {
    hide Encode, CharLen, BadLen, HeadPoint, WellFormed;
    var c := Encode(p);
    HeadOfEncoded(p, []);
    assert c + [] == c;
    CutCharIsBad(c, k, b);
    assert (c[..k] + b)[k..] == b;
    LossyAppend(a, c[..k] + b);
  }

  /** A byte that begins no character decodes to one of its own. */
  lemma {:induction false} StrayByteIsOneReplacement(a: Bytes, c: byte, b: Bytes)
    requires WellFormed(a) && (0x80 <= c <= 0xC1 || c >= 0xF5)
    ensures Lossy(a + ([c] + b)) == Lossy(a) + ([0xFFFD] + Lossy(b))
  {
    assert CharLen([c] + b) == 0 && BadLen([c] + b) == 1 && ([c] + b)[1..] == b;
    hide CharLen, BadLen, HeadPoint, WellFormed;
    LossyAppend(a, [c] + b);
  }
}
