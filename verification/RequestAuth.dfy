/** The authentication header of a peer request: a timestamp and a MAC over the
    timestamp, the method, the path and the hash of the body. Hash and MAC are
    parameters; what is assumed of them is said where it is used. */
module RequestAuth {
  import opened Tasks
  import opened Sequences

  /** Largest accepted distance between the two clocks, in milliseconds. */
  const AUTH_WINDOW_MS: nat := 30_000
  const U64_LIMIT: nat := 0x1_0000_0000_0000_0000

  const NEWLINE: byte := 10
  const COLON: byte := 58
  const PLUS: byte := 43
  const ZERO: byte := 48

  function Ascii(s: string): Bytes
    requires forall i :: 0 <= i < |s| ==> s[i] < 128 as char
  {
    seq(|s|, i requires 0 <= i < |s| => s[i] as int as byte)
  }

  const REQUEST_DOMAIN: string := "PartaGPU/auth-req/v1\n"
  const RESPONSE_DOMAIN: string := "PartaGPU/verify-resp/v1\n"

  /** SHA-256 and HMAC-SHA256 (section 2 of RFC 2104) as parameters. */
  datatype Crypto = Crypto(hash: Bytes -> Bytes, mac: (Bytes, Bytes) -> Bytes)

  /** What a request header authenticates. */
  datatype Request = Request(verb: Bytes, path: Bytes, body: Bytes)

  datatype AuthError = Malformed | TimestampOutOfWindow(drift: nat) | Mismatch

  // ---------------------------------------------------------------------
  // Numbers and bytes as text
  // ---------------------------------------------------------------------

  function Decimal(n: nat): (s: Bytes)
    ensures s != [] && forall i :: 0 <= i < |s| ==> Digit(s[i])
  {
    var digit := ZERO + (n % 10) as byte;
    if n < 10 then [digit] else Decimal(n / 10) + [digit]
  }

  predicate Digit(b: byte) {
    ZERO <= b <= ZERO + 9
  }

  function ValueOf(digits: Bytes): nat
    requires forall i :: 0 <= i < |digits| ==> Digit(digits[i])
  {
    if digits == [] then 0
    else
      assert Digit(digits[|digits| - 1]);
      ValueOf(Front(digits)) * 10 + (Last(digits) - ZERO) as nat
  }

  function ParseDigits(digits: Bytes): Option<nat> {
    if digits == [] || exists i :: 0 <= i < |digits| && !Digit(digits[i]) then None
    else if ValueOf(digits) >= U64_LIMIT then None
    else Some(ValueOf(digits))
  }

  /** str::parse for u64: an optional plus sign, then digits. */
  function ParseU64(s: Bytes): Option<nat> {
    ParseDigits(if s != [] && s[0] == PLUS then s[1..] else s)
  }

  function HexDigit(n: byte): byte
    requires n < 16
  {
    if n < 10 then ZERO + n else 97 + (n - 10)
  }

  function Hex(s: Bytes): (h: Bytes)
    ensures |h| == 2 * |s|
  {
    if s == [] then [] else [HexDigit(s[0] / 16), HexDigit(s[0] % 16)] + Hex(s[1..])
  }

  // ---------------------------------------------------------------------
  // Computing and verifying
  // ---------------------------------------------------------------------

  /** The bytes the MAC of a request is taken over. */
  function Frame(c: Crypto, ts: nat, r: Request): Bytes {
    Ascii(REQUEST_DOMAIN) + (Decimal(ts) + [NEWLINE] + (r.verb + [NEWLINE] + (r.path + [NEWLINE] + c.hash(r.body))))
  }

  /** The bytes the MAC of a peer-verification answer is taken over. */
  function ResponseFrame(nonce: Bytes): Bytes {
    Ascii(RESPONSE_DOMAIN) + nonce
  }

  function RequestMac(c: Crypto, key: Bytes, ts: nat, r: Request): Bytes {
    Hex(c.mac(key, Frame(c, ts, r)))
  }

  function ComputeRequestAuth(c: Crypto, key: Bytes, r: Request, now: nat): Bytes {
    Decimal(now) + [COLON] + RequestMac(c, key, now, r)
  }

  function ComputeVerifyResponse(c: Crypto, key: Bytes, nonce: Bytes): Bytes {
    Hex(c.mac(key, ResponseFrame(nonce)))
  }

  function VerifyResponse(c: Crypto, key: Bytes, nonce: Bytes, candidate: Bytes): bool {
    ComputeVerifyResponse(c, key, nonce) == candidate
  }

  /** str::split_once on a byte. */
  function SplitOnce(s: Bytes, at: byte): Option<(Bytes, Bytes)> {
    if s == [] then None
    else if s[0] == at then Some(([], s[1..]))
    else match SplitOnce(s[1..], at)
      case None => None
      case Some((a, b)) => Some(([s[0]] + a, b))
  }

  function AbsDiff(a: nat, b: nat): nat {
    if a >= b then a - b else b - a
  }

  function VerifyRequestAuth(c: Crypto, key: Bytes, header: Bytes, r: Request, now: nat): Result<(), AuthError> {
    match SplitOnce(header, COLON)
    case None => Err(Malformed)
    case Some((tsText, macHex)) =>
      if tsText == [] || macHex == [] then Err(Malformed)
      else match ParseU64(tsText)
        case None => Err(Malformed)
        case Some(ts) =>
          if AbsDiff(now, ts) > AUTH_WINDOW_MS then Err(TimestampOutOfWindow(AbsDiff(now, ts)))
          else if RequestMac(c, key, ts, r) != macHex then Err(Mismatch)
          else Ok(())
  }

  // ---------------------------------------------------------------------
  // Framing
  // ---------------------------------------------------------------------

  predicate Free(s: Bytes, b: byte) {
    forall i :: 0 <= i < |s| ==> s[i] != b
  }

  lemma {:induction false} SplitAt(a: Bytes, at: byte, x: Bytes)
    requires Free(a, at)
    ensures SplitOnce(a + [at] + x, at) == Some((a, x))
    decreases |a|
  {
    var s := a + [at] + x;
    if a == [] {
      assert s[1..] == x;
    } else {
      assert s[1..] == a[1..] + [at] + x;
      SplitAt(a[1..], at, x);
      assert [a[0]] + a[1..] == a;
    }
  }

  lemma {:induction false} FieldsDiffer(a: Bytes, x: Bytes, b: Bytes, y: Bytes)
    requires Free(a, NEWLINE) && Free(b, NEWLINE)
    ensures a + [NEWLINE] + x == b + [NEWLINE] + y <==> a == b && x == y
  {
    SplitAt(a, NEWLINE, x);
    SplitAt(b, NEWLINE, y);
  }

  lemma {:induction false} ValueOfDecimal(n: nat)
    ensures ValueOf(Decimal(n)) == n
  {
    if n >= 10 {
      ValueOfDecimal(n / 10);
      assert Front(Decimal(n)) == Decimal(n / 10);
    }
  }

  /** A printed timestamp reads back as itself. */
  lemma {:induction false} DecimalRoundTrip(n: nat)
    ensures ParseU64(Decimal(n)) == if n < U64_LIMIT then Some(n) else None
  {
    ValueOfDecimal(n);
    assert Digit(Decimal(n)[0]);
  }

  lemma {:induction false} HexIsInjective(a: Bytes, b: Bytes)
    ensures Hex(a) == Hex(b) <==> a == b
    decreases |a|
  {
    if Hex(a) == Hex(b) && a != [] {
      assert Hex(a)[0] == Hex(b)[0] && Hex(a)[1] == Hex(b)[1];
      assert a[0] == b[0];
      assert Hex(a)[2..] == Hex(a[1..]) && Hex(b)[2..] == Hex(b[1..]);
      HexIsInjective(a[1..], b[1..]);
      assert a == [a[0]] + a[1..] && b == [b[0]] + b[1..];
    }
  }

  const HEX_DIGITS: string := "0123456789abcdef"

  lemma HexDigitSpells(n: byte)
    requires n < 16
    ensures HexDigit(n) == Ascii(HEX_DIGITS)[n]
  {
    if {
      case n < 4 => assert HEX_DIGITS[0] == '0' && HEX_DIGITS[1] == '1' && HEX_DIGITS[2] == '2' && HEX_DIGITS[3] == '3';
      case 4 <= n < 8 => assert HEX_DIGITS[4] == '4' && HEX_DIGITS[5] == '5' && HEX_DIGITS[6] == '6' && HEX_DIGITS[7] == '7';
      case 8 <= n < 12 => assert HEX_DIGITS[8] == '8' && HEX_DIGITS[9] == '9' && HEX_DIGITS[10] == 'a' && HEX_DIGITS[11] == 'b';
      case 12 <= n => assert HEX_DIGITS[12] == 'c' && HEX_DIGITS[13] == 'd' && HEX_DIGITS[14] == 'e' && HEX_DIGITS[15] == 'f';
    }
  }

  /** Two lower-case digits for each byte, the high half first. */
  lemma {:induction false} HexSpells(s: Bytes, i: nat)
    requires i < |s|
    ensures Hex(s)[2 * i] == Ascii(HEX_DIGITS)[s[i] / 16] && Hex(s)[2 * i + 1] == Ascii(HEX_DIGITS)[s[i] % 16]
    decreases |s|
  {
    hide HexDigit, Ascii;
    HexDigitSpells(s[0] / 16);
    HexDigitSpells(s[0] % 16);
    if i > 0 {
      HexSpells(s[1..], i - 1);
    }
  }

  /** The text of a header: the time, a colon, and the MAC of the frame in hex. */
  lemma HeaderSpells(c: Crypto, key: Bytes, r: Request, now: nat, i: nat)
    requires i < |c.mac(key, Frame(c, now, r))|
    ensures var h, mac, at := ComputeRequestAuth(c, key, r, now), c.mac(key, Frame(c, now, r)), |Decimal(now)| + 1;
      && |h| == at + 2 * |mac| && h[..at] == Decimal(now) + [COLON]
      && h[at + 2 * i] == Ascii(HEX_DIGITS)[mac[i] / 16] && h[at + 2 * i + 1] == Ascii(HEX_DIGITS)[mac[i] % 16]
  {
    hide Decimal, Frame, Hex, Ascii;
    HexSpells(c.mac(key, Frame(c, now, r)), i);
  }

  /** The text of an answer to a challenge. */
  lemma AnswerSpells(c: Crypto, key: Bytes, nonce: Bytes, i: nat)
    requires i < |c.mac(key, Ascii(RESPONSE_DOMAIN) + nonce)|
    ensures var h, mac := ComputeVerifyResponse(c, key, nonce), c.mac(key, Ascii(RESPONSE_DOMAIN) + nonce);
      |h| == 2 * |mac| && h[2 * i] == Ascii(HEX_DIGITS)[mac[i] / 16] && h[2 * i + 1] == Ascii(HEX_DIGITS)[mac[i] % 16]
  {
    hide Hex, Ascii;
    HexSpells(c.mac(key, Ascii(RESPONSE_DOMAIN) + nonce), i);
  }

  lemma {:induction false} SuffixSplits(a: Bytes, x: Bytes, b: Bytes, y: Bytes)
    requires |x| == |y|
    ensures a + x == b + y <==> a == b && x == y
  {
    if a + x == b + y {
      assert (a + x)[..|a|] == a && (a + x)[|a|..] == x;
      assert (b + y)[..|b|] == b && (b + y)[|b|..] == y;
    }
  }

  lemma {:induction false} PrefixCancels(p: Bytes, x: Bytes, y: Bytes)
    ensures p + x == p + y <==> x == y
  {
    if p + x == p + y {
      assert (p + x)[|p|..] == x && (p + y)[|p|..] == y;
    }
  }

  /** Two frames are equal exactly when timestamp and body hash are, and the two
      other fields are as one text with the newline between them. */
  lemma {:induction false} FramesEqualExactly(c: Crypto, ts: nat, r: Request, us: nat, q: Request)
    requires |c.hash(r.body)| == |c.hash(q.body)|
    ensures Frame(c, ts, r) == Frame(c, us, q)
       <==> ts == us && r.verb + [NEWLINE] + r.path == q.verb + [NEWLINE] + q.path && c.hash(r.body) == c.hash(q.body)
  {
    hide Decimal, Ascii;
    PrefixCancels(Ascii(REQUEST_DOMAIN),
      Decimal(ts) + [NEWLINE] + (r.verb + [NEWLINE] + (r.path + [NEWLINE] + c.hash(r.body))),
      Decimal(us) + [NEWLINE] + (q.verb + [NEWLINE] + (q.path + [NEWLINE] + c.hash(q.body))));
    FieldsDiffer(Decimal(ts), r.verb + [NEWLINE] + (r.path + [NEWLINE] + c.hash(r.body)),
      Decimal(us), q.verb + [NEWLINE] + (q.path + [NEWLINE] + c.hash(q.body)));
    ValueOfDecimal(ts);
    ValueOfDecimal(us);
    SuffixSplits(r.verb + [NEWLINE] + r.path, [NEWLINE] + c.hash(r.body),
      q.verb + [NEWLINE] + q.path, [NEWLINE] + c.hash(q.body));
    PrefixCancels([NEWLINE], c.hash(r.body), c.hash(q.body));
    Regrouped(r.verb, r.path, c.hash(r.body));
    Regrouped(q.verb, q.path, c.hash(q.body));
  }

  lemma {:induction false} Regrouped(verb: Bytes, path: Bytes, digest: Bytes)
    ensures verb + [NEWLINE] + (path + [NEWLINE] + digest) == (verb + [NEWLINE] + path) + ([NEWLINE] + digest)
  {
  }

  /** When no method contains a newline, equal frames are frames of the same
      timestamp, method, path and body hash. */
  lemma {:induction false} FrameIsInjective(c: Crypto, ts: nat, r: Request, us: nat, q: Request)
    requires Free(r.verb, NEWLINE) && Free(q.verb, NEWLINE)
    requires |c.hash(r.body)| == |c.hash(q.body)|
    ensures Frame(c, ts, r) == Frame(c, us, q)
       <==> ts == us && r.verb == q.verb && r.path == q.path && c.hash(r.body) == c.hash(q.body)
  {
    hide Frame, Free;
    FramesEqualExactly(c, ts, r, us, q);
    FieldsDiffer(r.verb, r.path, q.verb, q.path);
  }

  /** With a newline in a method the framing is ambiguous. */
  lemma NewlineInMethodIsAmbiguous(c: Crypto, ts: nat, body: Bytes)
    ensures var r, q := Request([65, NEWLINE, 66], [67], body), Request([65], [66, NEWLINE, 67], body);
      r != q && Frame(c, ts, r) == Frame(c, ts, q)
  {
    var r, q := Request([65, NEWLINE, 66], [67], body), Request([65], [66, NEWLINE, 67], body);
    assert r.verb + [NEWLINE] + r.path == [65, NEWLINE, 66, NEWLINE, 67] == q.verb + [NEWLINE] + q.path;
    FramesEqualExactly(c, ts, r, ts, q);
  }

  lemma DomainBytes()
    ensures |Ascii(REQUEST_DOMAIN)| > 9 && |Ascii(RESPONSE_DOMAIN)| > 9
    ensures Ascii(REQUEST_DOMAIN)[9] != Ascii(RESPONSE_DOMAIN)[9]
  {
    assert REQUEST_DOMAIN[9] == 'a' && RESPONSE_DOMAIN[9] == 'v';
  }

  /** No request frame is the frame of a peer-verification answer. */
  lemma DomainsAreDisjoint(c: Crypto, ts: nat, r: Request, nonce: Bytes)
    ensures Frame(c, ts, r) != ResponseFrame(nonce)
  {
    hide Decimal, Ascii;
    DomainBytes();
    assert Frame(c, ts, r)[9] == Ascii(REQUEST_DOMAIN)[9];
    assert ResponseFrame(nonce)[9] == Ascii(RESPONSE_DOMAIN)[9];
  }

  // ---------------------------------------------------------------------
  // One header, one request
  // ---------------------------------------------------------------------

  /** No collision among the inputs at hand. */
  ghost predicate NoCollision(c: Crypto, key: Bytes, f: Bytes, key': Bytes, f': Bytes) {
    c.mac(key, f) == c.mac(key', f') ==> key == key' && f == f'
  }

  lemma {:induction false} HeaderParses(c: Crypto, key: Bytes, r: Request, ts: nat)
    requires ts < U64_LIMIT
    ensures SplitOnce(ComputeRequestAuth(c, key, r, ts), COLON) == Some((Decimal(ts), RequestMac(c, key, ts, r)))
    ensures ParseU64(Decimal(ts)) == Some(ts)
  {
    SplitAt(Decimal(ts), COLON, RequestMac(c, key, ts, r));
    DecimalRoundTrip(ts);
  }

  /** The two clocks are at most 30 seconds apart, either way. */
  predicate InWindow(now: nat, ts: nat) {
    ts <= now + 30_000 && now <= ts + 30_000
  }

  /** A computed header is accepted exactly within the window, under the same key
      and for the same request, when hash and MAC do not collide on them. */
  lemma {:induction false} BindsExactlyOneRequest(c: Crypto, key: Bytes, r: Request, ts: nat, key': Bytes, q: Request, now: nat)
    requires ts < U64_LIMIT
    requires Free(r.verb, NEWLINE) && Free(q.verb, NEWLINE)
    requires |c.hash(r.body)| == |c.hash(q.body)|
    requires c.hash(r.body) == c.hash(q.body) ==> r.body == q.body
    requires c.mac(key, Frame(c, ts, r)) != []
    requires NoCollision(c, key, Frame(c, ts, r), key', Frame(c, ts, q))
    ensures VerifyRequestAuth(c, key', ComputeRequestAuth(c, key, r, ts), q, now).Ok?
       <==> InWindow(now, ts) && key' == key && q == r
    ensures var v := VerifyRequestAuth(c, key', ComputeRequestAuth(c, key, r, ts), q, now);
      v.Err? ==> v.error == if !InWindow(now, ts) then TimestampOutOfWindow(if now >= ts then now - ts else ts - now) else Mismatch
  {
    assert Hex([]) == [];
    hide Frame, Decimal, Hex, ParseU64, Free;
    HeaderParses(c, key, r, ts);
    HexIsInjective(c.mac(key', Frame(c, ts, q)), c.mac(key, Frame(c, ts, r)));
    HexIsInjective(c.mac(key, Frame(c, ts, r)), []);
    FrameIsInjective(c, ts, r, ts, q);
  }

  /** A header with a timestamp before its first colon and something after it. */
  ghost predicate Shaped(header: Bytes, tsText: Bytes, macHex: Bytes) {
    Free(tsText, COLON) && header == tsText + [COLON] + macHex && macHex != [] && ParseU64(tsText).Some?
  }

  lemma {:induction false} SplitRejoins(s: Bytes, at: byte)
    ensures match SplitOnce(s, at)
      case None => Free(s, at)
      case Some((a, x)) => Free(a, at) && s == a + [at] + x
    decreases |s|
  {
    if s != [] && s[0] != at {
      SplitRejoins(s[1..], at);
      assert s == [s[0]] + s[1..];
    }
  }

  /** Only a header of that shape gets past the parser, whatever its MAC. */
  lemma MalformedExactly(c: Crypto, key: Bytes, header: Bytes, r: Request, now: nat)
    ensures VerifyRequestAuth(c, key, header, r, now) != Err(Malformed)
       <==> exists tsText, macHex :: Shaped(header, tsText, macHex)
  {
    assert ParseU64([]).None?;
    hide RequestMac, ParseU64, Free;
    SplitRejoins(header, COLON);
    forall tsText, macHex | Shaped(header, tsText, macHex)
      ensures SplitOnce(header, COLON) == Some((tsText, macHex))
    {
      SplitAt(tsText, COLON, macHex);
    }
    if VerifyRequestAuth(c, key, header, r, now) != Err(Malformed) {
      var (tsText, macHex) := SplitOnce(header, COLON).value;
      assert Shaped(header, tsText, macHex);
    }
  }

  /** The header that spells the time as tsText and carries the right MAC. */
  ghost predicate Authenticates(c: Crypto, key: Bytes, header: Bytes, r: Request, now: nat, tsText: Bytes) {
    && Free(tsText, COLON) && ParseU64(tsText).Some?
    && var ts := ParseU64(tsText).value;
       && InWindow(now, ts)
       && RequestMac(c, key, ts, r) != []
       && header == tsText + [COLON] + RequestMac(c, key, ts, r)
  }

  /** Exactly which headers authenticate a request: any spelling of a time in the
      window, a colon, and the MAC for the number it stands for. */
  lemma AcceptedHeadersExactly(c: Crypto, key: Bytes, header: Bytes, r: Request, now: nat)
    ensures VerifyRequestAuth(c, key, header, r, now).Ok?
       <==> exists tsText :: Authenticates(c, key, header, r, now, tsText)
  {
    assert ParseU64([]).None?;
    hide RequestMac, ParseU64, Free;
    SplitRejoins(header, COLON);
    forall tsText | Authenticates(c, key, header, r, now, tsText)
      ensures VerifyRequestAuth(c, key, header, r, now).Ok?
    {
      SplitAt(tsText, COLON, RequestMac(c, key, ParseU64(tsText).value, r));
    }
    if VerifyRequestAuth(c, key, header, r, now).Ok? {
      assert Authenticates(c, key, header, r, now, SplitOnce(header, COLON).value.0);
    }
  }

  lemma {:induction false} LeadingZero(digits: Bytes)
    requires forall i :: 0 <= i < |digits| ==> Digit(digits[i])
    ensures (forall i :: 0 <= i < |digits| + 1 ==> Digit(([ZERO] + digits)[i])) && ValueOf([ZERO] + digits) == ValueOf(digits)
    decreases |digits|
  {
    var longer := [ZERO] + digits;
    if digits == [] {
      assert Front(longer) == [];
    } else {
      LeadingZero(Front(digits));
      assert Front(longer) == [ZERO] + Front(digits) && Last(longer) == Last(digits);
    }
  }

  function Zeros(k: nat): (s: Bytes)
    ensures |s| == k && forall i :: 0 <= i < k ==> s[i] == ZERO
  {
    seq(k, i => ZERO)
  }

  /** The text spells n: an optional plus sign, any number of zeros, and n. */
  ghost predicate Spells(s: Bytes, n: nat, plus: bool, zeros: nat) {
    s == (if plus then [PLUS] else []) + (Zeros(zeros) + Decimal(n))
  }

  ghost predicate SpellsNumber(s: Bytes, n: nat) {
    exists plus, zeros :: Spells(s, n, plus, zeros)
  }

  lemma {:induction false} ZerosDoNotCount(k: nat, n: nat)
    ensures (forall i :: 0 <= i < |Zeros(k) + Decimal(n)| ==> Digit((Zeros(k) + Decimal(n))[i]))
    ensures ValueOf(Zeros(k) + Decimal(n)) == n
  {
    if k == 0 {
      assert Zeros(0) + Decimal(n) == Decimal(n);
      ValueOfDecimal(n);
    } else {
      ZerosDoNotCount(k - 1, n);
      LeadingZero(Zeros(k - 1) + Decimal(n));
      assert Zeros(k) + Decimal(n) == [ZERO] + (Zeros(k - 1) + Decimal(n));
    }
  }

  /** Digits are some zeros and the number they stand for. */
  lemma {:induction false} DigitsSpell(digits: Bytes) returns (zeros: nat)
    requires digits != [] && forall i :: 0 <= i < |digits| ==> Digit(digits[i])
    ensures digits == Zeros(zeros) + Decimal(ValueOf(digits))
    decreases |digits|
  {
    var front, last := Front(digits), Last(digits);
    assert digits == front + [last];
    if front == [] {
      zeros := 0;
      assert ValueOf(digits) == (last - ZERO) as nat;
    } else {
      zeros := DigitsSpell(front);
      if ValueOf(front) == 0 {
        zeros := zeros + 1;
        assert Decimal(0) == [ZERO];
        assert front == Zeros(zeros);
        assert ValueOf(digits) == (last - ZERO) as nat;
      } else {
        assert Decimal(ValueOf(digits)) == Decimal(ValueOf(front)) + [last];
      }
    }
  }

  /** Exactly which texts are read as a number. */
  lemma NumbersExactly(s: Bytes, n: nat)
    ensures ParseU64(s) == Some(n) <==> n < U64_LIMIT && SpellsNumber(s, n)
  {
    if ParseU64(s) == Some(n) {
      var plus := s != [] && s[0] == PLUS;
      var digits := if plus then s[1..] else s;
      assert ParseDigits(digits).Some?;
      var zeros := DigitsSpell(digits);
      assert Spells(s, n, plus, zeros);
    }
    forall plus, zeros | Spells(s, n, plus, zeros) && n < U64_LIMIT
      ensures ParseU64(s) == Some(n)
    {
      ZerosDoNotCount(zeros, n);
      var digits := Zeros(zeros) + Decimal(n);
      assert Digit(digits[0]);
      assert (if plus then s[1..] else s) == digits;
    }
  }

  /** The header that spells the time ts in this way, with the MAC for ts. */
  ghost predicate SpelledHeader(c: Crypto, key: Bytes, header: Bytes, r: Request, ts: nat, plus: bool, zeros: nat) {
    header == (if plus then [PLUS] else []) + (Zeros(zeros) + Decimal(ts)) + [COLON] + RequestMac(c, key, ts, r)
  }

  ghost predicate TimedHeader(c: Crypto, key: Bytes, header: Bytes, r: Request, ts: nat) {
    RequestMac(c, key, ts, r) != [] && exists plus, zeros :: SpelledHeader(c, key, header, r, ts, plus, zeros)
  }

  lemma SpellingHasNoColon(s: Bytes, n: nat)
    requires SpellsNumber(s, n)
    ensures Free(s, COLON)
  {
    var plus, zeros :| Spells(s, n, plus, zeros);
    assert forall i :: 0 <= i < |Decimal(n)| ==> Digit(Decimal(n)[i]);
  }

  /** So a header authenticates a request exactly when it spells some time in the
      window, with or without a plus sign and leading zeros, and carries the MAC
      for that time. */
  lemma AcceptedSpellingsExactly(c: Crypto, key: Bytes, header: Bytes, r: Request, now: nat)
    ensures VerifyRequestAuth(c, key, header, r, now).Ok?
       <==> exists ts: nat :: ts < U64_LIMIT && InWindow(now, ts) && TimedHeader(c, key, header, r, ts)
  {
    AcceptedHeadersExactly(c, key, header, r, now);
    hide VerifyRequestAuth, RequestMac, ParseU64, Decimal, Zeros, Free;
    if VerifyRequestAuth(c, key, header, r, now).Ok? {
      var tsText :| Authenticates(c, key, header, r, now, tsText);
      var ts := ParseU64(tsText).value;
      NumbersExactly(tsText, ts);
      var plus, zeros :| Spells(tsText, ts, plus, zeros);
      assert SpelledHeader(c, key, header, r, ts, plus, zeros);
      assert TimedHeader(c, key, header, r, ts);
    }
    forall ts: nat | ts < U64_LIMIT && InWindow(now, ts) && TimedHeader(c, key, header, r, ts)
      ensures VerifyRequestAuth(c, key, header, r, now).Ok?
    {
      var plus, zeros :| SpelledHeader(c, key, header, r, ts, plus, zeros);
      var tsText := (if plus then [PLUS] else []) + (Zeros(zeros) + Decimal(ts));
      assert Spells(tsText, ts, plus, zeros) && SpellsNumber(tsText, ts);
      NumbersExactly(tsText, ts);
      SpellingHasNoColon(tsText, ts);
      assert Authenticates(c, key, header, r, now, tsText);
    }
  }

  /** A leading zero gives another header for the same request and time. */
  lemma SecondSpelling(c: Crypto, key: Bytes, r: Request, ts: nat, now: nat)
    requires ts < U64_LIMIT && InWindow(now, ts) && RequestMac(c, key, ts, r) != []
    ensures var h := ComputeRequestAuth(c, key, r, ts);
      VerifyRequestAuth(c, key, h, r, now).Ok? && VerifyRequestAuth(c, key, [ZERO] + h, r, now).Ok?
  {
    hide RequestMac;
    var h, text := ComputeRequestAuth(c, key, r, ts), [ZERO] + Decimal(ts);
    HeaderParses(c, key, r, ts);
    LeadingZero(Decimal(ts));
    ValueOfDecimal(ts);
    assert [ZERO] + h == text + [COLON] + RequestMac(c, key, ts, r);
    SplitAt(text, COLON, RequestMac(c, key, ts, r));
  }

  /** An answer to a challenge convinces exactly for its own nonce, under the same key,
      when the MAC does not collide on them. */
  lemma AnswerBindsNonce(c: Crypto, key: Bytes, nonce: Bytes, key': Bytes, nonce': Bytes)
    requires NoCollision(c, key, ResponseFrame(nonce), key', ResponseFrame(nonce'))
    ensures VerifyResponse(c, key', nonce', ComputeVerifyResponse(c, key, nonce)) <==> key == key' && nonce == nonce'
  {
    hide Hex, Ascii;
    HexIsInjective(c.mac(key, ResponseFrame(nonce)), c.mac(key', ResponseFrame(nonce')));
    PrefixCancels(Ascii(RESPONSE_DOMAIN), nonce, nonce');
  }

  /** An answer to a peer-verification challenge is never the MAC of a request. */
  lemma AnswerIsNoRequestMac(c: Crypto, key: Bytes, nonce: Bytes, ts: nat, r: Request)
    requires NoCollision(c, key, ResponseFrame(nonce), key, Frame(c, ts, r))
    ensures ComputeVerifyResponse(c, key, nonce) != RequestMac(c, key, ts, r)
  {
    hide Frame, ResponseFrame;
    DomainsAreDisjoint(c, ts, r, nonce);
    HexIsInjective(c.mac(key, ResponseFrame(nonce)), c.mac(key, Frame(c, ts, r)));
  }
}
