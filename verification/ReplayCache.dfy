/** The cache of accepted request headers, and the gate that checks a header's
    MAC and then the cache. The window of the MAC check is in milliseconds, the
    retention of the cache in whole seconds. */
module Replay {
  import opened Tasks
  import opened RequestAuth
  import Sequences

  const RETENTION_SECS: nat := AUTH_WINDOW_MS * 2 / 1000
  const MAX_ENTRIES: nat := 4096

  /** Accepted headers and the second in which each was accepted. */
  type Entries = map<Bytes, nat>

  function SaturatingSub(a: nat, b: nat): nat {
    if a >= b then a - b else 0
  }

  function Recent(m: Entries, now: nat): Entries {
    map h | h in m && SaturatingSub(now, m[h]) < RETENTION_SECS :: m[h]
  }

  /** New entries, and whether the header is fresh. */
  function Admit(m: Entries, header: Bytes, now: nat): (Entries, bool) {
    var recent := Recent(m, now);
    var kept := if |recent| >= MAX_ENTRIES then map[] else recent;
    if header in kept then (kept, false) else (kept[header := now], true)
  }

  class ReplayCache {
    var entries: Entries

    constructor ()
      ensures entries == map[]
    {
      entries := map[];
    }

    method CheckAndInsert(header: Bytes, now: nat) returns (isNew: bool)
      modifies this
      ensures (entries, isNew) == Admit(old(entries), header, now)
    {
      entries := map h | h in entries && SaturatingSub(now, entries[h]) < RETENTION_SECS :: entries[h];
      if |entries| >= MAX_ENTRIES {
        entries := map[];
      }
      if header in entries {
        return false;
      }
      entries := entries[header := now];
      return true;
    }
  }

  /** The cache never holds more than 4096 headers; at that size it starts again with
      the newest. */
  lemma CacheStaysSmall(m: Entries, header: Bytes, now: nat)
    ensures |Admit(m, header, now).0| <= 4096
    ensures |Recent(m, now)| >= 4096 ==> Admit(m, header, now) == (map[header := now], true)
    ensures |Recent(m, now)| < 4096 && header in Recent(m, now) ==> Admit(m, header, now) == (Recent(m, now), false)
    ensures |Recent(m, now)| < 4096 && header !in Recent(m, now) ==> Admit(m, header, now) == (Recent(m, now)[header := now], true)
  {
    var recent := Recent(m, now);
    assert recent[header := now].Keys == recent.Keys + {header};
    assert |recent[header := now].Keys| <= |recent.Keys| + 1;
  }

  // ---------------------------------------------------------------------
  // The gate
  // ---------------------------------------------------------------------

  /** A request and its header, arriving when the receiver's clock shows `now`
      milliseconds. */
  datatype Arrival = Arrival(header: Bytes, request: Request, now: nat)

  function Gate(c: Crypto, key: Bytes, m: Entries, a: Arrival): (Entries, bool) {
    if VerifyRequestAuth(c, key, a.header, a.request, a.now).Ok?
    then Admit(m, a.header, a.now / 1000)
    else (m, false)
  }

  /** The clock never runs backwards. */
  predicate InOrder(start: nat, arrivals: seq<Arrival>)
    decreases |arrivals|
  {
    arrivals == [] || (start <= arrivals[0].now && InOrder(arrivals[0].now, arrivals[1..]))
  }

  /** The cache never reaches its hard cap. */
  predicate StaysSmall(c: Crypto, key: Bytes, m: Entries, arrivals: seq<Arrival>)
    decreases |arrivals|
  {
    arrivals == []
    || (|Recent(m, arrivals[0].now / 1000)| < MAX_ENTRIES
        && StaysSmall(c, key, Gate(c, key, m, arrivals[0]).0, arrivals[1..]))
  }

  /** The header is never accepted during the run. */
  predicate NeverAccepted(c: Crypto, key: Bytes, m: Entries, arrivals: seq<Arrival>, header: Bytes)
    decreases |arrivals|
  {
    arrivals == []
    || (!(arrivals[0].header == header && Gate(c, key, m, arrivals[0]).1)
        && NeverAccepted(c, key, Gate(c, key, m, arrivals[0]).0, arrivals[1..], header))
  }

  // ---------------------------------------------------------------------
  // At most once
  // ---------------------------------------------------------------------

  /** The timestamp a header carries. */
  function TimestampOf(header: Bytes): Option<nat> {
    match SplitOnce(header, COLON)
    case None => None
    case Some((ts, _)) => ParseU64(ts)
  }

  lemma VerifiedIsInWindow(c: Crypto, key: Bytes, header: Bytes, r: Request, now: nat)
    requires VerifyRequestAuth(c, key, header, r, now).Ok?
    ensures TimestampOf(header).Some? && AbsDiff(now, TimestampOf(header).value) <= AUTH_WINDOW_MS
  {
  }

  /** Verification depends on the clock only through the window. */
  lemma VerifiesAtOtherTime(c: Crypto, key: Bytes, header: Bytes, r: Request, now: nat, later: nat)
    requires VerifyRequestAuth(c, key, header, r, now).Ok?
    requires AbsDiff(later, TimestampOf(header).value) <= AUTH_WINDOW_MS
    ensures VerifyRequestAuth(c, key, header, r, later).Ok?
  {
  }

  /** The cache knows the header, or the header is too old to verify. */
  predicate Guarded(m: Entries, header: Bytes, accepted: nat, now: nat) {
    (header in m && m[header] == accepted) || now / 1000 >= accepted + RETENTION_SECS
  }

  lemma GateGuards(c: Crypto, key: Bytes, m: Entries, a: Arrival, header: Bytes, accepted: nat, before: nat)
    requires Guarded(m, header, accepted, before) && before <= a.now
    requires |Recent(m, a.now / 1000)| < MAX_ENTRIES
    requires TimestampOf(header).Some? && TimestampOf(header).value / 1000 < accepted + RETENTION_SECS / 2
    ensures Guarded(Gate(c, key, m, a).0, header, accepted, a.now)
    ensures !(a.header == header && Gate(c, key, m, a).1)
  {
    hide VerifyRequestAuth, TimestampOf;
    if VerifyRequestAuth(c, key, a.header, a.request, a.now).Ok? {
      VerifiedIsInWindow(c, key, a.header, a.request, a.now);
    }
  }

  lemma {:induction false} GuardedIsNeverAccepted(c: Crypto, key: Bytes, m: Entries, arrivals: seq<Arrival>,
                                                  header: Bytes, accepted: nat, before: nat)
    requires Guarded(m, header, accepted, before) && InOrder(before, arrivals)
    requires StaysSmall(c, key, m, arrivals)
    requires TimestampOf(header).Some? && TimestampOf(header).value / 1000 < accepted + RETENTION_SECS / 2
    ensures NeverAccepted(c, key, m, arrivals, header)
    decreases |arrivals|
  {
    hide Gate, TimestampOf, Guarded, Recent;
    if arrivals != [] {
      GateGuards(c, key, m, arrivals[0], header, accepted, before);
      GuardedIsNeverAccepted(c, key, Gate(c, key, m, arrivals[0]).0, arrivals[1..], header, accepted, arrivals[0].now);
    }
  }

  /** The same request once more, at the last moment its header verifies. */
  lemma LastMomentIsAccepted(c: Crypto, key: Bytes, m: Entries, a: Arrival)
    requires Gate(c, key, m, a).1 && TimestampOf(a.header).Some?
    requires TimestampOf(a.header).value / 1000 >= a.now / 1000 + RETENTION_SECS / 2
    ensures var late := a.(now := TimestampOf(a.header).value + AUTH_WINDOW_MS);
      a.now <= late.now && Gate(c, key, Gate(c, key, m, a).0, late).1
  {
    hide VerifyRequestAuth, TimestampOf;
    var late := a.(now := TimestampOf(a.header).value + AUTH_WINDOW_MS);
    VerifiedIsInWindow(c, key, a.header, a.request, a.now);
    VerifiesAtOtherTime(c, key, a.header, a.request, a.now, late.now);
    assert Gate(c, key, m, a).0[a.header] == a.now / 1000;
    assert a.header !in Recent(Gate(c, key, m, a).0, late.now / 1000);
  }

  ghost predicate AtMostOnce(c: Crypto, key: Bytes, m: Entries, a: Arrival) {
    forall later: seq<Arrival> ::
      InOrder(a.now, later) && StaysSmall(c, key, Gate(c, key, m, a).0, later) ==>
        NeverAccepted(c, key, Gate(c, key, m, a).0, later, a.header)
  }

  /** An accepted header is never accepted again, whatever else arrives, exactly
      when its timestamp is fewer than 30 whole seconds ahead of the second in
      which it was accepted. */
  lemma AcceptedOnceExactly(c: Crypto, key: Bytes, m: Entries, a: Arrival)
    requires Gate(c, key, m, a).1 && |m| < MAX_ENTRIES - 1
    ensures TimestampOf(a.header).Some?
    ensures AtMostOnce(c, key, m, a) <==> TimestampOf(a.header).value / 1000 < a.now / 1000 + RETENTION_SECS / 2
  {
    var m' := Gate(c, key, m, a).0;
    VerifiedIsInWindow(c, key, a.header, a.request, a.now);
    if TimestampOf(a.header).value / 1000 < a.now / 1000 + RETENTION_SECS / 2 {
      forall later: seq<Arrival> | InOrder(a.now, later) && StaysSmall(c, key, m', later)
        ensures NeverAccepted(c, key, m', later, a.header)
      {
        GuardedIsNeverAccepted(c, key, m', later, a.header, a.now / 1000, a.now);
      }
    } else {
      LastMomentIsAccepted(c, key, m, a);
      var late := a.(now := TimestampOf(a.header).value + AUTH_WINDOW_MS);
      GateAddsOne(c, key, m, a, late.now / 1000);
      var later := [late];
      assert later[1..] == [] && InOrder(a.now, later) && StaysSmall(c, key, m', later);
      assert !NeverAccepted(c, key, m', later, a.header);
    }
  }

  lemma GateAddsOne(c: Crypto, key: Bytes, m: Entries, a: Arrival, later: nat)
    ensures |Recent(Gate(c, key, m, a).0, later)| <= |m| + 1
  {
    var m' := Gate(c, key, m, a).0;
    assert m'.Keys <= m.Keys + {a.header};
    assert Recent(m', later).Keys <= m.Keys + {a.header};
    Sequences.SubsetSize(Recent(m', later).Keys, m.Keys + {a.header});
  }

  /** 29 seconds ahead is always safe. */
  lemma SafeSkew(c: Crypto, key: Bytes, m: Entries, a: Arrival)
    requires Gate(c, key, m, a).1 && |m| < MAX_ENTRIES - 1
    requires TimestampOf(a.header).Some? && TimestampOf(a.header).value <= a.now + 29_000
    ensures AtMostOnce(c, key, m, a)
  {
    hide TimestampOf, Gate, AtMostOnce;
    AcceptedOnceExactly(c, key, m, a);
  }

  /** One millisecond more is not, for some clock reading and any key and
      primitives. */
  lemma SafeSkewIsSharp(c: Crypto, key: Bytes, r: Request)
    requires c.mac(key, Frame(c, 30_000, r)) != []
    ensures var a := Arrival(ComputeRequestAuth(c, key, r, 30_000), r, 999);
      && TimestampOf(a.header) == Some(a.now + 29_001)
      && Gate(c, key, map[], a).1 && !AtMostOnce(c, key, map[], a)
  {
    var a := Arrival(ComputeRequestAuth(c, key, r, 30_000), r, 999);
    HeaderParses(c, key, r, 30_000);
    HexIsInjective(c.mac(key, Frame(c, 30_000, r)), []);
    assert VerifyRequestAuth(c, key, a.header, r, a.now).Ok?;
    assert Gate(c, key, map[], a).1;
    AcceptedOnceExactly(c, key, map[], a);
  }

  // ---------------------------------------------------------------------
  // Headers and requests
  // ---------------------------------------------------------------------

  /** The cache knows headers, not requests: once a request is accepted, another
      header that authenticates it is accepted too, exactly unless the cache
      remembers that very text. */
  lemma OtherHeaderExactly(c: Crypto, key: Bytes, m: Entries, a: Arrival, header: Bytes)
    requires Gate(c, key, m, a).1 && |m| < MAX_ENTRIES - 1 && header != a.header
    requires VerifyRequestAuth(c, key, header, a.request, a.now).Ok?
    ensures Gate(c, key, Gate(c, key, m, a).0, a.(header := header)).1 <==> header !in Recent(m, a.now / 1000)
  {
    hide VerifyRequestAuth;
    GateAddsOne(c, key, m, a, a.now / 1000);
    assert Recent(m, a.now / 1000).Keys <= m.Keys;
    Sequences.SubsetSize(Recent(m, a.now / 1000).Keys, m.Keys);
  }

  /** So acceptance at most once is a property of the header text: with a fresh
      cache two spellings of one time are both accepted. */
  lemma OncePerTextNotPerRequest(c: Crypto, key: Bytes, r: Request, ts: nat)
    requires ts < U64_LIMIT && RequestMac(c, key, ts, r) != []
    ensures var a := Arrival(ComputeRequestAuth(c, key, r, ts), r, ts);
      && Gate(c, key, map[], a).1
      && Gate(c, key, Gate(c, key, map[], a).0, a.(header := [ZERO] + a.header)).1
  {
    hide VerifyRequestAuth, RequestMac;
    SecondSpelling(c, key, r, ts, ts);
    var a := Arrival(ComputeRequestAuth(c, key, r, ts), r, ts);
    assert |[ZERO] + a.header| != |a.header|;
    OtherHeaderExactly(c, key, map[], a, [ZERO] + a.header);
  }
}
