/** Rotation of the peer API's ephemeral key, and the envelopes encrypted for
    it. The primitives are ideal: a Diffie-Hellman secret is an unordered pair
    of private keys, a session key determines the room key and the shared
    secret it was derived from, and a sealed message opens under its own key
    only. */
module Rotation {
  import opened Tasks
  import opened Sequences

  /** A private X25519 key, by its index in the order of generation. */
  type Secret = nat

  datatype Public = Public(of: Secret)

  datatype Shared = Shared(low: Secret, high: Secret)

  function Dh(secret: Secret, peer: Public): (s: Shared) {
    if secret <= peer.of then Shared(secret, peer.of) else Shared(peer.of, secret)
  }

  datatype Key =
    | RoomKey(secret: nat)
    | SessionKey(room: Key, shared: Shared)

  /** AES-GCM output, or bytes that never came out of it. */
  datatype Ciphertext =
    | Sealed(key: Key, nonce: nat, plaintext: Bytes)
    | Forged(bytes: Bytes)

  function OpenWith(key: Key, nonce: nat, ct: Ciphertext): Option<Bytes> {
    if ct.Sealed? && ct.key == key && ct.nonce == nonce then Some(ct.plaintext) else None
  }

  /** A base64 field of an envelope, as it arrives. */
  datatype Encoded<T> =
    | Good(value: T)
    | BadBase64
    | BadSize(got: nat)

  datatype Envelope = Envelope(v: nat, nonce: Encoded<nat>, ct: Encoded<Ciphertext>, ephPk: Option<Encoded<Public>>)

  datatype Field = NonceField | CiphertextField | EphPkField

  datatype CryptoError =
    | BadEncoding(field: Field)
    | BadLength(field: Field, got: nat)
    | AeadDecrypt
    | MissingEphPk
    | NoMatchingKey

  /** Grace period of a replaced key, in milliseconds. */
  const KEY_GRACE: nat := 60_000

  /** The previous key goes with the time at which it expires. */
  datatype KeyState = KeyState(current: Secret, previous: Option<Secret>, expiresAt: Option<nat>)

  function Rotate(st: KeyState, newborn: Secret, now: nat): KeyState {
    KeyState(newborn, Some(st.current), Some(now + KEY_GRACE))
  }

  function GcExpired(st: KeyState, now: nat): KeyState {
    if st.expiresAt.Some? && now >= st.expiresAt.value
    then KeyState(st.current, None, None)
    else st
  }

  /** The secrets a request may be tried with, the current one first. */
  function Candidates(st: KeyState, now: nat): seq<Secret> {
    [st.current]
    + if st.previous.Some? && st.expiresAt.Some? && now < st.expiresAt.value then [st.previous.value] else []
  }

  /** Client side: seal for the published key with a fresh client key. */
  function EncryptV2(room: Key, published: Public, client: Secret, nonce: nat, plaintext: Bytes): (Envelope, Key) {
    var session := SessionKey(room, Dh(client, published));
    (Envelope(2, Good(nonce), Good(Sealed(session, nonce, plaintext)), Some(Good(Public(client)))), session)
  }

  /** Decode the two fields and open; a ciphertext that is too short fails like
      any that does not open. */
  function DecryptInner(key: Key, env: Envelope): Result<Bytes, CryptoError> {
    match env.nonce
    case BadBase64 => Err(BadEncoding(NonceField))
    case BadSize(got) => Err(BadLength(NonceField, got))
    case Good(nonce) =>
      match env.ct
      case BadBase64 => Err(BadEncoding(CiphertextField))
      case BadSize(_) => Err(AeadDecrypt)
      case Good(ct) =>
        var plain := OpenWith(key, nonce, ct);
        if plain.Some? then Ok(plain.value) else Err(AeadDecrypt)
  }

  /** Server side: try the candidates in turn; the session key is returned for
      the response. The error of the last candidate is kept. */
  function TryAll(secrets: seq<Secret>, room: Key, client: Public, env: Envelope, lastErr: CryptoError): Result<(Bytes, Key), CryptoError> {
    if secrets == [] then Err(lastErr)
    else
      var session := SessionKey(room, Dh(secrets[0], client));
      match DecryptInner(session, env)
      case Ok(plain) => Ok((plain, session))
      case Err(e) => TryAll(secrets[1..], room, client, env, e)
  }

  function DecryptRequestV2(st: KeyState, room: Key, env: Envelope, now: nat): Result<(Bytes, Key), CryptoError> {
    match env.ephPk
    case None => Err(MissingEphPk)
    case Some(BadBase64) => Err(BadEncoding(EphPkField))
    case Some(BadSize(got)) => Err(BadLength(EphPkField, got))
    case Some(Good(client)) => TryAll(Candidates(st, now), room, client, env, NoMatchingKey)
  }

  datatype BodyError = Unreadable(error: CryptoError) | UnknownVersion(v: nat)

  /** The body of a request: version 1 is sealed with the room key itself, version 2
      with a session key. */
  function OpenBody(st: KeyState, room: Key, env: Envelope, now: nat): Result<(Bytes, Key), BodyError> {
    if env.v == 1 then
      var plain := DecryptInner(room, env);
      if plain.Ok? then Ok((plain.value, room)) else Err(Unreadable(plain.error))
    else if env.v == 2 then
      var inner := DecryptRequestV2(st, room, env, now);
      if inner.Ok? then Ok(inner.value) else Err(Unreadable(inner.error))
    else Err(UnknownVersion(env.v))
  }

  // ---------------------------------------------------------------------
  // Histories
  // ---------------------------------------------------------------------

  /** A rotation, or a call of the garbage collector. */
  datatype KeyEvent =
    | Turnover(newborn: Secret, at: nat)
    | Sweep(at: nat)

  function StateAfter(first: Secret, events: seq<KeyEvent>): KeyState {
    if events == [] then KeyState(first, None, None)
    else
      var st := StateAfter(first, Front(events));
      match Last(events)
      case Turnover(newborn, at) => Rotate(st, newborn, at)
      case Sweep(at) => GcExpired(st, at)
  }

  /** All published secrets, oldest first. */
  function Keys(first: Secret, events: seq<KeyEvent>): (ks: seq<Secret>)
    ensures |ks| >= 1
  {
    if events == [] then [first]
    else if Last(events).Turnover? then Keys(first, Front(events)) + [Last(events).newborn]
    else Keys(first, Front(events))
  }

  /** The times of the rotations: entry i is when key i was replaced. */
  function Retired(first: Secret, events: seq<KeyEvent>): (ts: seq<nat>)
    ensures |ts| + 1 == |Keys(first, events)|
  {
    if events == [] then []
    else if Last(events).Turnover? then Retired(first, Front(events)) + [Last(events).at]
    else Retired(first, Front(events))
  }

  /** The clock does not run backwards, and no secret is generated twice. */
  ghost predicate Plausible(first: Secret, events: seq<KeyEvent>) {
    && (forall i, j :: 0 <= i < j < |events| ==> events[i].at <= events[j].at)
    && (forall i, j :: 0 <= i < j < |Keys(first, events)| ==> Keys(first, events)[i] != Keys(first, events)[j])
  }

  /** Not earlier than anything that happened. */
  predicate Since(events: seq<KeyEvent>, now: nat) {
    forall i :: 0 <= i < |events| ==> events[i].at <= now
  }

  lemma PlausibleFront(first: Secret, events: seq<KeyEvent>)
    requires Plausible(first, events) && events != []
    ensures Plausible(first, Front(events)) && Since(Front(events), Last(events).at)
  {
    var ks := Keys(first, Front(events));
    assert ks <= Keys(first, events);
    assert forall i :: 0 <= i < |ks| ==> ks[i] == Keys(first, events)[i];
  }

  lemma {:induction false} RetiredInOrder(first: Secret, events: seq<KeyEvent>)
    requires Plausible(first, events)
    ensures forall i, j :: 0 <= i < j < |Retired(first, events)| ==> Retired(first, events)[i] <= Retired(first, events)[j]
    ensures forall i, now :: 0 <= i < |Retired(first, events)| && Since(events, now) ==> Retired(first, events)[i] <= now
  {
    if events != [] {
      PlausibleFront(first, events);
      RetiredInOrder(first, Front(events));
      forall now | Since(events, now) ensures Since(Front(events), now) {}
    }
  }

  /** Some sweep has come after the grace period that began at t. */
  predicate SweptAfter(events: seq<KeyEvent>, t: nat) {
    exists i :: 0 <= i < |events| && events[i].Sweep? && events[i].at >= t + 60_000
  }

  /** What the state holds after any history: the newest key, and the one before it
      exactly until its minute is over and a sweep has noticed. */
  lemma {:induction false} StateHolds(first: Secret, events: seq<KeyEvent>)
    requires Plausible(first, events)
    ensures var st, ks, ts := StateAfter(first, events), Keys(first, events), Retired(first, events);
      && st.current == Last(ks)
      && (st.previous.Some? <==> st.expiresAt.Some?)
      && (st.previous.Some? ==> |ts| > 0 && st.previous.value == ks[|ts| - 1] && st.expiresAt.value == Last(ts) + KEY_GRACE)
      && (st.previous.None? <==> |ts| == 0 || SweptAfter(events, Last(ts)))
  {
    if events != [] {
      PlausibleFront(first, events);
      StateHolds(first, Front(events));
      RetiredInOrder(first, events);
      var ts := Retired(first, events);
      assert Since(events, Last(events).at);
      if |ts| > 0 {
        SweptLast(events, Last(ts));
      }
    }
  }

  lemma SweptLast(events: seq<KeyEvent>, t: nat)
    requires events != []
    ensures SweptAfter(events, t) <==> SweptAfter(Front(events), t) || (Last(events).Sweep? && Last(events).at >= t + 60_000)
  {
    if SweptAfter(Front(events), t) {
      var i :| 0 <= i < |Front(events)| && Front(events)[i].Sweep? && Front(events)[i].at >= t + 60_000;
      assert events[i].Sweep? && events[i].at >= t + 60_000;
    }
    if SweptAfter(events, t) {
      var i :| 0 <= i < |events| && events[i].Sweep? && events[i].at >= t + 60_000;
      assert i == |events| - 1 || Front(events)[i] == events[i];
    }
  }

  // ---------------------------------------------------------------------
  // Acceptance
  // ---------------------------------------------------------------------

  lemma SameSharedSecret(a: Secret, b: Secret, client: Secret)
    ensures Dh(a, Public(client)) == Dh(client, Public(b)) <==> a == b
  {
  }

  lemma {:induction false} TryAllFindsKey(secrets: seq<Secret>, room: Key, key: Secret, sender: Key, client: Secret,
                                          nonce: nat, plaintext: Bytes, lastErr: CryptoError)
    ensures var (env, session) := EncryptV2(sender, Public(key), client, nonce, plaintext);
      TryAll(secrets, room, Public(client), env, lastErr)
      == if sender == room && key in secrets then Ok((plaintext, session))
         else if secrets == [] then Err(lastErr) else Err(AeadDecrypt)
  {
    if secrets != [] {
      SameSharedSecret(secrets[0], key, client);
      TryAllFindsKey(secrets[1..], room, key, sender, client, nonce, plaintext, AeadDecrypt);
    }
  }

  /** What is wrong with the fields of an envelope, the first fault found. */
  function Fault(env: Envelope): Option<CryptoError> {
    if env.ephPk.None? then Some(MissingEphPk)
    else if env.ephPk.value.BadBase64? then Some(BadEncoding(EphPkField))
    else if env.ephPk.value.BadSize? then Some(BadLength(EphPkField, env.ephPk.value.got))
    else if env.nonce.BadBase64? then Some(BadEncoding(NonceField))
    else if env.nonce.BadSize? then Some(BadLength(NonceField, env.nonce.got))
    else if env.ct.BadBase64? then Some(BadEncoding(CiphertextField))
    else None
  }

  lemma {:induction false} TryAllFails(secrets: seq<Secret>, room: Key, client: Public, env: Envelope, lastErr: CryptoError)
    requires env.ephPk == Some(Good(client))
    ensures var r := TryAll(secrets, room, client, env, lastErr);
      && (r.Err? && secrets != [] ==> r.error == if Fault(env).Some? then Fault(env).value else AeadDecrypt)
      && (Fault(env).Some? ==> r.Err?)
    decreases |secrets|
  {
    if secrets != [] {
      var inner := DecryptInner(SessionKey(room, Dh(secrets[0], client)), env);
      if inner.Err? {
        TryAllFails(secrets[1..], room, client, env, inner.error);
      }
    }
  }

  /** The errors, for any envelope whatever: the first fault of its fields, else
      that it does not open. NoMatchingKey never comes out. */
  lemma ErrorsExactly(st: KeyState, room: Key, env: Envelope, now: nat)
    ensures var r := DecryptRequestV2(st, room, env, now);
      && (r.Err? ==> r.error == if Fault(env).Some? then Fault(env).value else AeadDecrypt)
      && (Fault(env).Some? ==> r.Err?)
  {
    if env.ephPk.Some? && env.ephPk.value.Good? {
      TryAllFails(Candidates(st, now), room, env.ephPk.value.value, env, NoMatchingKey);
    }
  }

  /** The envelope was sealed for the public key of this secret, in this room. */
  predicate SealedFor(secret: Secret, room: Key, env: Envelope, plaintext: Bytes, session: Key) {
    && env.ephPk.Some? && env.ephPk.value.Good? && env.nonce.Good? && env.ct.Good?
    && session == SessionKey(room, Dh(secret, env.ephPk.value.value))
    && env.ct.value == Sealed(session, env.nonce.value, plaintext)
  }

  lemma {:induction false} TryAllExactly(secrets: seq<Secret>, room: Key, client: Public, env: Envelope, lastErr: CryptoError,
                                         plaintext: Bytes, session: Key)
    requires env.ephPk == Some(Good(client))
    ensures TryAll(secrets, room, client, env, lastErr) == Ok((plaintext, session))
       <==> exists secret :: secret in secrets && SealedFor(secret, room, env, plaintext, session)
    decreases |secrets|
  {
    if secrets != [] {
      var inner := DecryptInner(SessionKey(room, Dh(secrets[0], client)), env);
      if inner.Err? {
        TryAllExactly(secrets[1..], room, client, env, inner.error, plaintext, session);
      }
      var own := SessionKey(room, Dh(secrets[0], client));
      assert SealedFor(secrets[0], room, env, plaintext, session) <==> inner == Ok(plaintext) && session == own;
      assert forall x :: x in secrets <==> x == secrets[0] || x in secrets[1..];
    }
  }

  /** Exactly which envelopes open, to what, and with which session key: those sealed
      under the session key of an accepted secret, with the nonce they carry. */
  lemma OpensExactly(st: KeyState, room: Key, env: Envelope, now: nat, plaintext: Bytes, session: Key)
    ensures DecryptRequestV2(st, room, env, now) == Ok((plaintext, session))
       <==> exists secret :: secret in Candidates(st, now) && SealedFor(secret, room, env, plaintext, session)
  {
    if env.ephPk.Some? && env.ephPk.value.Good? {
      TryAllExactly(Candidates(st, now), room, env.ephPk.value.value, env, NoMatchingKey, plaintext, session);
    }
  }

  /** Exactly which bodies open, by version, and with which key the response is
      sealed. */
  lemma BodyOpensExactly(st: KeyState, room: Key, env: Envelope, now: nat, plaintext: Bytes, key: Key)
    ensures OpenBody(st, room, env, now) == Ok((plaintext, key)) <==>
      || (env.v == 1 && key == room && env.nonce.Good? && env.ct == Good(Sealed(room, env.nonce.value, plaintext)))
      || (env.v == 2 && exists secret :: secret in Candidates(st, now) && SealedFor(secret, room, env, plaintext, key))
    ensures env.v != 1 && env.v != 2 <==> OpenBody(st, room, env, now) == Err(UnknownVersion(env.v))
  {
    OpensExactly(st, room, env, now, plaintext, key);
    hide TryAll, Candidates, SealedFor;
  }

  /** What a client seals is opened by the server that published the key. */
  lemma SealedBodyOpens(st: KeyState, room: Key, client: Secret, nonce: nat, plaintext: Bytes, now: nat)
    ensures var (env, session) := EncryptV2(room, Public(st.current), client, nonce, plaintext);
      OpenBody(st, room, env, now) == Ok((plaintext, session))
  {
    TryAllFindsKey(Candidates(st, now), room, st.current, room, client, nonce, plaintext, NoMatchingKey);
  }

  /** Key number i is accepted at time now. */
  predicate Accepts(first: Secret, events: seq<KeyEvent>, i: nat, now: nat)
    requires i < |Keys(first, events)|
  {
    Keys(first, events)[i] in Candidates(StateAfter(first, events), now)
  }

  /** Exactly which keys are accepted, for any schedule of rotations: the
      current one, and its predecessor for less than a minute. */
  lemma AcceptedExactly(first: Secret, events: seq<KeyEvent>, i: nat, now: nat)
    requires Plausible(first, events) && Since(events, now) && i < |Keys(first, events)|
    ensures var n := |Retired(first, events)|;
      Accepts(first, events, i, now) <==> i == n || (i == n - 1 && now < Retired(first, events)[i] + KEY_GRACE)
  {
    StateHolds(first, events);
  }

  /** An envelope sealed for a published key decrypts to its plaintext, with the
      client's own session key, exactly when that key is accepted and the rooms
      agree; the client then reads what the server seals with that key. */
  lemma EnvelopeOpensExactly(first: Secret, events: seq<KeyEvent>, i: nat, now: nat, room: Key, sender: Key, client: Secret,
                             nonce: nat, plaintext: Bytes, response: Bytes)
    requires i < |Keys(first, events)|
    ensures var (env, session) := EncryptV2(sender, Public(Keys(first, events)[i]), client, nonce, plaintext);
      var r := DecryptRequestV2(StateAfter(first, events), room, env, now);
      && (r.Ok? <==> sender == room && Accepts(first, events, i, now))
      && (r.Ok? ==> r.value == (plaintext, session) && OpenWith(session, nonce, Sealed(r.value.1, nonce, response)) == Some(response))
      && (r.Err? ==> r.error == AeadDecrypt)
  {
    TryAllFindsKey(Candidates(StateAfter(first, events), now), room, Keys(first, events)[i], sender, client, nonce, plaintext,
      NoMatchingKey);
  }

  /** The promise made to clients: current, or replaced less than a minute
      ago. */
  predicate WithinGrace(first: Secret, events: seq<KeyEvent>, i: nat, now: nat)
    requires i < |Keys(first, events)|
  {
    i == |Retired(first, events)| || now < Retired(first, events)[i] + KEY_GRACE
  }

  /** The promise is kept from time t on exactly when the last rotation but one
      is a minute old by then: two rotations in one minute break it. */
  lemma GraceIsKeptExactly(first: Secret, events: seq<KeyEvent>, t: nat)
    requires Plausible(first, events) && Since(events, t)
    ensures var n := |Retired(first, events)|;
      (forall i: nat, now: nat :: i <= n && t <= now ==>
         (Accepts(first, events, i, now) <==> WithinGrace(first, events, i, now)))
      <==> n < 2 || Retired(first, events)[n - 2] + KEY_GRACE <= t
  {
    var ts := Retired(first, events);
    var n := |ts|;
    RetiredInOrder(first, events);
    forall i: nat, now: nat | i <= n && t <= now
      ensures Accepts(first, events, i, now) <==> i == n || (i == n - 1 && now < ts[i] + KEY_GRACE)
    {
      AcceptedExactly(first, events, i, now);
    }
    if n >= 2 && ts[n - 2] + KEY_GRACE > t {
      assert WithinGrace(first, events, n - 2, t) && !Accepts(first, events, n - 2, t);
    }
  }

  /** Rotations at least a minute apart, as the ten-minute cadence ensures. */
  predicate Spaced(first: Secret, events: seq<KeyEvent>) {
    forall i :: 0 < i < |Retired(first, events)| ==>
      Retired(first, events)[i - 1] + KEY_GRACE <= Retired(first, events)[i]
  }

  lemma SpacedRotationsKeepGrace(first: Secret, events: seq<KeyEvent>, i: nat, now: nat)
    requires Plausible(first, events) && Since(events, now) && Spaced(first, events) && i < |Keys(first, events)|
    ensures Accepts(first, events, i, now) <==> WithinGrace(first, events, i, now)
  {
    var ts := Retired(first, events);
    var n := |ts|;
    RetiredInOrder(first, events);
    AcceptedExactly(first, events, i, now);
    if i + 1 < n {
      assert ts[i] <= ts[n - 2] && ts[n - 2] + KEY_GRACE <= ts[n - 1] <= now;
    }
  }

  function Held(st: KeyState): set<Secret> {
    {st.current} + if st.previous.Some? then {st.previous.value} else {}
  }

  /** At most two secrets exist at any time, and a replaced one is gone by the
      next rotation: only the two newest can be held. */
  lemma OnlyTheTwoNewestAreHeld(first: Secret, events: seq<KeyEvent>, i: nat)
    requires Plausible(first, events) && i < |Keys(first, events)|
    ensures |Held(StateAfter(first, events))| <= 2
    ensures Keys(first, events)[i] in Held(StateAfter(first, events)) ==> i + 1 >= |Retired(first, events)|
  {
    StateHolds(first, events);
  }
}
