/** The server's ephemeral key pair as the application keeps it. */
module EphemeralKeys {
  import opened Tasks
  import R = Rotation

  class EphemeralKey {
    var current: R.Secret
    var previous: Option<R.Secret>
    var previousExpiresAt: Option<nat>

    ghost function State(): R.KeyState
      reads this
    {
      R.KeyState(current, previous, previousExpiresAt)
    }

    constructor Generate(newborn: R.Secret)
      ensures State() == R.StateAfter(newborn, [])
    {
      current, previous, previousExpiresAt := newborn, None, None;
    }

    /** Replace the current key and keep the old one for its grace period. */
    method Rotate(newborn: R.Secret, now: nat) returns (published: R.Public)
      modifies this
      ensures State() == R.Rotate(old(State()), newborn, now)
      ensures published == R.Public(current)
    {
      var replaced := current;
      current := newborn;
      previous := Some(replaced);
      previousExpiresAt := Some(now + R.KEY_GRACE);
      published := R.Public(newborn);
    }

    /** Drop the previous key once its grace period is over. */
    method GcExpired(now: nat)
      modifies this
      ensures State() == R.GcExpired(old(State()), now)
    {
      var expired := previousExpiresAt.Some? && now >= previousExpiresAt.value;
      if expired {
        previous := None;
        previousExpiresAt := None;
      }
    }

    method DhCandidates(client: R.Public, now: nat) returns (shareds: seq<R.Shared>)
      ensures |shareds| == |R.Candidates(State(), now)|
      ensures forall i :: 0 <= i < |shareds| ==> shareds[i] == R.Dh(R.Candidates(State(), now)[i], client)
    {
      shareds := [R.Dh(current, client)];
      if previous.Some? && previousExpiresAt.Some? && now < previousExpiresAt.value {
        shareds := shareds + [R.Dh(previous.value, client)];
      }
    }

    method DecryptRequestV2(room: R.Key, env: R.Envelope, now: nat) returns (r: Result<(Bytes, R.Key), R.CryptoError>)
      ensures r == R.DecryptRequestV2(State(), room, env, now)
    {
      var client: R.Public;
      match env.ephPk {
        case None => return Err(R.MissingEphPk);
        case Some(BadBase64) => return Err(R.BadEncoding(R.EphPkField));
        case Some(BadSize(got)) => return Err(R.BadLength(R.EphPkField, got));
        case Some(Good(pk)) => client := pk;
      }
      ghost var secrets := R.Candidates(State(), now);
      var shareds := DhCandidates(client, now);
      var lastErr := R.NoMatchingKey;
      for i := 0 to |shareds|
        invariant |shareds| == |secrets|
        invariant R.TryAll(secrets, room, client, env, R.NoMatchingKey) == R.TryAll(secrets[i..], room, client, env, lastErr)
      {
        var session := R.SessionKey(room, shareds[i]);
        var plain := R.DecryptInner(session, env);
        assert secrets[i..][0] == secrets[i] && secrets[i..][1..] == secrets[i + 1..];
        if plain.Ok? {
          return Ok((plain.value, session));
        }
        lastErr := plain.error;
      }
      return Err(lastErr);
    }
  }
}
