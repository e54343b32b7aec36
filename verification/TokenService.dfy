/** The revocation table, member tokens and the bearer check as methods over the tables. */
module TokenService {
  import opened Util
  import J = Jwt
  import opened TokenModel
  import opened TokenLifecycle

  /** The tables after an uninterrupted rotation of a member that exists. */
  function AfterRotation(s: Tokens, h: Holder, jti: string, mintAt: nat): Tokens
    requires h in s.current
  {
    if s.current[h].None? then Issued(s, h, jti, mintAt) else Rotated(s, h, s.current[h].value, jti, mintAt)
  }

  /** What randomUUID gives: a jti no table knows. */
  predicate Unused(s: Tokens, jti: string) {
    jti !in s.issued && jti !in s.revoked && forall h <- s.current :: s.current[h] != Some(jti)
  }

  lemma IssuedInv(s: Tokens, h: Holder, jti: string, mintAt: nat)
    requires Inv(s) && s.now <= mintAt && s.tasks == map[] && jti !in s.issued && jti !in s.revoked
    ensures Inv(Issued(s, h, jti, mintAt))
  {
  }

  lemma AfterRotationInv(s: Tokens, h: Holder, jti: string, mintAt: nat)
    requires Inv(s) && s.now <= mintAt && s.tasks == map[] && jti !in s.issued && jti !in s.revoked && h in s.current
    ensures Unused(s, jti) && Inv(AfterRotation(s, h, jti, mintAt))
  {
    if s.current[h].None? {
      IssuedInv(s, h, jti, mintAt);
    } else {
      var revoked := s.(revoked := RevokeRow(s.revoked, s.current[h].value, s.now + SEVEN_DAYS_MS));
      IssuedInv(revoked, h, jti, mintAt);
    }
  }

  class TokenHub {
    const codec: J.Codec
    /** The text signed for a member, a jti and an instant. */
    const sign: (Holder, string, nat) -> string
    /** The members table's current_jti column. */
    var current: map<Holder, Option<string>>
    /** The revoked_tokens table. */
    var revoked: map<string, nat>
    /** Every token signed so far. */
    ghost var issued: map<string, Minted>

    constructor (codec: J.Codec)
      ensures State(0) == Init(0) && this.codec == codec
      ensures forall h, jti, at :: sign(h, jti, at) == TextOf(codec, h, jti, at)
    {
      this.codec := codec;
      sign := (h: Holder, jti: string, at: nat) => TextOf(codec, h, jti, at);
      current, revoked, issued := map[], map[], map[];
    }

    /** The state at an instant with no call in progress. */
    ghost function State(now: nat): Tokens
      reads this
    {
      Tokens(now, current, revoked, issued, map[])
    }

    method Revoke(jti: string, expiresAt: nat)
      modifies this`revoked
      ensures revoked == RevokeRow(old(revoked), jti, expiresAt)
    {
      if jti !in revoked {
        revoked := revoked[jti := expiresAt];
      }
    }

    method IsRevoked(jti: string) returns (found: bool)
      ensures found <==> jti in revoked
    {
      found := jti in revoked;
    }

    /** The number of rows dropped. */
    method SweepExpired(now: nat) returns (count: nat)
      modifies this`revoked
      ensures State(now) == Next(old(State(now)), Sweep)
      ensures count == |set jti | jti in old(revoked) && jti !in revoked|
    {
      var dropped := set jti | jti in revoked && revoked[jti] <= now;
      revoked := map jti | jti in revoked && jti !in dropped :: revoked[jti];
      count := |dropped|;
      assert dropped == set jti | jti in old(revoked) && jti !in revoked;
    }

    /** jti and now are the fresh id and the clock that sign() reads. */
    method IssueMemberToken(ws: string, member: string, jti: string, now: nat) returns (text: string)
      requires jti !in issued && jti !in revoked
      modifies this`current, this`issued
      ensures State(now) == Issued(old(State(now)), Holder(ws, member), jti, now)
      ensures text == sign(Holder(ws, member), jti, now)
    {
      var h := Holder(ws, member);
      text := sign(h, jti, now);
      issued := issued[jti := Minted(h, now)];
      if h in current {
        current := current[h := Some(jti)];
      }
    }

    /** None when the workspace has no such member. The clock reads now at the revocation and mintAt at signing. */
    method RotateMemberToken(ws: string, member: string, jti: string, now: nat, mintAt: nat)
      returns (text: Option<string>)
      requires Unused(State(now), jti) && now <= mintAt
      modifies this`current, this`revoked, this`issued
      ensures text.None? <==> Holder(ws, member) !in old(current)
      ensures text.None? ==> State(now) == old(State(now))
      ensures text.Some? ==>
                && text.value == sign(Holder(ws, member), jti, mintAt)
                && State(mintAt) == AfterRotation(old(State(now)), Holder(ws, member), jti, mintAt)
    {
      var h := Holder(ws, member);
      if h !in current {
        return None;
      }
      if current[h].Some? {
        Revoke(current[h].value, now + SEVEN_DAYS_MS);
      }
      var minted := IssueMemberToken(ws, member, jti, mintAt);
      text := Some(minted);
    }

    /** The bearer check of every workspace route. */
    method Authorized(text: string, path: string, now: nat) returns (claims: Option<J.Claims>)
      ensures claims == Authorize(codec, State(now), text, path)
    {
      claims := J.Verify(codec, text, now);
      if claims.None? || claims.value.ws != path {
        return None;
      }
      var revokedNow := IsRevoked(claims.value.jti);
      if revokedNow {
        return None;
      }
    }
  }
}
