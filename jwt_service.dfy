/** The token service: the refresh-token table's issue and rotation, and
    the access token's lifetime. Signing, BCrypt and UUID generation are
    foreign calls; they arrive as parameters. */
module JwtService {
  import opened Common
  import opened Entities
  import opened Store

  /** `ACCESS_TOKEN_VALIDITY`: fifteen minutes, in seconds. */
  const AccessTokenValidity: int := 15 * 60
  /** `REFRESH_TOKEN_VALIDITY`: three days, in seconds. */
  const RefreshTokenValidity: int := 3 * 24 * 60 * 60

  /** `accessTokenTtlSeconds`. */
  function AccessTokenTtlSeconds(): (r: int)
    ensures r == 900
  {
    AccessTokenValidity
  }

  /** The refresh token `generateAndStoreRefreshToken` stores for `user`
      at instant `now`, for the opaque string `raw`. */
  function NewToken(tokenId: int, user: User, raw: string, now: int, hash: string -> string): (t: RefreshToken)
    ensures t.userId == user.id && !t.revoked && t.expiresAt == now + 259200 && t.tokenHash == hash(raw)
  {
    RefreshToken(tokenId, user.id, hash(raw), now + RefreshTokenValidity, false)
  }

  /** `generateAndStoreRefreshToken`: the opaque string is two random UUIDs
      joined by a dot; only its hash is stored, with a three-day expiry. */
  method GenerateAndStoreRefreshToken(db: Database, user: User, uuid1: string, uuid2: string, tokenId: int,
                                      now: int, hash: string -> string) returns (raw: string)
    modifies db`tokens
    ensures raw == uuid1 + "." + uuid2
    ensures db.tokens == old(db.tokens) + [NewToken(tokenId, user, raw, now, hash)]
  {
    raw := uuid1 + "." + uuid2;
    var t := RefreshToken(tokenId, user.id, hash(raw), now + RefreshTokenValidity, false);
    db.tokens := db.tokens + [t];
  }

  /** The condition of the rotation loop: not revoked, expiring strictly
      after `now`, and matching the presented string. */
  function Redeemable(t: RefreshToken, presented: string, now: int, matches: (string, string) -> bool): (b: bool)
    ensures t.revoked ==> !b
    ensures t.expiresAt <= now ==> !b
    ensures !matches(presented, t.tokenHash) ==> !b
  {
    !t.revoked && t.expiresAt > now && matches(presented, t.tokenHash)
  }

  /** Position of the first redeemable token in table order. */
  function FirstRedeemable(ts: seq<RefreshToken>, presented: string, now: int,
                           matches: (string, string) -> bool): (r: Option<nat>)
    ensures r.None? <==> forall k :: 0 <= k < |ts| ==> !Redeemable(ts[k], presented, now, matches)
    ensures r.Some? ==> r.value < |ts| && Redeemable(ts[r.value], presented, now, matches)
    ensures r.Some? ==> forall k :: 0 <= k < r.value ==> !Redeemable(ts[k], presented, now, matches)
  {
    if ts == [] then None
    else if Redeemable(ts[0], presented, now, matches) then Some(0)
    else match FirstRedeemable(ts[1..], presented, now, matches)
      case None => None
      case Some(k) => Some(k + 1)
  }

  /** The table after `t.revoked = true` on row `i`. */
  function Revoke(ts: seq<RefreshToken>, i: nat): (r: seq<RefreshToken>)
    requires i < |ts|
    ensures |r| == |ts| && r[i].revoked
    ensures r[i] == ts[i].(revoked := true)
    ensures forall k :: 0 <= k < |ts| && k != i ==> r[k] == ts[k]
  {
    ts[i := ts[i].(revoked := true)]
  }

  /** `rotateRefreshToken`: scans the table in order; the first redeemable
      token is revoked and its owner looked up (who may no longer exist);
      with no such token the table is left alone. The clock is read once. */
  method RotateRefreshToken(db: Database, presented: string, now: int,
                            matches: (string, string) -> bool) returns (r: Option<User>)
    modifies db`tokens
    ensures var f := FirstRedeemable(old(db.tokens), presented, now, matches);
            && (f.None? ==> r.None? && db.tokens == old(db.tokens))
            && (f.Some? ==> db.tokens == Revoke(old(db.tokens), f.value) &&
                            r == FindUser(db.users, old(db.tokens)[f.value].userId))
  {
    var tokens := db.tokens;
    for i := 0 to |tokens|
      invariant db.tokens == tokens
      invariant forall k :: 0 <= k < i ==> !Redeemable(tokens[k], presented, now, matches)
    {
      var t := tokens[i];
      if !t.revoked && t.expiresAt > now && matches(presented, t.tokenHash) {
        db.tokens := tokens[i := t.(revoked := true)];
        return FindUser(db.users, t.userId);
      }
    }
    return None;
  }

  /** A token that was redeemed cannot be redeemed again: after the
      rotation, asking again at the same or a later instant finds a later
      token or none. */
  lemma {:induction false} RedeemedTokenIsSpent(ts: seq<RefreshToken>, presented: string, now: int, later: int,
                                               matches: (string, string) -> bool)
    requires now <= later
    requires FirstRedeemable(ts, presented, now, matches).Some?
    ensures var i := FirstRedeemable(ts, presented, now, matches).value;
            var again := FirstRedeemable(Revoke(ts, i), presented, later, matches);
            again.None? || again.value > i
  {
    var i := FirstRedeemable(ts, presented, now, matches).value;
    var ts' := Revoke(ts, i);
    forall k | 0 <= k <= i ensures !Redeemable(ts'[k], presented, later, matches) {
      if k < i {
        assert !Redeemable(ts[k], presented, now, matches);
      }
    }
  }

  /** A freshly issued token is redeemed with its own string until it
      expires, provided BCrypt accepts a string against its own hash and
      no earlier token is redeemable. */
  lemma {:induction false} FreshTokenRedeems(ts: seq<RefreshToken>, tokenId: int, user: User, raw: string,
                                            now: int, later: int, hash: string -> string,
                                            matches: (string, string) -> bool)
    requires matches(raw, hash(raw))
    requires forall k :: 0 <= k < |ts| ==> !Redeemable(ts[k], raw, later, matches)
    ensures var t := NewToken(tokenId, user, raw, now, hash);
            FirstRedeemable(ts + [t], raw, later, matches) ==
              if later < now + RefreshTokenValidity then Some(|ts|) else None
  {
    var t := NewToken(tokenId, user, raw, now, hash);
    var ts' := ts + [t];
    assert forall k :: 0 <= k < |ts| ==> ts'[k] == ts[k];
    assert ts'[|ts|] == t;
    var f := FirstRedeemable(ts', raw, later, matches);
    if f.Some? {
      assert f.value == |ts|;
    }
  }
}
