/** How long things live, in whole seconds: the constants the Worker and the SDK share. */
module TokenTimes {
  import opened Common

  const DEFAULT_TOKEN_TTL := 300
  const MAX_PASSTHROUGH_TTL := 86400
  const REFRESH_SKEW := 30
  const JWKS_TTL := 600

  function MinInt(a: int, b: int): int { if a < b then a else b }
  function MaxInt(a: int, b: int): int { if a > b then a else b }

  /** As close to what was asked for, or to 300 s, as a second to a day allows. */
  ghost predicate IsNearest(seconds: int, asked: Option<int>) {
    var wanted := if asked.Some? then asked.value else 300;
    && 1 <= seconds <= 86400
    && forall other :: 1 <= other <= 86400 ==> Distance(seconds, wanted) <= Distance(other, wanted)
  }

  function Distance(a: int, b: int): int { if a < b then b - a else a - b }

  function PassthroughTtl(ttl: Option<int>): (seconds: int)
    ensures IsNearest(seconds, ttl)
  {
    var wanted := if ttl.Some? then ttl.value else DEFAULT_TOKEN_TTL;
    var seconds := MaxInt(1, MinInt(wanted, MAX_PASSTHROUGH_TTL));
    assert forall other :: 1 <= other <= 86400 ==> Distance(seconds, wanted) <= Distance(other, wanted);
    seconds
  }

  /** A key's token never outlives the key. */
  function KeyExpiry(now: int, expiresAt: Option<int>): (expiry: int)
    ensures expiry <= now + DEFAULT_TOKEN_TTL && (expiresAt.Some? ==> expiry <= expiresAt.value)
    ensures expiry == now + DEFAULT_TOKEN_TTL || Some(expiry) == expiresAt
  {
    if expiresAt.Some? then MinInt(now + DEFAULT_TOKEN_TTL, expiresAt.value) else now + DEFAULT_TOKEN_TTL
  }
}
