/** internal/app/accounts.go, `cooldownForStatus`: whether an answer condemns the account, and
    for how long. Durations and times are nanoseconds; a reset at 0 is the zero time. */
module Cooldowns {
  import opened Prelude
  import opened AccountPool

  const RATE_LIMIT_FALLBACK := 60 * SECOND
  const USAGE_LIMIT_FALLBACK := 300 * SECOND
  const UNAUTHORIZED_COOLDOWN := 600 * SECOND

  datatype Window = Window(percent: real, resetAt: int)

  /** What a 429 says: whether its type or code names a usage limit, the reset fields of its
      body, its Retry-After seconds, and the usage windows of its headers. */
  datatype Limit = Limit(usageLimit: bool, resetsInSeconds: Option<real>, resetsAt: Option<real>,
                         retryAfter: Option<int>, primary: Option<Window>, secondary: Option<Window>)

  /** The conversion of a positive number of seconds drops the fraction. */
  function Whole(seconds: real): int {
    seconds.Floor * SECOND
  }

  predicate Exhausted(window: Option<Window>, now: nat) {
    window.Some? && window.value.percent >= 100.0 && window.value.resetAt > now
  }

  predicate ResetsIn(limit: Limit) {
    limit.resetsInSeconds.Some? && limit.resetsInSeconds.value > 0.0
  }

  predicate ResetsLater(limit: Limit, now: nat) {
    limit.resetsAt.Some? && limit.resetsAt.value > (now / SECOND) as real
  }

  method CooldownForStatus(status: int, limit: Limit, now: nat) returns (d: int, reason: string, ok: bool)
    ensures ok <==> status == 401 || status == 429
    ensures status == 401 ==> d == UNAUTHORIZED_COOLDOWN && reason == "unauthorized"
    ensures status == 429 ==> d == Cooldown(limit, now) && reason in {"rate_limited", "usage_limit"}
    ensures status == 429 ==> (reason == "usage_limit" <==> limit.usageLimit || UsedUp(limit, now))
  {
    if status == 429 {
      reason := "rate_limited";
      var fallback := RATE_LIMIT_FALLBACK;
      if limit.usageLimit {
        reason, fallback := "usage_limit", USAGE_LIMIT_FALLBACK;
      }
      if limit.resetsInSeconds.Some? && limit.resetsInSeconds.value > 0.0 {
        return Whole(limit.resetsInSeconds.value), reason, true;
      }
      if limit.resetsAt.Some? && limit.resetsAt.value > (now / SECOND) as real {
        return Whole(limit.resetsAt.value) - now, reason, true;
      }
      if limit.retryAfter.Some? && limit.retryAfter.value > 0 {
        return limit.retryAfter.value * SECOND, reason, true;
      }
      if Exhausted(limit.primary, now) {
        return limit.primary.value.resetAt - now, "usage_limit", true;
      }
      if Exhausted(limit.secondary, now) {
        return limit.secondary.value.resetAt - now, "usage_limit", true;
      }
      return fallback, reason, true;
    }
    if status == 401 {
      return UNAUTHORIZED_COOLDOWN, "unauthorized", true;
    }
    return 0, "", false;
  }

  /** The first advice there is: the body's, the header's, the usage windows', or a fallback. */
  function Cooldown(limit: Limit, now: nat): int {
    if ResetsIn(limit) then Whole(limit.resetsInSeconds.value)
    else if ResetsLater(limit, now) then Whole(limit.resetsAt.value) - now
    else if limit.retryAfter.Some? && limit.retryAfter.value > 0 then limit.retryAfter.value * SECOND
    else if Exhausted(limit.primary, now) then limit.primary.value.resetAt - now
    else if Exhausted(limit.secondary, now) then limit.secondary.value.resetAt - now
    else if limit.usageLimit then USAGE_LIMIT_FALLBACK
    else RATE_LIMIT_FALLBACK
  }

  /** Neither the body nor Retry-After says anything. */
  predicate Unadvised(limit: Limit, now: nat) {
    && (limit.resetsInSeconds.None? || limit.resetsInSeconds.value <= 0.0)
    && (limit.resetsAt.None? || limit.resetsAt.value <= (now / SECOND) as real)
    && (limit.retryAfter.None? || limit.retryAfter.value <= 0)
  }

  /** An exhausted window that has yet to reset. */
  predicate Closed(window: Option<Window>, now: nat) {
    match window case Some(w) => 100.0 <= w.percent && now < w.resetAt case None => false
  }

  /** Nothing but the windows tells that usage has run out. */
  predicate UsedUp(limit: Limit, now: nat) {
    Unadvised(limit, now) && (Closed(limit.primary, now) || Closed(limit.secondary, now))
  }

  /** Spelled out: the body's seconds, its time, Retry-After, the primary and the secondary
      window, each when all before it say nothing; and five minutes or one when nothing does. */
  lemma AdviceInOrder(limit: Limit, now: nat)
    ensures match limit.resetsInSeconds
      case Some(seconds) => seconds > 0.0 ==> Cooldown(limit, now) == seconds.Floor * 1_000_000_000
      case None => true
    ensures limit.resetsInSeconds.None? || limit.resetsInSeconds.value <= 0.0 ==>
      match limit.resetsAt
      case Some(at) => at > (now / 1_000_000_000) as real ==> Cooldown(limit, now) == at.Floor * 1_000_000_000 - now
      case None => true
    ensures Unadvised(limit.(retryAfter := None), now) ==>
      match limit.retryAfter
      case Some(seconds) => seconds > 0 ==> Cooldown(limit, now) == seconds * 1_000_000_000
      case None => true
    ensures Unadvised(limit, now) && Closed(limit.primary, now) ==>
      Cooldown(limit, now) == limit.primary.value.resetAt - now
    ensures Unadvised(limit, now) && !Closed(limit.primary, now) && Closed(limit.secondary, now) ==>
      Cooldown(limit, now) == limit.secondary.value.resetAt - now
    ensures Unadvised(limit, now) && !Closed(limit.primary, now) && !Closed(limit.secondary, now) ==>
      Cooldown(limit, now) == (if limit.usageLimit then 300 else 60) * 1_000_000_000
  {
  }

  /** A reset less than a second away, or within the current second, is rounded down to none. */
  predicate RoundedAway(limit: Limit, now: nat) {
    if ResetsIn(limit) then limit.resetsInSeconds.value < 1.0
    else ResetsLater(limit, now) && limit.resetsAt.value < (now / SECOND) as real + 1.0
  }

  /** A refused account rests for a positive time, exactly when its reset is not rounded away. */
  lemma CooldownsLast(limit: Limit, now: nat)
    ensures Cooldown(limit, now) > 0 <==> !RoundedAway(limit, now)
  {
    if ResetsIn(limit) {
      var seconds := limit.resetsInSeconds.value;
      assert seconds.Floor >= 1 <==> seconds >= 1.0;
      assert seconds.Floor * SECOND > 0 <==> seconds.Floor >= 1;
    } else if ResetsLater(limit, now) {
      WholeSecondsCompare(limit.resetsAt.value.Floor, now);
      assert limit.resetsAt.value.Floor > now / SECOND <==> limit.resetsAt.value >= (now / SECOND) as real + 1.0;
    }
  }

  lemma WholeSecondsCompare(whole: int, now: nat)
    requires whole >= now / SECOND
    ensures whole * SECOND - now > 0 <==> whole > now / SECOND
  {
    var q, r := now / SECOND, now % SECOND;
    assert now == q * SECOND + r && 0 <= r < SECOND;
  }

  /** An upstream that asks for half a second gets none: the account is ready again at once. */
  lemma HalfASecondIsNoCooldown(now: nat)
    ensures Cooldown(Limit(false, Some(0.5), None, None, None, None), now) == 0
  {
    assert (0.5 as real).Floor == 0;
  }
}
