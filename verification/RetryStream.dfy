/** internal/app/backend.go, `streamWithRetries` and `retryDelay`: attempts are buffered
    until they are known to be good, so that a client never sees a mix of attempts.
    An attempt is what `streamOnce` passes to its callback and how it ends; its shape is
    `SseReader.AttemptsEndOnce`. Times are nanoseconds. */
module RetryStream {
  import opened Prelude
  import SseReader

  /** `backendError`, with the code and Retry-After of a failure Codex reported, or any other error. */
  datatype Err = Backend(status: int, code: string, advice: Option<nat>) | Opaque | Cancelled

  datatype Kind = ErrorKind | FailedKind | EndedKind(withResponse: bool) | LifecycleKind | OutputKind

  datatype Event = Event(kind: Kind, failure: Err, body: string)

  datatype Attempt = Attempt(events: seq<Event>, ending: Option<Err>)

  predicate Finishing(e: Event) {
    e.kind == FailedKind || e.kind == EndedKind(true)
  }

  predicate Terminal(e: Event) {
    e.kind == ErrorKind || Finishing(e)
  }

  predicate ValidAttempt(a: Attempt) {
    && (forall i :: 0 <= i < |a.events| - 1 ==> !Finishing(a.events[i]))
    && (a.ending == None ==> exists e <- a.events :: Terminal(e))
  }

  // ------------------------------------------------------------------ which failures are retried, and when

  const SECOND: nat := 1_000_000_000
  const MAX_RETRY_ADVICE: nat := 30 * SECOND
  const RETRY_BASE_DELAY: nat := 200_000_000

  /** `n` shifted left by `k`, before it is cut to 64 bits. */
  function Shifted(n: int, k: nat): int {
    if k == 0 then n else 2 * Shifted(n, k - 1)
  }

  const MAX_INT64 := 0x7FFF_FFFF_FFFF_FFFF

  /** A signed 64-bit count. */
  predicate Fits(n: int) {
    -MAX_INT64 - 1 <= n <= MAX_INT64
  }

  function Wrapped(n: int): (w: int)
    ensures Fits(w) && (Fits(n) ==> w == n)
  {
    (n + MAX_INT64 + 1) % 0x1_0000_0000_0000_0000 - MAX_INT64 - 1
  }

  function Min(a: int, b: int): int {
    if a < b then a else b
  }

  /** The delay an attempt waits for before jitter: doubled per attempt, up to the cap. */
  function Doubled(baseDelay: int, attempt: nat): int {
    Min(Wrapped(Shifted(baseDelay, Min(attempt, 8))), MAX_RETRY_ADVICE)
  }

  predicate Transient(err: Err) {
    err.Backend? &&
    if err.status == 429 then err.code == "rate_limit_exceeded" || (err.code == "" && err.advice.Some?)
    else if err.code == "server_is_overloaded" || err.code == "policy_capacity_unavailable" then err.advice.Some?
    else err.status >= 500 && err.status != 504
  }

  predicate Retries(maxRetries: nat, err: Err, attempt: nat) {
    attempt < maxRetries && Transient(err) && (err.advice.Some? ==> err.advice.value <= MAX_RETRY_ADVICE)
  }

  /** `retryDelay`: `jitter` is the random number in [0, 1). A computed delay is positive exactly
      when its base is at least two nanoseconds, or one and the jitter rounds it up. */
  method RetryDelay(maxRetries: nat, baseDelay: int, err: Err, attempt: nat, jitter: real)
    returns (delay: int, ok: bool)
    requires Fits(baseDelay) && 0.0 <= jitter < 1.0
    ensures ok == Retries(maxRetries, err, attempt)
    ensures ok && err.advice.Some? ==> delay == err.advice.value
    ensures ok && err.advice.None? ==>
      var base := Doubled(baseDelay, attempt);
      && (delay > 0 <==> base >= 2 || (base == 1 && jitter >= 0.5))
      && (base > 0 ==> base as real * 0.9 - 1.0 < delay as real < base as real * 1.1)
    ensures ok ==> delay <= 33 * SECOND
  {
    if attempt >= maxRetries || !err.Backend? {
      return 0, false;
    }
    var retry;
    if err.status == 429 {
      retry := err.code == "rate_limit_exceeded" || (err.code == "" && err.advice.Some?);
    } else if err.code == "server_is_overloaded" || err.code == "policy_capacity_unavailable" {
      retry := err.advice.Some?;
    } else {
      retry := err.status >= 500 && err.status != 504;
    }
    if !retry {
      return 0, false;
    }
    if err.advice.Some? {
      return err.advice.value, err.advice.value <= MAX_RETRY_ADVICE;
    }
    delay := Backoff(baseDelay, attempt, jitter);
    ok := true;
  }

  /** A positive base whose largest shift fits is not cut: the delay before jitter is positive
      and never less than the base, up to the cap. */
  lemma FittingBasesGrow(baseDelay: int, attempt: nat)
    requires 0 < baseDelay && Fits(baseDelay * 256)
    ensures Doubled(baseDelay, attempt) == Min(Shifted(baseDelay, Min(attempt, 8)), MAX_RETRY_ADVICE)
    ensures Min(baseDelay, MAX_RETRY_ADVICE) <= Doubled(baseDelay, attempt) <= MAX_RETRY_ADVICE
  {
    ShiftedGrows(baseDelay, Min(attempt, 8));
  }

  /** Which the base the program comes with is, at every attempt. */
  lemma ShippedBaseGrows(attempt: nat)
    ensures RETRY_BASE_DELAY <= Doubled(RETRY_BASE_DELAY, attempt) <= MAX_RETRY_ADVICE
    ensures attempt <= 7 ==> Doubled(RETRY_BASE_DELAY, attempt) == RETRY_BASE_DELAY * Power(attempt)
    ensures attempt > 7 ==> Doubled(RETRY_BASE_DELAY, attempt) == MAX_RETRY_ADVICE
  {
    FittingBasesGrow(RETRY_BASE_DELAY, attempt);
    ShiftedGrows(RETRY_BASE_DELAY, Min(attempt, 8));
  }

  /** The forms a Retry-After value takes: seconds, a date that is `remaining` away, or neither. */
  datatype RetryAfter = Seconds(value: real) | Date(remaining: int) | Neither

  const MAX_INT32: real := 2147483647.0
  /** `parseRetryAfter`: an accepted value is never negative, and one in seconds fits the
      64-bit nanosecond count it is truncated to. */
  method ParseRetryAfter(value: RetryAfter) returns (delay: int, ok: bool)
    ensures ok <==> value.Date? || (value.Seconds? && 0.0 <= value.value <= MAX_INT32)
    ensures ok ==> 0 <= delay
    ensures ok && value.Seconds? ==>
      delay <= MAX_INT64 && delay as real <= value.value * 1000000000.0 < delay as real + 1.0
    ensures value.Date? ==> delay == if value.remaining > 0 then value.remaining else 0
  {
    match value {
      case Seconds(seconds) =>
        var nanoseconds := seconds * 1000000000.0;
        return nanoseconds.Floor, 0.0 <= seconds <= MAX_INT32;
      case Date(remaining) =>
        return if remaining > 0 then remaining else 0, true;
      case Neither =>
        return 0, false;
    }
  }

  method Backoff(baseDelay: int, attempt: nat, jitter: real) returns (delay: int)
    requires Fits(baseDelay) && 0.0 <= jitter < 1.0
    ensures var base := Doubled(baseDelay, attempt);
      && (delay > 0 <==> base >= 2 || (base == 1 && jitter >= 0.5))
      && (base > 0 ==> base as real * 0.9 - 1.0 < delay as real < base as real * 1.1)
    ensures delay <= 33 * SECOND
  {
    var base := Doubled(baseDelay, attempt);
    var exact := Jittered(base as real, jitter);
    delay := Truncated(exact);
    JitterRounds(base, jitter, exact, delay);
  }

  /** The conversion drops the fraction. */
  function Truncated(x: real): int {
    if x >= 0.0 then x.Floor else -(-x).Floor
  }

  lemma JitterRounds(base: int, jitter: real, exact: real, delay: int)
    requires base <= 30_000_000_000 && delay == Truncated(exact)
    requires base > 0 ==> base as real * 0.9 <= exact < base as real * 1.1
    requires base <= 0 ==> exact <= 0.0
    requires base == 1 ==> exact == 0.9 + jitter * 0.2
    ensures delay > 0 <==> base >= 2 || (base == 1 && jitter >= 0.5)
    ensures base > 0 ==> base as real * 0.9 - 1.0 < delay as real < base as real * 1.1
    ensures delay <= 33 * SECOND
  {
    if base <= 0 {
      assert exact == 0.0 || delay == -(-exact).Floor;
      assert (-exact).Floor >= 0;
    } else {
      assert exact - 1.0 < delay as real <= exact < 33_000_000_000.0;
      assert base >= 2 ==> exact >= 1.8;
      assert base == 1 ==> (exact >= 1.0 <==> jitter >= 0.5);
    }
  }

  lemma {:induction false} ShiftedGrows(n: int, k: nat)
    requires n > 0 && k <= 8
    ensures n <= Shifted(n, k) && Shifted(n, k) == n * Power(k)
  {
    if k > 0 {
      ShiftedGrows(n, k - 1);
      assert Power(k) == 2 * Power(k - 1);
    }
  }

  function Power(k: nat): (p: nat)
    requires k <= 8
    ensures 1 <= p <= 256
  {
    [1, 2, 4, 8, 16, 32, 64, 128, 256][k]
  }

  /** Between 0.9 and 1.1 times the delay. */
  method Jittered(delay: real, jitter: real) returns (exact: real)
    requires 0.0 <= jitter < 1.0
    ensures delay > 0.0 ==> delay * 0.9 <= exact < delay * 1.1
    ensures delay <= 0.0 ==> exact <= 0.0
    ensures delay == 1.0 ==> exact == 0.9 + jitter * 0.2
  {
    var j := jitter * 0.2;
    exact := delay * (0.9 + j);
    Scaled(delay, j, exact);
  }

  lemma Scaled(b: real, j: real, exact: real)
    requires 0.0 <= j < 0.2 && exact == b * (0.9 + j)
    ensures b > 0.0 ==> b * 0.9 <= exact < b * 1.1
    ensures b <= 0.0 ==> exact <= 0.0
  {
    var part := b * j;
    assert exact == b * 0.9 + part;
    PartOf(b, j, part);
  }

  lemma PartOf(b: real, j: real, part: real)
    requires 0.0 <= j < 0.2 && part == b * j
    ensures b > 0.0 ==> 0.0 <= part < b * 0.2
    ensures b <= 0.0 ==> b * 0.2 <= part <= 0.0
  {
    assert part - b * 0.2 == b * (j - 0.2);
  }

  // ------------------------------------------------------------------ what the buffer decides

  /** What an attempt has shown so far: nothing yet, a reason to deliver it, or a failure to retry. */
  datatype Verdict = Undecided(pending: Option<Err>) | Committed | Failed(failure: Err)

  function Judge(maxRetries: nat, pending: Option<Err>, e: Event, attempt: nat, holdOutput: bool): Verdict {
    match e.kind
    case ErrorKind => Undecided(Some(e.failure))
    case FailedKind => if Retries(maxRetries, e.failure, attempt) then Failed(e.failure) else Committed
    case EndedKind(_) => Committed
    case LifecycleKind => Undecided(pending)
    case OutputKind => if holdOutput then Undecided(pending) else Committed
  }

  function Scan(maxRetries: nat, es: seq<Event>, attempt: nat, holdOutput: bool): Verdict {
    if attempt >= maxRetries then Committed
    else if es == [] then Undecided(None)
    else match Scan(maxRetries, DropLast(es), attempt, holdOutput)
      case Undecided(pending) => Judge(maxRetries, pending, Last(es), attempt, holdOutput)
      case decided => decided
  }

  function FailureOf(a: Attempt, v: Verdict): Option<Err> {
    match v
    case Committed => None
    case Failed(failure) => Some(failure)
    case Undecided(pending) => if a.ending.Some? then a.ending else pending
  }

  /** An attempt is given up for another when it showed nothing worth delivering and
      failed in a way that may pass. */
  predicate Abandoned(maxRetries: nat, a: Attempt, attempt: nat, holdOutput: bool) {
    var failure := FailureOf(a, Scan(maxRetries, a.events, attempt, holdOutput));
    failure.Some? && Retries(maxRetries, failure.value, attempt)
  }

  /** An event the buffer keeps back without deciding anything. */
  predicate KeptBack(e: Event, holdOutput: bool) {
    e.kind == ErrorKind || e.kind == LifecycleKind || (holdOutput && e.kind == OutputKind)
  }

  /** Where the first event stands that is not kept back. */
  function FirstShown(es: seq<Event>, holdOutput: bool): (n: nat)
    ensures n <= |es| && (n < |es| ==> !KeptBack(es[n], holdOutput))
    ensures forall i :: 0 <= i < n ==> KeptBack(es[i], holdOutput)
  {
    if es == [] then 0
    else
      var n := FirstShown(DropLast(es), holdOutput);
      if n == |es| - 1 && KeptBack(Last(es), holdOutput) then |es| else n
  }

  lemma {:induction false} DecidedStays(maxRetries: nat, es: seq<Event>, i: nat, attempt: nat, holdOutput: bool)
    requires i <= |es| && !Scan(maxRetries, es[..i], attempt, holdOutput).Undecided?
    ensures Scan(maxRetries, es, attempt, holdOutput) == Scan(maxRetries, es[..i], attempt, holdOutput)
    decreases |es|
  {
    if i == |es| {
      assert es[..i] == es;
    } else {
      assert DropLast(es)[..i] == es[..i];
      DecidedStays(maxRetries, DropLast(es), i, attempt, holdOutput);
    }
  }

  /** An attempt that ends without an error and without a verdict has reported one itself. */
  lemma {:induction false} SilentEndsReport(maxRetries: nat, es: seq<Event>, attempt: nat, holdOutput: bool)
    requires Scan(maxRetries, es, attempt, holdOutput) == Undecided(None)
    ensures forall e <- es :: !Terminal(e)
  {
    if es != [] {
      SilentEndsReport(maxRetries, DropLast(es), attempt, holdOutput);
      assert es == DropLast(es) + [Last(es)];
    }
  }

  // ------------------------------------------------------------------ delivering

  /** The client's callback: what it answers to an event after those it has been given. */
  type Client = (seq<Event>, Event) -> Option<Err>

  /** The first error the client answers to `es`, if any. */
  function Refusal(fn: Client, es: seq<Event>): Option<Err> {
    if es == [] then None
    else if Refusal(fn, DropLast(es)).Some? then Refusal(fn, DropLast(es))
    else fn(DropLast(es), Last(es))
  }

  /** The events the client is given of `es`: all of them, or those through its first error. */
  function Given(fn: Client, es: seq<Event>): (given: seq<Event>)
    ensures given <= es && (Refusal(fn, es).None? ==> given == es)
    ensures es != [] ==> given != []
  {
    if es == [] then []
    else if Refusal(fn, DropLast(es)).Some? then Given(fn, DropLast(es))
    else es
  }

  lemma {:induction false} RefusalStands(fn: Client, es: seq<Event>, i: nat)
    requires i <= |es| && Refusal(fn, es[..i]).Some?
    ensures Refusal(fn, es) == Refusal(fn, es[..i]) && Given(fn, es) == Given(fn, es[..i])
    decreases |es|
  {
    if i == |es| {
      assert es[..i] == es;
    } else {
      assert DropLast(es)[..i] == es[..i];
      RefusalStands(fn, DropLast(es), i);
    }
  }

  lemma NextGiven(fn: Client, es: seq<Event>, i: nat)
    requires i < |es| && Refusal(fn, es[..i]) == None
    ensures Refusal(fn, es[..i + 1]) == fn(es[..i], es[i])
    ensures fn(es[..i], es[i]).Some? ==> Refusal(fn, es) == fn(es[..i], es[i]) && Given(fn, es) == es[..i + 1]
  {
    PrefixUnfolds(es, i);
    if fn(es[..i], es[i]).Some? {
      RefusalStands(fn, es, i + 1);
    }
  }

  lemma NextScanned(maxRetries: nat, es: seq<Event>, i: nat, attempt: nat, holdOutput: bool)
    requires i < |es| && attempt < maxRetries && Scan(maxRetries, es[..i], attempt, holdOutput).Undecided?
    ensures var v := Judge(maxRetries, Scan(maxRetries, es[..i], attempt, holdOutput).pending, es[i], attempt,
                           holdOutput);
      Scan(maxRetries, es[..i + 1], attempt, holdOutput) == v &&
      (!v.Undecided? ==> Scan(maxRetries, es, attempt, holdOutput) == v)
  {
    PrefixUnfolds(es, i);
    if !Scan(maxRetries, es[..i + 1], attempt, holdOutput).Undecided? {
      DecidedStays(maxRetries, es, i + 1, attempt, holdOutput);
    }
  }

  /** An attempt with retries left is delivered exactly when its first event that is not
      kept back is anything but a failure worth retrying. */
  lemma {:induction false} FirstShownDecides(maxRetries: nat, es: seq<Event>, attempt: nat, holdOutput: bool)
    requires attempt < maxRetries
    ensures var n, v := FirstShown(es, holdOutput), Scan(maxRetries, es, attempt, holdOutput);
      if n == |es| then v.Undecided?
      else if es[n].kind == FailedKind && Retries(maxRetries, es[n].failure, attempt) then v == Failed(es[n].failure)
      else v == Committed
  {
    if es != [] {
      FirstShownDecides(maxRetries, DropLast(es), attempt, holdOutput);
    }
  }

  // Spelled out, on the events and the error.

  /** Nothing but what the buffer keeps back: lifecycle and error events, and output while that
      is held. */
  predicate Quiet(es: seq<Event>, holdOutput: bool) {
    forall e <- es :: e.kind == ErrorKind || e.kind == LifecycleKind || (holdOutput && e.kind == OutputKind)
  }

  /** The attempt fails with `err` before it showed anything: by a failed event, by how it ends,
      or, when it just ends, by the last error it reported. */
  ghost predicate FailsQuietly(a: Attempt, holdOutput: bool, err: Err) {
    || (exists n :: 0 <= n < |a.events| && Quiet(a.events[..n], holdOutput) && a.events[n].kind == FailedKind &&
                    a.events[n].failure == err)
    || (Quiet(a.events, holdOutput) && a.ending == Some(err))
    || (Quiet(a.events, holdOutput) && a.ending == None && LastReported(a.events) == Some(err))
  }

  function LastReported(es: seq<Event>): Option<Err> {
    if es == [] then None
    else if Last(es).kind == ErrorKind then Some(Last(es).failure)
    else LastReported(DropLast(es))
  }

  lemma {:induction false} QuietIsUndecided(maxRetries: nat, es: seq<Event>, attempt: nat, holdOutput: bool)
    requires attempt < maxRetries && Quiet(es, holdOutput)
    ensures Scan(maxRetries, es, attempt, holdOutput) == Undecided(LastReported(es))
  {
    if es != [] {
      assert Last(es) in es && forall e <- DropLast(es) :: e in es;
      QuietIsUndecided(maxRetries, DropLast(es), attempt, holdOutput);
    }
  }

  /** Such an attempt is abandoned for a next one as the error decides: a 429 when it is said to be
      a rate limit, or comes with advice and no code; an overload with advice; and any other
      server error but a stalled stream's 504. Advice beyond 30 s is left to the client. */
  lemma QuietFailuresAreRetried(maxRetries: nat, a: Attempt, attempt: nat, holdOutput: bool, err: Err)
    requires attempt < maxRetries && FailsQuietly(a, holdOutput, err)
    ensures !err.Backend? ==> !Abandoned(maxRetries, a, attempt, holdOutput)
    ensures err.Backend? && err.advice.Some? && err.advice.value > 30 * SECOND ==>
      !Abandoned(maxRetries, a, attempt, holdOutput)
    ensures err.Backend? && (err.advice.Some? ==> err.advice.value <= 30 * SECOND) ==>
      (Abandoned(maxRetries, a, attempt, holdOutput) <==>
        if err.status == 429 then err.code == "rate_limit_exceeded" || (err.code == "" && err.advice.Some?)
        else if err.code == "server_is_overloaded" || err.code == "policy_capacity_unavailable" then err.advice.Some?
        else 500 <= err.status != 504)
  {
    if Quiet(a.events, holdOutput) {
      QuietIsUndecided(maxRetries, a.events, attempt, holdOutput);
    } else {
      var n :| 0 <= n < |a.events| && Quiet(a.events[..n], holdOutput) && a.events[n].kind == FailedKind &&
               a.events[n].failure == err;
      QuietIsUndecided(maxRetries, a.events[..n], attempt, holdOutput);
      NextScanned(maxRetries, a.events, n, attempt, holdOutput);
    }
  }

  /** An attempt that showed anything else is never abandoned, nor is the last one. */
  lemma ShownIsKept(maxRetries: nat, a: Attempt, attempt: nat, holdOutput: bool, n: nat)
    requires n < |a.events| && Quiet(a.events[..n], holdOutput)
    requires a.events[n].kind.EndedKind? || (a.events[n].kind == OutputKind && !holdOutput)
    ensures !Abandoned(maxRetries, a, attempt, holdOutput)
  {
    if attempt < maxRetries {
      QuietIsUndecided(maxRetries, a.events[..n], attempt, holdOutput);
      NextScanned(maxRetries, a.events, n, attempt, holdOutput);
    }
  }

  lemma TheLastIsKept(maxRetries: nat, a: Attempt, attempt: nat, holdOutput: bool)
    requires attempt >= maxRetries
    ensures !Abandoned(maxRetries, a, attempt, holdOutput)
  {
  }

  lemma FailedIsFirstShown(maxRetries: nat, es: seq<Event>, i: nat, attempt: nat, holdOutput: bool)
    requires i < |es| && attempt < maxRetries && es[i].kind == FailedKind
    requires Scan(maxRetries, es[..i], attempt, holdOutput).Undecided?
    ensures FirstShown(es, holdOutput) == i
  {
    FirstShownDecides(maxRetries, es[..i], attempt, holdOutput);
    assert forall j :: 0 <= j < i ==> KeptBack(es[..i][j], holdOutput);
  }

  /** What one attempt did: it was given up, or the client was given events and it ended with `err`. */
  datatype AttemptEnd = AttemptEnd(committed: bool, held: seq<Event>, failure: Option<Err>, delivered: seq<Event>)

  method Commit(fn: Client, held: seq<Event>) returns (delivered: seq<Event>, err: Option<Err>)
    ensures delivered == Given(fn, held) && err == Refusal(fn, held)
  {
    delivered, err := [], None;
    for i := 0 to |held|
      invariant delivered == held[..i] && Refusal(fn, held[..i]) == None && err == None
    {
      NextGiven(fn, held, i);
      err := fn(delivered, held[i]);
      delivered := delivered + [held[i]];
      assert delivered == held[..i + 1];
      if err.Some? {
        return;
      }
    }
    assert held[..|held|] == held;
  }

  /** Whether an event that comes before any is delivered is held, decides for delivery, or
      is a failure to retry. */
  method Screen(maxRetries: nat, baseDelay: int, pending: Option<Err>, e: Event, attempt: nat, holdOutput: bool,
                jitter: real)
    returns (verdict: Verdict)
    requires Fits(baseDelay) && 0.0 <= jitter < 1.0
    ensures verdict == Judge(maxRetries, pending, e, attempt, holdOutput)
  {
    match e.kind {
      case ErrorKind =>
        return Undecided(Some(e.failure));
      case FailedKind =>
        var _, ok := RetryDelay(maxRetries, baseDelay, e.failure, attempt, jitter);
        return if ok then Failed(e.failure) else Committed;
      case EndedKind(_) =>
        return Committed;
      case LifecycleKind =>
        return Undecided(pending);
      case OutputKind =>
        return if holdOutput then Undecided(pending) else Committed;
    }
  }

  /** One pass of `streamOnce` under the buffering callback. */
  method RunAttempt(maxRetries: nat, baseDelay: int, fn: Client, a: Attempt, attempt: nat, holdOutput: bool,
                    jitter: real)
    returns (end: AttemptEnd)
    requires Fits(baseDelay) && 0.0 <= jitter < 1.0
    ensures var v := Scan(maxRetries, a.events, attempt, holdOutput);
      && end.committed == v.Committed?
      && (v.Committed? ==>
            && end.delivered == Given(fn, a.events)
            && end.failure == if Refusal(fn, a.events).Some? then Refusal(fn, a.events) else a.ending)
      && (!v.Committed? ==> end.delivered == [] && end.failure == FailureOf(a, v))
      && (v.Failed? ==> end.held == a.events[..FirstShown(a.events, holdOutput)])
      && (v.Undecided? ==> end.held == a.events)
  {
    var held: seq<Event> := [];
    var delivered: seq<Event> := [];
    var pending: Option<Err> := None;
    var committed := attempt >= maxRetries;
    ghost var verdict := Scan(maxRetries, a.events, attempt, holdOutput);
    for i := 0 to |a.events|
      invariant committed ==> verdict == Committed && delivered == a.events[..i] && Refusal(fn, a.events[..i]) == None
      invariant !committed ==>
        attempt < maxRetries && Scan(maxRetries, a.events[..i], attempt, holdOutput) == Undecided(pending)
      invariant !committed ==> delivered == [] && held == a.events[..i]
    {
      var e := a.events[i];
      if !committed {
        NextScanned(maxRetries, a.events, i, attempt, holdOutput);
        var next := Screen(maxRetries, baseDelay, pending, e, attempt, holdOutput, jitter);
        match next {
          case Undecided(failure) =>
            pending := failure;
            held := held + [e];
            continue;
          case Failed(failure) =>
            FailedIsFirstShown(maxRetries, a.events, i, attempt, holdOutput);
            return AttemptEnd(false, held, Some(failure), []);
          case Committed =>
        }
        committed := true;
        var refusal;
        delivered, refusal := Commit(fn, held);
        if refusal.Some? {
          RefusalStands(fn, a.events, i);
          return AttemptEnd(true, held, refusal, delivered);
        }
      }
      NextGiven(fn, a.events, i);
      var refusal := fn(delivered, e);
      delivered := delivered + [e];
      if refusal.Some? {
        return AttemptEnd(true, held, refusal, delivered);
      }
    }
    assert a.events[..|a.events|] == a.events;
    end := AttemptEnd(committed, held, if a.ending.Some? || committed then a.ending else pending, delivered);
  }

  /** The environment of a run: attempt `k`, its jitter, and whether the caller has gone
      away when it ends or while the next one is awaited. */
  datatype World = World(
    upstream: nat -> Attempt,
    jitter: nat -> real,
    goneAfter: nat -> bool,
    goneWaiting: nat -> bool)

  ghost predicate ValidWorld(w: World) {
    forall k :: ValidAttempt(w.upstream(k)) && 0.0 <= w.jitter(k) < 1.0
  }

  /** The events an attempt shows its client: a failure it gives up on is not one of them. */
  predicate Shows(maxRetries: nat, a: Attempt, attempt: nat, holdOutput: bool, shown: seq<Event>) {
    if Scan(maxRetries, a.events, attempt, holdOutput).Failed? then
      shown == a.events[..FirstShown(a.events, holdOutput)]
    else shown == a.events
  }

  /** The client was given what the attempt shows, through its own first error if it has one. */
  ghost predicate Shown(maxRetries: nat, fn: Client, a: Attempt, attempt: nat, holdOutput: bool,
                        delivered: seq<Event>, err: Option<Err>)
  {
    var v := Scan(maxRetries, a.events, attempt, holdOutput);
    exists shown: seq<Event> ::
      && Shows(maxRetries, a, attempt, holdOutput, shown)
      && delivered == Given(fn, shown)
      && err == (if Refusal(fn, shown).Some? then Refusal(fn, shown)
                 else if v.Committed? then a.ending else FailureOf(a, v))
  }

  /** What a client was shown of an attempt begins it, has nothing after a finishing event, and is
      all of it with its terminal event when there was no error. */
  lemma ShownIsSound(maxRetries: nat, fn: Client, a: Attempt, attempt: nat, holdOutput: bool,
                     delivered: seq<Event>, err: Option<Err>)
    requires ValidAttempt(a) && Shown(maxRetries, fn, a, attempt, holdOutput, delivered, err)
    ensures delivered <= a.events && forall i :: 0 <= i < |delivered| - 1 ==> !Finishing(delivered[i])
    ensures err == None ==> delivered == a.events && exists e <- delivered :: Terminal(e)
  {
    if !Scan(maxRetries, a.events, attempt, holdOutput).Committed? {
      UncommittedFails(maxRetries, a, attempt, holdOutput);
    }
  }

  lemma CommittedIsShown(maxRetries: nat, fn: Client, a: Attempt, attempt: nat, holdOutput: bool)
    requires Scan(maxRetries, a.events, attempt, holdOutput).Committed?
    ensures Shown(maxRetries, fn, a, attempt, holdOutput, Given(fn, a.events),
                  if Refusal(fn, a.events).Some? then Refusal(fn, a.events) else a.ending)
  {
    assert Shows(maxRetries, a, attempt, holdOutput, a.events);
  }

  lemma FailedIsShown(maxRetries: nat, fn: Client, a: Attempt, attempt: nat, holdOutput: bool, held: seq<Event>)
    requires ValidAttempt(a) && !Scan(maxRetries, a.events, attempt, holdOutput).Committed?
    requires Shows(maxRetries, a, attempt, holdOutput, held)
    ensures Shown(maxRetries, fn, a, attempt, holdOutput, Given(fn, held),
                  if Refusal(fn, held).Some? then Refusal(fn, held)
                  else FailureOf(a, Scan(maxRetries, a.events, attempt, holdOutput)))
  {
  }

  /** Only the last attempt reaches the client. Every earlier one was abandoned; the last is
      not, unless the caller has gone. The client is given that attempt's events in order,
      through its own first error if it has one, and a run without an error has delivered
      a whole attempt with its terminal event. */
  method StreamWithRetries(maxRetries: nat, baseDelay: int, w: World, holdOutput: bool, fn: Client)
    returns (attempts: nat, delivered: seq<Event>, err: Option<Err>, waited: nat)
    requires Fits(baseDelay) && ValidWorld(w)
    ensures 1 <= attempts <= maxRetries + 1
    ensures waited <= maxRetries * 33 * SECOND
    ensures forall k :: 0 <= k < attempts - 1 ==> Abandoned(maxRetries, w.upstream(k), k, holdOutput)
    ensures delivered <= w.upstream(attempts - 1).events
    ensures forall i :: 0 <= i < |delivered| - 1 ==> !Finishing(delivered[i])
    ensures var last := attempts - 1;
      var a := w.upstream(last);
      if Abandoned(maxRetries, a, last, holdOutput) && !w.goneAfter(last) then
        w.goneWaiting(last) && delivered == [] && err == Some(Cancelled)
      else Shown(maxRetries, fn, a, last, holdOutput, delivered, err)
    ensures err == None ==>
      delivered == w.upstream(attempts - 1).events && exists e <- delivered :: Terminal(e)
  {
    hide Scan, Given, Refusal, FirstShown, Shown, ValidAttempt, Transient, Doubled, Finishing, Terminal;
    delivered, waited := [], 0;
    var attempt: nat := 0;
    while true
      invariant attempt <= maxRetries && delivered == []
      invariant waited <= attempt * (33 * SECOND)
      invariant forall k :: 0 <= k < attempt ==> Abandoned(maxRetries, w.upstream(k), k, holdOutput)
      decreases maxRetries - attempt
    {
      var a := w.upstream(attempt);
      attempts := attempt + 1;
      var end := RunAttempt(maxRetries, baseDelay, fn, a, attempt, holdOutput, w.jitter(attempt));
      delivered := delivered + end.delivered;
      assert delivered == end.delivered;
      if end.committed {
        CommittedIsShown(maxRetries, fn, a, attempt, holdOutput);
        ShownIsSound(maxRetries, fn, a, attempt, holdOutput, delivered, end.failure);
        return attempts, delivered, end.failure, waited;
      }
      UncommittedFails(maxRetries, a, attempt, holdOutput);
      var delay, ok := RetryDelay(maxRetries, baseDelay, end.failure.value, attempt, w.jitter(attempt));
      if !ok || w.goneAfter(attempt) {
        FailedIsShown(maxRetries, fn, a, attempt, holdOutput, end.held);
        var refusal;
        delivered, refusal := Commit(fn, end.held);
        err := if refusal.Some? then refusal else end.failure;
        ShownIsSound(maxRetries, fn, a, attempt, holdOutput, delivered, err);
        return;
      }
      waited := waited + if delay > 0 then delay else 0;
      if w.goneWaiting(attempt) {
        return attempts, delivered, Some(Cancelled), waited;
      }
      attempt := attempt + 1;
    }
  }

  lemma UncommittedFails(maxRetries: nat, a: Attempt, attempt: nat, holdOutput: bool)
    requires ValidAttempt(a) && !Scan(maxRetries, a.events, attempt, holdOutput).Committed?
    ensures FailureOf(a, Scan(maxRetries, a.events, attempt, holdOutput)).Some?
  {
    if Scan(maxRetries, a.events, attempt, holdOutput) == Undecided(None) {
      SilentEndsReport(maxRetries, a.events, attempt, holdOutput);
    }
  }

  // ------------------------------------------------------------------ what the client can rely on

  /** `read` agrees with the decoder on what each event is. */
  ghost predicate Agrees(decode: SseReader.Decoder, read: SseReader.Bytes -> Event) {
    forall b :: match decode(b)
      case ErrorEvent => read(b).kind == ErrorKind
      case FailedEvent => read(b).kind == FailedKind
      case EndedEvent => read(b).kind == EndedKind(true)
      case _ => !Terminal(read(b))
  }

  function AttemptFrom(read: SseReader.Bytes -> Event, p: SseReader.Parsed): Attempt {
    Attempt(seq(|p.events|, i requires 0 <= i < |p.events| => read(p.events[i])),
            match p.ending
            case Clean => None
            case SizeExceeded => Some(Opaque)
            case TimedOut => Some(Backend(504, "", None))
            case _ => Some(Backend(502, "", None)))
  }

  /** Whatever bytes the upstream sends, what the reader makes of them is a valid attempt. */
  lemma AttemptsAreValid(decode: SseReader.Decoder, read: SseReader.Bytes -> Event, input: SseReader.Bytes,
                         end: SseReader.End)
    requires Agrees(decode, read)
    ensures ValidAttempt(AttemptFrom(read, SseReader.Parse(decode, input, end, [], false)))
  {
    var p := SseReader.Parse(decode, input, end, [], false);
    var a := AttemptFrom(read, p);
    SseReader.AttemptsEndOnce(decode, input, end, [], false);
    assert forall b :: SseReader.Finishing(decode(b)) <==> Finishing(read(b));
    assert forall b :: SseReader.Terminal(decode(b)) <==> Terminal(read(b));
    if a.ending == None {
      var e :| e in p.events && SseReader.Terminal(decode(e));
      var i :| 0 <= i < |p.events| && p.events[i] == e;
      assert a.events[i] in a.events;
    }
  }

  /** A stream that stalls before it shows anything is not tried again; one that breaks or closes
      is. */
  lemma BrokenStreamsAreRetried(maxRetries: nat, read: SseReader.Bytes -> Event, p: SseReader.Parsed, attempt: nat,
                                holdOutput: bool)
    requires attempt < maxRetries && Quiet(AttemptFrom(read, p).events, holdOutput)
    ensures p.ending == SseReader.TimedOut || p.ending == SseReader.SizeExceeded ==>
      !Abandoned(maxRetries, AttemptFrom(read, p), attempt, holdOutput)
    ensures p.ending == SseReader.Closed || p.ending == SseReader.StreamFailed ==>
      Abandoned(maxRetries, AttemptFrom(read, p), attempt, holdOutput)
  {
    var a := AttemptFrom(read, p);
    if a.ending.Some? {
      QuietFailuresAreRetried(maxRetries, a, attempt, holdOutput, a.ending.value);
    }
  }

  /** What one call to Codex comes to: no stream at all, or bytes. */
  datatype Connection = NoStream(failure: Err) | Stream(input: SseReader.Bytes, end: SseReader.End)

  function AttemptOf(decode: SseReader.Decoder, read: SseReader.Bytes -> Event, c: Connection): Attempt {
    match c
    case NoStream(failure) => Attempt([], Some(failure))
    case Stream(input, end) => AttemptFrom(read, SseReader.Parse(decode, input, end, [], false))
  }

  /** The retry loop over whatever Codex sends: no client sees two attempts mixed, or anything
      after a finishing event, and no error means a whole attempt with its terminal event. */
  method StreamUpstream(maxRetries: nat, baseDelay: int, decode: SseReader.Decoder, read: SseReader.Bytes -> Event,
                        upstream: nat -> Connection, jitter: nat -> real,
                        goneAfter: nat -> bool, goneWaiting: nat -> bool,
                        holdOutput: bool, fn: Client)
    returns (attempts: nat, delivered: seq<Event>, err: Option<Err>, waited: nat)
    requires Fits(baseDelay) && Agrees(decode, read) && forall k :: 0.0 <= jitter(k) < 1.0
    ensures 1 <= attempts <= maxRetries + 1 && waited <= maxRetries * 33 * SECOND
    ensures forall k :: 0 <= k < attempts - 1 ==>
      Abandoned(maxRetries, AttemptOf(decode, read, upstream(k)), k, holdOutput)
    ensures delivered <= AttemptOf(decode, read, upstream(attempts - 1)).events
    ensures forall i :: 0 <= i < |delivered| - 1 ==> !Finishing(delivered[i])
    ensures err == None ==>
      delivered == AttemptOf(decode, read, upstream(attempts - 1)).events && exists e <- delivered :: Terminal(e)
  {
    var w := World((k: nat) => AttemptOf(decode, read, upstream(k)), jitter, goneAfter, goneWaiting);
    forall k: nat
      ensures ValidAttempt(w.upstream(k))
    {
      if upstream(k).Stream? {
        AttemptsAreValid(decode, read, upstream(k).input, upstream(k).end);
      }
    }
    attempts, delivered, err, waited := StreamWithRetries(maxRetries, baseDelay, w, holdOutput, fn);
    forall k | 0 <= k < attempts - 1
      ensures Abandoned(maxRetries, AttemptOf(decode, read, upstream(k)), k, holdOutput)
    {
      assert w.upstream(k) == AttemptOf(decode, read, upstream(k));
    }
  }
}
