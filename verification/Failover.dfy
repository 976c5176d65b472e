/** internal/app/backend.go, `doAuthenticatedWith` and `sendOnAccount`, with the acquiring
    loop of internal/app/accounts.go: how one request moves between accounts while others
    use the pool. Borrowing credentials, reloading them and the answers of Codex are
    arbitrary, and the other requests take any number of steps wherever the lock is free. */
module Failover {
  import opened Prelude
  import opened Scheduling
  import opened AccountPool
  import opened Cooldowns
  import opened OtherRequests

  // ------------------------------------------------------------------ replayed reasoning

  datatype InputItem = Reasoning(encrypted: string) | OtherInput(text: string)

  predicate Encrypted(item: InputItem) {
    item.Reasoning? && item.encrypted != ""
  }

  /** The fingerprint that stands for encrypted reasoning, taken to be injective. */
  function ReasoningKey(encrypted: string): string {
    "rs:" + encrypted
  }

  function ReasoningKeys(input: seq<InputItem>): seq<string> {
    if input == [] then []
    else ReasoningKeys(DropLast(input)) + if Encrypted(Last(input)) then [ReasoningKey(Last(input).encrypted)] else []
  }

  function Stripped(input: seq<InputItem>): seq<InputItem> {
    if input == [] then []
    else Stripped(DropLast(input)) + if Encrypted(Last(input)) then [] else [Last(input)]
  }

  function StickyKey(prefix: string, key: string): Option<string> {
    if key == "" then None else Some(prefix + key)
  }

  /** `hintsForPayload` */
  method HintsForPayload(input: seq<InputItem>, promptCacheKey: string) returns (hints: Hints)
    ensures hints == Hints(ReasoningKeys(input), StickyKey("ck:", promptCacheKey))
    ensures hints.stickyKey.Some? ==> hints.stickyKey.value !in hints.reasoningKeys
  {
    var keys := [];
    for i := 0 to |input|
      invariant keys == ReasoningKeys(input[..i])
      invariant forall k <- keys :: "rs:" <= k
    {
      PrefixUnfolds(input, i);
      if Encrypted(input[i]) {
        keys := keys + [ReasoningKey(input[i].encrypted)];
      }
    }
    assert input[..|input|] == input;
    var stickyKey := None;
    if promptCacheKey != "" {
      stickyKey := Some("ck:" + promptCacheKey);
      assert stickyKey.value[0] == 'c';
    }
    hints := Hints(keys, stickyKey);
  }

  /** `withoutEncryptedReasoning` */
  method WithoutEncryptedReasoning(input: seq<InputItem>) returns (kept: seq<InputItem>)
    ensures kept == Stripped(input)
  {
    kept := [];
    for i := 0 to |input|
      invariant kept == Stripped(input[..i])
    {
      PrefixUnfolds(input, i);
      if Encrypted(input[i]) {
        continue;
      }
      kept := kept + [input[i]];
    }
    assert input[..|input|] == input;
  }

  /** `at` tells where in `input` each kept item came from, in order; what is not there was
      encrypted reasoning. */
  ghost predicate Selects(input: seq<InputItem>, kept: seq<InputItem>, at: seq<nat>) {
    && |at| == |kept|
    && (forall j, k :: 0 <= j < k < |at| ==> at[j] < at[k])
    && (forall k :: 0 <= k < |at| ==> at[k] < |input| && kept[k] == input[at[k]])
    && (forall k :: 0 <= k < |at| ==> kept[k].Reasoning? ==> kept[k].encrypted == "")
    && (forall i :: 0 <= i < |input| && i !in at ==> input[i].Reasoning? && input[i].encrypted != "")
  }

  lemma SelectsOneMore(input: seq<InputItem>, item: InputItem, kept: seq<InputItem>, at: seq<nat>)
    requires Selects(input, kept, at)
    ensures Encrypted(item) ==> Selects(input + [item], kept, at)
    ensures !Encrypted(item) ==> Selects(input + [item], kept + [item], at + [|input|])
  {
    var all, more := input + [item], at + [|input|];
    forall i | 0 <= i < |all| && i !in (if Encrypted(item) then at else more)
      ensures all[i].Reasoning? && all[i].encrypted != ""
    {
      assert i < |input| ==> all[i] == input[i] && (i in at ==> i in more);
      assert more[|at|] == |input|;
    }
  }

  /** Everything but the encrypted reasoning is kept, in order. */
  lemma {:induction false} StrippingKeepsTheRest(input: seq<InputItem>) returns (at: seq<nat>)
    ensures Selects(input, Stripped(input), at)
  {
    if input == [] {
      at := [];
    } else {
      var before := DropLast(input);
      at := StrippingKeepsTheRest(before);
      SelectsOneMore(before, Last(input), Stripped(before), at);
      assert input == before + [Last(input)];
      if Encrypted(Last(input)) {
        assert Stripped(input) == Stripped(before);
      } else {
        at := at + [|before|];
      }
    }
  }

  /** The keys are those of the encrypted reasoning, in order. */
  lemma {:induction false} KeysNameTheReasoning(input: seq<InputItem>) returns (at: seq<nat>)
    ensures |at| == |ReasoningKeys(input)| && forall j, k :: 0 <= j < k < |at| ==> at[j] < at[k]
    ensures forall k :: 0 <= k < |at| ==>
      && at[k] < |input| && input[at[k]].Reasoning? && input[at[k]].encrypted != ""
      && ReasoningKeys(input)[k] == "rs:" + input[at[k]].encrypted
    ensures forall i :: 0 <= i < |input| && input[i].Reasoning? && input[i].encrypted != "" ==> i in at
  {
    at := [];
    if input != [] {
      var before := DropLast(input);
      var earlier := KeysNameTheReasoning(before);
      at := earlier;
      assert input == before + [Last(input)];
      if Encrypted(Last(input)) {
        at := earlier + [|before|];
        assert at[|earlier|] == |before| && forall i <- earlier :: i in at;
      }
    }
  }

  /** A stripped body names no reasoning; only a body without any is left as it is. */
  lemma {:induction false} StrippedBodiesNameNoReasoning(input: seq<InputItem>)
    ensures ReasoningKeys(Stripped(input)) == []
    ensures Stripped(input) == input <==> ReasoningKeys(input) == []
    ensures |Stripped(input)| + |ReasoningKeys(input)| == |input|
  {
    if input != [] {
      StrippedBodiesNameNoReasoning(DropLast(input));
      var before := Stripped(DropLast(input));
      assert input == DropLast(input) + [Last(input)];
      if Encrypted(Last(input)) {
        assert Stripped(input) == before;
      } else {
        assert Stripped(input) == before + [Last(input)] && DropLast(before + [Last(input)]) == before;
      }
    }
  }

  /** `rememberOutput`: in the table it leaves, reasoning that an account of the pool produced is
      at home there for the life of an affinity. */
  method RememberOutput(pool: Pool, me: nat, account: string, item: InputItem, now: nat)
    requires pool.AffinityAgrees() && pool.Decided()
    modifies pool`affinity, pool`history, pool`log
    ensures pool.AffinityAgrees() && pool.Decided()
    ensures !Encrypted(item) ==> pool.affinity == old(pool.affinity)
    ensures Encrypted(item) && account in pool.accounts ==> forall later: nat :: later - now <= AFFINITY_TTL ==>
      Hit(pool.affinity, pool.accounts.Keys, ReasoningKey(item.encrypted), later) == Some(account)
  {
    if Encrypted(item) {
      pool.Remember(ReasoningKey(item.encrypted), account, now, me);
    }
  }

  // ------------------------------------------------------------------ one request

  /** What the upstream answers to one send, as far as the failover reads it. */
  datatype Reply = Broken | Status(code: nat, rejectsReasoning: bool, limit: Limit)

  predicate Unauthorized(reply: Reply) {
    reply.Status? && reply.code == 401
  }

  /** The sends of one body: the replies to them, and whether the credentials were lost, which
      did not load again after a 401. */
  datatype Round = Round(body: seq<InputItem>, replies: seq<Reply>, lost: bool)

  /** What a round comes to. */
  datatype Answer = CredentialLost | Said(reply: Reply)

  /** One send; and a second one exactly after a 401 with credentials that load again. */
  predicate Complete(r: Round) {
    && 1 <= |r.replies| <= 2
    && (|r.replies| == 2 <==> Unauthorized(r.replies[0]) && !r.lost)
    && (r.lost ==> Unauthorized(r.replies[0]))
  }

  function AnswerTo(r: Round): Answer
    requires Complete(r)
  {
    if r.lost then CredentialLost else Said(Last(r.replies))
  }

  predicate RejectsReasoning(answer: Answer) {
    answer.Said? && answer.reply.Status? && answer.reply.code == 400 && answer.reply.rejectsReasoning
  }

  predicate Condemns(code: nat) {
    code == 401 || code == 429
  }

  /** How a try ends: with an answer the lease is kept for; with the next account, because this
      one refused or its credentials are no good, and then it rests; or with an error for the
      client. */
  datatype TryEnd = Keep(code: nat) | NextAccount(refusal: Option<nat>, rest: Option<int>) | GiveUp

  /** What the failover makes of an answer. */
  function Verdict(answer: Answer, resent: bool, now: nat): TryEnd {
    match answer
    case CredentialLost => if resent then GiveUp else NextAccount(None, Some(UNAUTHORIZED_COOLDOWN))
    case Said(Broken) => GiveUp
    case Said(Status(code, _, limit)) =>
      if !Condemns(code) then Keep(code)
      else NextAccount(Some(code), Some(if code == 401 then UNAUTHORIZED_COOLDOWN else Cooldown(limit, now)))
  }

  /** One account: the claim on it, the rounds of sends on it, and how that ended. Without a
      round its credentials could not be borrowed. */
  datatype Try = Try(claim: Decision, rounds: seq<Round>, end: TryEnd)

  datatype Outcome =
    | Answered(code: nat)
    | Refused(code: nat)
    | Unavailable(code: nat)
    | Aborted

  function Accounts(tries: seq<Try>): set<string> {
    set t | t in tries :: t.claim.account
  }

  // What the pool is told on one account.

  /** The claim, and once its credentials are borrowed that the cache key prefers it. */
  function Opening(d: Decision): seq<Step> {
    [Chose(d)] + match d.hints.stickyKey case Some(key) => [Remembered(d.request, key, d.account)] case None => []
  }

  /** That it rests, when the request moves on. */
  function Closing(d: Decision, end: TryEnd): seq<Step> {
    if end.NextAccount? && end.rest.Some? then [Rested(d.request, d.account, Capped(end.rest.value))] else []
  }

  function Log(tries: seq<Try>): seq<Step> {
    if tries == [] then []
    else Log(DropLast(tries)) + if Last(tries).rounds == [] then [Chose(Last(tries).claim)]
                                else Opening(Last(tries).claim) + Closing(Last(tries).claim, Last(tries).end)
  }

  /** The claim went to another account than the one whose reasoning the request replays. */
  predicate Away(d: Decision) {
    Missed(Home(d), d.account)
  }

  /** Reasoning stays home: it is only sent to the account of the first reasoning key that had
      a live affinity when the account was claimed, or while there was none; anywhere else the
      body comes without it. When such an account answers 400 because it cannot read the
      reasoning, then, and only then, the rest is sent to it once more. */
  ghost predicate StaysHome(claim: Decision, rounds: seq<Round>, input: seq<InputItem>) {
    && claim.hints.reasoningKeys == ReasoningKeys(input)
    && |rounds| <= 2 && (forall r <- rounds :: Complete(r))
    && (forall r <- rounds :: ReasoningKeys(r.body) != [] ==> !Away(claim))
    && (rounds != [] ==> Exchanged(rounds, Away(claim), input))
  }

  predicate Exchanged(rounds: seq<Round>, pinMissed: bool, input: seq<InputItem>) {
    && 1 <= |rounds| <= 2 && Complete(rounds[0])
    && rounds[0].body == (if pinMissed then Stripped(input) else input)
    && (|rounds| == 2 <==> !pinMissed && ReasoningKeys(input) != [] && RejectsReasoning(AnswerTo(rounds[0])))
    && (|rounds| == 2 ==> Complete(rounds[1]) && rounds[1].body == Stripped(input))
  }

  ghost predicate Fair(tries: seq<Try>, input: seq<InputItem>) {
    && (forall i, j :: 0 <= i < j < |tries| ==> tries[i].claim.account != tries[j].claim.account)
    && (forall t <- tries :: StaysHome(t.claim, t.rounds, input) && WellEnded(t))
  }

  /** An answer that condemns is never kept; the request moves on from an account exactly when
      its credentials failed, or were lost or refused after a send, and then the account rests. */
  ghost predicate WellEnded(t: Try) {
    && (t.end.Keep? ==> !Condemns(t.end.code))
    && (t.end.NextAccount? ==> (t.end.rest.Some? <==> t.rounds != []))
    && (t.end.NextAccount? && t.end.refusal.Some? ==> Condemns(t.end.refusal.value) && t.end.rest.Some?)
    && (t.end.NextAccount? && t.end.rest.Some? && t.end.refusal != Some(429) ==>
          t.end.rest.value == UNAUTHORIZED_COOLDOWN)
  }

  /** A try on which something was sent ends with what the failover makes of its last answer. */
  ghost predicate Judged(tries: seq<Try>) {
    forall t <- tries :: t.rounds != [] ==> JudgedTry(t)
  }

  ghost predicate JudgedTry(t: Try) {
    exists now: nat :: Follows(t, now)
  }

  predicate Follows(t: Try, now: nat) {
    && t.rounds != [] && Complete(Last(t.rounds))
    && t.end == Verdict(AnswerTo(Last(t.rounds)), |t.rounds| == 2, now)
  }

  /** Spelled out: a broken send ends the request, and so do credentials lost while sending
      again; lost before, they and a 401 or a 429 let the account rest, and the next one is asked;
      any other answer is the client's. */
  lemma VerdictsTell(t: Try, now: nat)
    requires Follows(t, now)
    ensures var answer, end := AnswerTo(Last(t.rounds)), t.end;
      && (end.GiveUp? <==> answer == Said(Broken) || (answer == CredentialLost && |t.rounds| == 2))
      && (end.Keep? <==> answer.Said? && answer.reply.Status? && answer.reply.code != 401 && answer.reply.code != 429)
      && (end.Keep? ==> end.code == answer.reply.code)
      && (end.NextAccount? ==>
            && end.refusal == (if answer.Said? then Some(answer.reply.code) else None)
            && end.rest == Some(if answer.Said? && answer.reply.code == 429 then Cooldown(answer.reply.limit, now)
                                else 10 * 60 * SECOND))
  {
  }

  /** Every claim was for these hints and barred from nothing but the accounts tried before it
      and those an operator had switched off. */
  ghost predicate Routed(tries: seq<Try>, me: nat, hints: Hints) {
    forall k :: 0 <= k < |tries| ==> Asked(tries[k].claim, me, hints, Accounts(tries[..k]))
  }

  predicate Asked(d: Decision, me: nat, hints: Hints, tried: set<string>) {
    d.request == me && d.hints == hints && d.excluded == tried
  }

  /** The request moved on from every account. */
  predicate Moved(tries: seq<Try>) {
    forall t <- tries :: t.end.NextAccount?
  }

  function LastRefusal(tries: seq<Try>): Option<nat> {
    if tries == [] then None
    else if Last(tries).end.NextAccount? && Last(tries).end.refusal.Some? then Last(tries).end.refusal
    else LastRefusal(DropLast(tries))
  }

  /** What the client gets is what the tries came to: the last one's answer or error after every
      other account was left, the last refusal, or that no account could be used. */
  ghost predicate Concludes(outcome: Outcome, tries: seq<Try>) {
    match outcome
    case Answered(code) => tries != [] && Last(tries).end == Keep(code) && Moved(DropLast(tries))
    case Aborted => tries != [] && Last(tries).end == GiveUp && Moved(DropLast(tries))
    case Refused(code) => Moved(tries) && LastRefusal(tries) == Some(code)
    case Unavailable(_) => Moved(tries) && LastRefusal(tries) == None
  }

  /** The pool did nothing for this request meanwhile. */
  twostate predicate Continues(pool: Pool, me: nat)
    reads pool`leases, pool`objects, pool`log
  {
    Grown(pool) && Of(pool.log, me) == old(Of(pool.log, me))
  }

  /** Nothing but this. */
  twostate predicate Did(pool: Pool, me: nat, steps: seq<Step>)
    reads pool`leases, pool`objects, pool`log
  {
    Grown(pool) && Of(pool.log, me) == old(Of(pool.log, me)) + steps
  }

  ghost predicate Idle(pool: Pool, me: nat)
    reads pool, pool.objects`inflight, pool.leases`released
  {
    pool.Valid() && me !in pool.pending && pool.Held(me) == {}
  }

  ghost predicate Holding(pool: Pool, me: nat, lease: AccountLease)
    reads pool, pool.objects`inflight, pool.leases`released
  {
    pool.Valid() && me !in pool.pending && pool.Held(me) == {lease} && lease in pool.leases
  }

  /** The others take steps while the request works on its account. */
  method Work(pool: Pool, me: nat, lease: AccountLease)
    requires Holding(pool, me, lease)
    modifies pool, pool.objects, pool.leases`released, pool.leases`pinMissed
    ensures Holding(pool, me, lease) && Continues(pool, me) && lease.pinMissed == old(lease.pinMissed)
  {
    assert lease in pool.Held(me);
    Others(pool, me);
    assert lease in pool.Held(me);
  }

  /** `sendOnAccount`: a 401 reloads the credentials and is tried once more. */
  method SendOnAccount(pool: Pool, me: nat, lease: AccountLease, input: seq<InputItem>)
    returns (answer: Answer, round: Round)
    requires Holding(pool, me, lease)
    modifies pool, pool.objects, pool.leases`released, pool.leases`pinMissed
    ensures Holding(pool, me, lease) && Continues(pool, me) && lease.pinMissed == old(lease.pinMissed)
    ensures Complete(round) && answer == AnswerTo(round)
    ensures round.body == if lease.pinMissed then Stripped(input) else input
  {
    hide Pool.Loads, Pool.AffinityAgrees, Pool.Decided, Of;
    var replies: seq<Reply>, attempt := [], 0;
    while true
      invariant Holding(pool, me, lease) && Continues(pool, me) && lease.pinMissed == old(lease.pinMissed)
      invariant 0 <= attempt == |replies| <= 1 && forall reply <- replies :: Unauthorized(reply)
      decreases 1 - attempt
    {
      var body := input;
      if lease.pinMissed {
        body := WithoutEncryptedReasoning(input);
      }
      Work(pool, me, lease);
      var reply: Reply := *;
      replies := replies + [reply];
      if !Unauthorized(reply) || attempt == 1 {
        return Said(reply), Round(body, replies, false);
      }
      var reloaded: bool := *;
      if !reloaded {
        return CredentialLost, Round(body, replies, true);
      }
      attempt := attempt + 1;
    }
  }

  method CoolDown(pool: Pool, me: nat, acct: PoolAccount, d: int) returns (now: nat)
    requires Idle(pool, me) && acct in pool.objects
    modifies pool, pool.objects, pool.leases`released, pool.leases`pinMissed
    ensures Idle(pool, me) && Did(pool, me, [Rested(me, acct.id, Capped(d))])
    ensures acct.coolUntil == now + Capped(d)
  {
    hide Pool.Loads, Pool.AffinityAgrees, Pool.Decided, Of;
    var disk: Disk := *;
    Others(pool, me);
    now := *;
    OneMoreStep(pool.log, Rested(me, acct.id, Capped(d)), me);
    pool.CoolDown(acct, d, now, disk, me);
  }

  method Release(pool: Pool, me: nat, lease: AccountLease)
    requires Holding(pool, me, lease)
    modifies pool, pool.objects, pool.leases`released, pool.leases`pinMissed
    ensures Idle(pool, me) && Continues(pool, me)
  {
    Work(pool, me, lease);
    pool.Release(lease);
    assert pool.Held(me) == {};
  }

  method Observe(pool: Pool, me: nat, lease: AccountLease)
    requires Holding(pool, me, lease)
    modifies pool, pool.objects, pool.leases`released, pool.leases`pinMissed
    ensures Holding(pool, me, lease) && Continues(pool, me) && lease.pinMissed == old(lease.pinMissed)
  {
    Work(pool, me, lease);
    var usage: Option<Usage> := *;
    if usage.Some? {
      pool.Observe(lease.acct, usage.value);
    }
  }

  lemma ExchangedBodies(rounds: seq<Round>, pinMissed: bool, input: seq<InputItem>)
    requires Exchanged(rounds, pinMissed, input)
    ensures forall r <- rounds :: Complete(r) && (ReasoningKeys(r.body) != [] ==> !pinMissed)
  {
    StrippedBodiesNameNoReasoning(input);
  }

  /** A round and what its answer says about the account. */
  method SendAndObserve(pool: Pool, me: nat, lease: AccountLease, input: seq<InputItem>)
    returns (answer: Answer, round: Round)
    requires Holding(pool, me, lease)
    modifies pool, pool.objects, pool.leases`released, pool.leases`pinMissed
    ensures Holding(pool, me, lease) && Continues(pool, me) && lease.pinMissed == old(lease.pinMissed)
    ensures Complete(round) && answer == AnswerTo(round)
    ensures round.body == if lease.pinMissed then Stripped(input) else input
  {
    answer, round := SendOnAccount(pool, me, lease, input);
    if answer.Said? && answer.reply.Status? {
      Observe(pool, me, lease);
    }
  }

  /** The first round and, when the account could not read the reasoning, the second. */
  method SendAndResend(pool: Pool, me: nat, lease: AccountLease, input: seq<InputItem>, hints: Hints)
    returns (answer: Answer, rounds: seq<Round>)
    requires Holding(pool, me, lease) && hints.reasoningKeys == ReasoningKeys(input)
    modifies pool, pool.objects, pool.leases`released, pool.leases`pinMissed
    ensures Holding(pool, me, lease) && Continues(pool, me)
    ensures Exchanged(rounds, old(lease.pinMissed), input) && answer == AnswerTo(Last(rounds))
  {
    hide Pool.Loads, Pool.AffinityAgrees, Pool.Decided, Of, ReasoningKeys, Stripped, Complete;
    var round;
    answer, round := SendAndObserve(pool, me, lease, input);
    rounds := [round];
    if answer.Said? && answer.reply.Status? && answer.reply.code == 400 && |hints.reasoningKeys| > 0 &&
      !lease.pinMissed && answer.reply.rejectsReasoning
    {
      lease.pinMissed := true;
      var again;
      answer, again := SendAndObserve(pool, me, lease, input);
      rounds := rounds + [again];
    }
  }

  /** The account rests from the moment after its lease was given back. */
  method ReleaseAndCool(pool: Pool, me: nat, lease: AccountLease, d: int)
    requires Holding(pool, me, lease)
    modifies pool, pool.objects, pool.leases`released, pool.leases`pinMissed
    ensures Idle(pool, me) && Did(pool, me, [Rested(me, lease.acct.id, Capped(d))])
  {
    Release(pool, me, lease);
    var _ := CoolDown(pool, me, lease.acct, d);
  }

  method CoolHeld(pool: Pool, me: nat, lease: AccountLease, d: int) returns (now: nat)
    requires Holding(pool, me, lease)
    modifies pool, pool.objects, pool.leases`released, pool.leases`pinMissed
    ensures Holding(pool, me, lease) && Did(pool, me, [Rested(me, lease.acct.id, Capped(d))])
    ensures lease.acct.coolUntil == now + Capped(d)
  {
    hide Pool.AffinityAgrees, Pool.Decided, Of;
    var disk: Disk := *;
    Work(pool, me, lease);
    now := *;
    OneMoreStep(pool.log, Rested(me, lease.acct.id, Capped(d)), me);
    pool.CoolDown(lease.acct, d, now, disk, me);
  }

  /** An account that refused rests. */
  method CoolAndRelease(pool: Pool, me: nat, lease: AccountLease, d: int)
    requires Holding(pool, me, lease)
    modifies pool, pool.objects, pool.leases`released, pool.leases`pinMissed
    ensures Idle(pool, me) && Did(pool, me, [Rested(me, lease.acct.id, Capped(d))])
  {
    var _ := CoolHeld(pool, me, lease, d);
    Release(pool, me, lease);
  }

  /** The lease is kept with the answer, or given back: with an error for the client, or
      because the answer condemns the account, which then rests. */
  method Judge(pool: Pool, me: nat, lease: AccountLease, answer: Answer, resent: bool, ghost claim: Decision)
    returns (end: TryEnd, ghost now: nat)
    requires Holding(pool, me, lease) && claim.request == me && claim.account == lease.acct.id
    modifies pool, pool.objects, pool.leases`released, pool.leases`pinMissed
    ensures end == Verdict(answer, resent, now) && Did(pool, me, Closing(claim, end))
    ensures if end.Keep? then Holding(pool, me, lease) else Idle(pool, me)
  {
    hide Of;
    now := 0;
    if answer.CredentialLost? && !resent {
      ReleaseAndCool(pool, me, lease, UNAUTHORIZED_COOLDOWN);
      return NextAccount(None, Some(UNAUTHORIZED_COOLDOWN)), now;
    }
    if answer.CredentialLost? || answer.reply.Broken? {
      Release(pool, me, lease);
      return GiveUp, now;
    }
    var at: nat := *;
    var d, _, condemned := CooldownForStatus(answer.reply.code, answer.reply.limit, at);
    if !condemned {
      return Keep(answer.reply.code), at;
    }
    CoolAndRelease(pool, me, lease, d);
    return NextAccount(Some(answer.reply.code), Some(d)), at;
  }

  /** One round of `doAuthenticatedWith`, on one account. */
  method TryAccount(pool: Pool, me: nat, lease: AccountLease, input: seq<InputItem>, hints: Hints,
                    ghost claim: Decision)
    returns (end: TryEnd, rounds: seq<Round>)
    requires Holding(pool, me, lease) && claim.request == me && claim.account == lease.acct.id
    requires hints.reasoningKeys == ReasoningKeys(input)
    modifies pool, pool.objects, pool.leases`released, pool.leases`pinMissed
    ensures Did(pool, me, Closing(claim, end)) && JudgedTry(Try(claim, rounds, end))
    ensures if end.Keep? then Holding(pool, me, lease) else Idle(pool, me)
    ensures Exchanged(rounds, old(lease.pinMissed), input)
  {
    hide Of, Verdict, ReasoningKeys, Stripped;
    var answer;
    ghost var now;
    answer, rounds := SendAndResend(pool, me, lease, input, hints);
    end, now := Judge(pool, me, lease, answer, |rounds| == 2, claim);
    assert Follows(Try(claim, rounds, end), now);
  }

  /** The credentials of the claimed account are borrowed outside the lock. */
  method Borrow(pool: Pool, me: nat, acct: PoolAccount, pinMissed: bool) returns (lease: AccountLease?)
    requires pool.Valid() && me in pool.pending && pool.pending[me] == acct && acct in pool.objects
      && pool.Held(me) == {}
    modifies pool, pool.objects, pool.leases`released, pool.leases`pinMissed
    ensures Continues(pool, me)
    ensures lease == null ==> Idle(pool, me)
    ensures lease != null ==>
      Holding(pool, me, lease) && fresh(lease) && lease.acct == acct && lease.pinMissed == pinMissed
  {
    hide Pool.Loads, Pool.AffinityAgrees, Pool.Decided, Of;
    Others(pool, me);
    var borrowed: bool := *;
    if !borrowed {
      pool.Unclaim(me, acct);
      return null;
    }
    lease := pool.Grant(me, pinMissed);
    assert pool.Held(me) == {lease};
  }

  /** One round of `acquire`. */
  method AcquireOnce(pool: Pool, me: nat, hints: Hints, exclude: set<string>, first: bool)
    returns (acct: PoolAccount?, lease: AccountLease?, ghost claim: Decision)
    requires Idle(pool, me)
    modifies pool, pool.objects, pool.leases`released, pool.leases`pinMissed
    ensures Grown(pool)
    ensures acct == null ==> lease == null && pool.accounts.Keys <= exclude + pool.disabled
    ensures acct != null ==> acct.id in pool.universe && acct.id !in exclude
    ensures Of(pool.log, me) == old(Of(pool.log, me)) + if acct != null then [Chose(claim)] else []
    ensures acct != null ==> claim.account == acct.id && Asked(claim, me, hints, exclude)
    ensures lease == null ==> Idle(pool, me)
    ensures lease != null ==>
      Holding(pool, me, lease) && fresh(lease) && lease.acct == acct && (lease.pinMissed <==> Away(claim))
  {
    var now: nat, disk: Disk := *, *;
    var pinMissed;
    ghost var order, at;
    disk := disk.(present := disk.present * pool.universe);
    acct, pinMissed, order, claim, at := pool.Claim(me, hints, exclude, first, now, disk, false);
    lease := null;
    if acct != null {
      OneMoreStep(old(pool.log), Chose(claim), me);
      lease := Borrow(pool, me, acct, pinMissed);
    }
  }

  /** A served cache key prefers its account from now on. */
  method Prefer(pool: Pool, me: nat, lease: AccountLease, stickyKey: Option<string>)
    requires Holding(pool, me, lease)
    modifies pool, pool.objects, pool.leases`released, pool.leases`pinMissed
    ensures Holding(pool, me, lease) && lease.pinMissed == old(lease.pinMissed)
    ensures Did(pool, me, match stickyKey case Some(key) => [Remembered(me, key, lease.acct.id)] case None => [])
  {
    hide Pool.Loads, Pool.Decided, Of;
    if stickyKey.Some? {
      var now: nat := *;
      Work(pool, me, lease);
      OneMoreStep(pool.log, Remembered(me, stickyKey.value, lease.acct.id), me);
      pool.Remember(stickyKey.value, lease.acct.id, now, me);
    }
  }

  /** The tries of a request so far, which moved on from all of them. */
  ghost predicate Story(tries: seq<Try>, me: nat, hints: Hints, input: seq<InputItem>) {
    Fair(tries, input) && Routed(tries, me, hints) && Moved(tries)
  }

  lemma NoTries(me: nat, hints: Hints, input: seq<InputItem>)
    ensures Story([], me, hints, input) && Accounts([]) == {} && Log([]) == [] && LastRefusal([]) == None
    ensures Judged([])
  {
  }

  lemma OneMoreRouted(tries: seq<Try>, t: Try, me: nat, hints: Hints)
    requires Routed(tries, me, hints) && Asked(t.claim, me, hints, Accounts(tries))
    ensures Routed(tries + [t], me, hints)
  {
    hide Accounts, Asked;
    var all := tries + [t];
    forall k | 0 <= k < |all|
      ensures Asked(all[k].claim, me, hints, Accounts(all[..k]))
    {
      if k < |tries| {
        assert all[..k] == tries[..k];
      } else {
        assert all[..k] == tries;
      }
    }
  }

  lemma OneMoreFair(tries: seq<Try>, t: Try, input: seq<InputItem>)
    requires Fair(tries, input) && t.claim.account !in Accounts(tries)
    requires StaysHome(t.claim, t.rounds, input) && WellEnded(t)
    ensures Fair(tries + [t], input)
  {
    OneMoreAccount(tries, t);
    hide Accounts, StaysHome, WellEnded;
    var all := tries + [t];
    forall x <- all
      ensures StaysHome(x.claim, x.rounds, input) && WellEnded(x)
    {
      assert x in tries || x == t;
    }
  }

  lemma OneMoreJudged(tries: seq<Try>, t: Try)
    requires Judged(tries) && (t.rounds != [] ==> JudgedTry(t))
    ensures Judged(tries + [t])
  {
    hide JudgedTry;
    assert forall x <- tries + [t] :: x in tries || x == t;
  }

  lemma BorrowsAreJudged(tries: seq<Try>, tried: seq<Try>)
    requires Judged(tries) && tries <= tried && forall k :: |tries| <= k < |tried| ==> tried[k].rounds == []
    ensures Judged(tried)
  {
    hide JudgedTry;
    forall t <- tried
      ensures t.rounds != [] ==> JudgedTry(t)
    {
      var k :| 0 <= k < |tried| && tried[k] == t;
      assert k < |tries| ==> tries[k] in tries && tries[k] == t;
    }
  }

  lemma OneMoreTry(tries: seq<Try>, t: Try, me: nat, hints: Hints, input: seq<InputItem>)
    requires Story(tries, me, hints, input)
    requires Asked(t.claim, me, hints, Accounts(tries)) && t.claim.account !in Accounts(tries)
    requires StaysHome(t.claim, t.rounds, input) && WellEnded(t)
    ensures Fair(tries + [t], input) && Routed(tries + [t], me, hints)
    ensures Accounts(tries + [t]) == Accounts(tries) + {t.claim.account}
    ensures t.end.NextAccount? ==> Story(tries + [t], me, hints, input)
    ensures LastRefusal(tries + [t])
         == if t.end.NextAccount? && t.end.refusal.Some? then t.end.refusal else LastRefusal(tries)
  {
    OneMoreAccount(tries, t);
    OneMoreRouted(tries, t, me, hints);
    OneMoreFair(tries, t, input);
    hide Fair, Routed, Accounts, StaysHome, WellEnded, Asked;
    assert DropLast(tries + [t]) == tries;
    assert forall x <- tries + [t] :: x in tries || x == t;
  }

  lemma OneMoreAccount(tries: seq<Try>, t: Try)
    ensures Accounts(tries + [t]) == Accounts(tries) + {t.claim.account}
    ensures t.claim.account !in Accounts(tries) ==> forall x <- tries :: x.claim.account != t.claim.account
  {
    assert t in tries + [t] && forall x <- tries :: x in tries + [t];
    if t.claim.account !in Accounts(tries) {
      forall x <- tries
        ensures x.claim.account != t.claim.account
      {
        assert x.claim.account in Accounts(tries);
      }
    }
  }

  lemma OneMoreLogged(before: seq<Step>, tries: seq<Try>, t: Try)
    ensures t.rounds == [] ==> before + Log(tries + [t]) == before + Log(tries) + [Chose(t.claim)]
    ensures t.rounds != [] ==>
      before + Log(tries + [t]) == before + Log(tries) + Opening(t.claim) + Closing(t.claim, t.end)
  {
    assert DropLast(tries + [t]) == tries;
  }

  /** `acquire`: an account whose credentials do not load is excluded and the next is asked.
      `before` is what the pool did for this request before its tries. */
  method Acquire(pool: Pool, me: nat, hints: Hints, exclude: set<string>, ghost before: seq<Step>,
                 ghost tries: seq<Try>, ghost input: seq<InputItem>)
    returns (lease: AccountLease?, excluded: set<string>, credentialsFailed: bool, ghost claim: Decision,
             ghost tried: seq<Try>)
    requires Idle(pool, me) && exclude <= pool.universe && Accounts(tries) == exclude
    requires Story(tries, me, hints, input)
    requires hints.reasoningKeys == ReasoningKeys(input) && Of(pool.log, me) == before + Log(tries)
    modifies pool, pool.objects, pool.leases`released, pool.leases`pinMissed
    ensures Grown(pool)
    ensures exclude <= excluded <= pool.universe && Accounts(tried) == excluded
    ensures Story(tried, me, hints, input) && LastRefusal(tried) == LastRefusal(tries)
    ensures if credentialsFailed then tried != [] else tried == tries
    ensures tries <= tried && forall k :: |tries| <= k < |tried| ==> tried[k].rounds == []
    ensures Of(pool.log, me) == before + Log(tried) + if lease != null then Opening(claim) else []
    ensures lease == null ==> Idle(pool, me) && pool.accounts.Keys <= excluded + pool.disabled
    ensures lease != null ==>
      && Holding(pool, me, lease) && fresh(lease) && lease.acct.id in pool.universe && lease.acct.id !in excluded
      && claim.account == lease.acct.id && Asked(claim, me, hints, excluded) && (lease.pinMissed <==> Away(claim))
  {
    hide Pool.Loads, Pool.AffinityAgrees, Pool.Decided, Of, FirstHit, Story, Log, Accounts, LastRefusal;
    excluded, tried, credentialsFailed := exclude, tries, false;
    while true
      invariant Idle(pool, me) && Grown(pool)
      invariant exclude <= excluded <= pool.universe && Accounts(tried) == excluded
      invariant Story(tried, me, hints, input) && LastRefusal(tried) == LastRefusal(tries)
      invariant if credentialsFailed then tried != [] else tried == tries
      invariant tries <= tried && forall k :: |tries| <= k < |tried| ==> tried[k].rounds == []
      invariant Of(pool.log, me) == before + Log(tried)
      decreases pool.universe - excluded
    {
      var acct;
      acct, lease, claim := AcquireOnce(pool, me, hints, excluded, !credentialsFailed);
      if acct == null {
        return;
      }
      if lease != null {
        Prefer(pool, me, lease, hints.stickyKey);
        return;
      }
      ghost var t := Try(claim, [], NextAccount(None, None));
      OneMoreTry(tried, t, me, hints, input);
      OneMoreLogged(before, tried, t);
      credentialsFailed, excluded, tried := true, excluded + {acct.id}, tried + [t];
    }
  }

  lemma StoryEnds(tries: seq<Try>, me: nat, hints: Hints, input: seq<InputItem>)
    requires Story(tries, me, hints, input)
    ensures Fair(tries, input) && Routed(tries, me, hints)
    ensures match LastRefusal(tries)
      case Some(code) => Concludes(Refused(code), tries)
      case None => forall code: nat :: Concludes(Unavailable(code), tries)
  {
  }

  lemma JudgedIsWellEnded(t: Try)
    requires JudgedTry(t)
    ensures WellEnded(t)
  {
    var now: nat :| Follows(t, now);
    VerdictsTell(t, now);
  }

  /** A round on a new account is one more try, and when it is the last one it says what the
      client gets. */
  lemma TryCounts(tries: seq<Try>, t: Try, me: nat, hints: Hints, input: seq<InputItem>)
    requires hints.reasoningKeys == ReasoningKeys(input) && Story(tries, me, hints, input) && Judged(tries)
    requires Asked(t.claim, me, hints, Accounts(tries)) && t.claim.account !in Accounts(tries)
    requires Exchanged(t.rounds, Away(t.claim), input) && JudgedTry(t)
    ensures Accounts(tries + [t]) == Accounts(tries) + {t.claim.account} && t.rounds != []
    ensures match t.end
      case Keep(code) => !Condemns(code) && Concludes(Answered(code), tries + [t])
      case GiveUp => Concludes(Aborted, tries + [t])
      case NextAccount(refusal, _) =>
        && Story(tries + [t], me, hints, input)
        && LastRefusal(tries + [t]) == (if refusal.Some? then refusal else LastRefusal(tries))
        && (refusal.Some? ==> Condemns(refusal.value))
    ensures Fair(tries + [t], input) && Routed(tries + [t], me, hints) && Judged(tries + [t])
  {
    ExchangedBodies(t.rounds, Away(t.claim), input);
    JudgedIsWellEnded(t);
    OneMoreTry(tries, t, me, hints, input);
    OneMoreJudged(tries, t);
    assert DropLast(tries + [t]) == tries;
  }

  /** `doAuthenticatedWith`: it ends, having tried each account at most once, sending again there
      exactly after a 401 and when the account rejects the reasoning. Its tries are its log: each
      claim is the scheduler's choice among all accounts but those tried before and those switched
      off, each borrowed account is preferred for the cache key, and each account that is left
      after a send rests. What the client gets is what the tries came to; a refusal, or having no
      account, is only reported when every account in the pool is disabled or was tried; 503 only
      when none could be. The request is left with no lease but the one its answer is read under. */
  method DoAuthenticated(pool: Pool, me: nat, input: seq<InputItem>, promptCacheKey: string)
    returns (outcome: Outcome, lease: AccountLease?, ghost tries: seq<Try>)
    requires Idle(pool, me)
    modifies pool, pool.objects, pool.leases`released, pool.leases`pinMissed
    ensures Grown(pool) && Fair(tries, input) && Judged(tries)
    ensures Routed(tries, me, Hints(ReasoningKeys(input), StickyKey("ck:", promptCacheKey)))
    ensures Of(pool.log, me) == old(Of(pool.log, me)) + Log(tries)
    ensures Concludes(outcome, tries)
    ensures outcome.Answered? <==> lease != null
    ensures if lease != null then Holding(pool, me, lease) && fresh(lease) && !Condemns(outcome.code)
      else Idle(pool, me)
    ensures outcome.Refused? ==> Condemns(outcome.code)
    ensures outcome.Refused? || outcome.Unavailable? ==> pool.accounts.Keys <= Accounts(tries) + pool.disabled
    ensures outcome.Unavailable? ==> outcome.code == if tries == [] && pool.accounts != map[] then 503 else 401
  {
    hide Pool.Loads, Pool.AffinityAgrees, Pool.Decided, Of, FirstHit, Away, Log, Accounts, Story, LastRefusal, Fair,
      Routed, Opening, Closing, Exchanged, Concludes, Judged, JudgedTry, ReasoningKeys;
    var hints := HintsForPayload(input, promptCacheKey);
    NoTries(me, hints, input);
    var exclude: set<string> := {};
    var refused: Option<nat> := None;
    var credentialLost := false;
    ghost var before := Of(pool.log, me);
    tries := [];
    while true
      invariant Idle(pool, me) && Grown(pool)
      invariant exclude <= pool.universe && Accounts(tries) == exclude && Story(tries, me, hints, input)
      invariant Judged(tries) && Of(pool.log, me) == before + Log(tries)
      invariant refused == LastRefusal(tries) && (refused.Some? ==> Condemns(refused.value))
      invariant refused.None? && !credentialLost <==> tries == []
      decreases pool.universe - exclude
    {
      var credentialsFailed;
      ghost var claim, tried;
      lease, exclude, credentialsFailed, claim, tried := Acquire(pool, me, hints, exclude, before, tries, input);
      BorrowsAreJudged(tries, tried);
      tries := tried;
      if lease == null {
        StoryEnds(tries, me, hints, input);
        if refused.Some? {
          return Refused(refused.value), null, tries;
        }
        var refusal := if credentialLost || credentialsFailed || pool.accounts == map[] then 401 else 503;
        return Unavailable(refusal), null, tries;
      }
      var account := lease.acct.id;
      var end, rounds := TryAccount(pool, me, lease, input, hints, claim);
      ghost var t := Try(claim, rounds, end);
      TryCounts(tries, t, me, hints, input);
      OneMoreLogged(before, tries, t);
      tries := tries + [t];
      match end {
        case Keep(code) =>
          return Answered(code), lease, tries;
        case GiveUp =>
          return Aborted, null, tries;
        case NextAccount(refusal, _) =>
          exclude := exclude + {account};
          if refusal.Some? {
            refused := refusal;
          } else {
            credentialLost := true;
          }
      }
    }
  }

  /** A streamed request from its first account to closing the body: whatever happens, and
      whatever the others do meanwhile, its share of every load is given back. */
  method StreamRequest(pool: Pool, me: nat, input: seq<InputItem>, promptCacheKey: string) returns (outcome: Outcome)
    requires Idle(pool, me)
    modifies pool, pool.objects, pool.leases`released, pool.leases`pinMissed
    ensures Idle(pool, me) && Grown(pool)
  {
    var lease;
    ghost var tries;
    outcome, lease, tries := DoAuthenticated(pool, me, input, promptCacheKey);
    if lease != null {
      Release(pool, me, lease);
    }
  }
}
