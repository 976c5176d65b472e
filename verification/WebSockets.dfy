/** internal/app/websocket.go and the request slots of internal/app/server.go: what a
    WebSocket handler takes and gives back, and how the server shuts the handlers down. Each
    method of `Server` is one atomic step; a handler is a number, and `holders` is bookkeeping
    of the model: the handlers and requests that were let in. Dials, handshakes and the relays
    between the sockets end in any way. */
module WebSockets {
  import opened Prelude
  import opened AccountPool
  import opened Cooldowns
  import opened OtherRequests
  import opened Failover

  /** The two cancel functions of a tracked socket, once called. */
  datatype Lifecycle = Lifecycle(stopped: bool, aborted: bool)

  class Server {
    const slots: Option<nat>
    var occupied: nat
    var wsClosing: bool
    var wsCancels: map<nat, Lifecycle>
    var wsWG: int
    var holders: set<nat>

    /** The wait group counts the tracked sockets, the slots the requests that were let in, and
        a closing server has told every tracked socket. */
    ghost predicate Valid()
      reads this
    {
      && wsWG == |wsCancels|
      && occupied == (if slots.Some? then |holders| else 0)
      && (slots.Some? ==> occupied <= slots.value)
      && (wsClosing ==> forall h <- wsCancels :: wsCancels[h].stopped || wsCancels[h].aborted)
    }

    constructor (slots: Option<nat>)
      ensures Valid() && this.slots == slots && !wsClosing && wsCancels == map[] && holders == {}
    {
      this.slots, occupied, wsClosing, wsCancels, wsWG, holders := slots, 0, false, map[], 0, {};
    }

    /** `acquireRequest`: a full server refuses at once, and so does a limited one when the
        request is already over. */
    method AcquireRequest(me: nat, over: bool) returns (ok: bool)
      requires Valid() && me !in holders
      modifies this`occupied, this`holders
      ensures Valid() && holders == old(holders) + if ok then {me} else {}
      ensures !ok <==> slots.Some? && (over || old(occupied) == slots.value)
    {
      if slots.Some? {
        if over || occupied == slots.value {
          return false;
        }
        occupied := occupied + 1;
      }
      holders := holders + {me};
      ok := true;
    }

    /** `release` */
    method Release(me: nat)
      requires Valid() && me in holders
      modifies this`occupied, this`holders
      ensures Valid() && holders == old(holders) - {me}
    {
      holders := holders - {me};
      if slots.Some? {
        occupied := occupied - 1;
      }
    }

    /** `trackWebSocket`: nothing is added once the server is closing. */
    method Track(me: nat) returns (ok: bool)
      requires Valid() && me !in wsCancels
      modifies this`wsCancels, this`wsWG
      ensures Valid() && ok == !wsClosing
      ensures wsCancels == if ok then old(wsCancels)[me := Lifecycle(false, false)] else old(wsCancels)
    {
      if wsClosing {
        return false;
      }
      wsWG := wsWG + 1;
      wsCancels := wsCancels[me := Lifecycle(false, false)];
      ok := true;
    }

    /** `untrackWebSocket` */
    method Untrack(me: nat)
      requires Valid() && me in wsCancels
      modifies this`wsCancels, this`wsWG
      ensures Valid() && wsCancels == old(wsCancels) - {me}
    {
      assert wsCancels == (wsCancels - {me})[me := wsCancels[me]];
      wsCancels := wsCancels - {me};
      wsWG := wsWG - 1;
    }

    /** The first locked section of `closeWebSocketsContext`: every tracked socket is told to stop. */
    method BeginClose()
      requires Valid()
      modifies this`wsClosing, this`wsCancels
      ensures Valid() && wsClosing && wsCancels.Keys == old(wsCancels).Keys
      ensures forall h <- wsCancels :: wsCancels[h] == old(wsCancels)[h].(stopped := true)
    {
      wsClosing := true;
      wsCancels := map h | h in wsCancels :: wsCancels[h].(stopped := true);
      assert wsCancels.Keys == old(wsCancels).Keys;
      SameSize(wsCancels, old(wsCancels));
    }

    /** `abortWebSockets` */
    method Abort()
      requires Valid()
      modifies this`wsClosing, this`wsCancels
      ensures Valid() && wsClosing && wsCancels.Keys == old(wsCancels).Keys
      ensures forall h <- wsCancels :: wsCancels[h] == old(wsCancels)[h].(aborted := true)
    {
      wsClosing := true;
      wsCancels := map h | h in wsCancels :: wsCancels[h].(aborted := true);
      assert wsCancels.Keys == old(wsCancels).Keys;
      SameSize(wsCancels, old(wsCancels));
    }
  }

  lemma SameSize(a: map<nat, Lifecycle>, b: map<nat, Lifecycle>)
    requires a.Keys == b.Keys
    ensures |a| == |b|
  {
    assert |a.Keys| == |a| && |b.Keys| == |b|;
  }

  // ------------------------------------------------------------------ the other handlers

  /** Closing is for good, and from then on sockets only go. */
  twostate predicate StaysClosed(server: Server)
    reads server
  {
    old(server.wsClosing) ==> server.wsClosing && server.wsCancels.Keys <= old(server.wsCancels.Keys)
  }

  /** What the others leave alone: whether `me` was let in and whether its socket is tracked. */
  twostate predicate Spares(server: Server, me: nat)
    reads server
  {
    && StaysClosed(server)
    && (me in server.holders <==> me in old(server.holders))
    && (me in server.wsCancels <==> me in old(server.wsCancels))
  }

  method OtherHandlerStep(server: Server, me: nat)
    requires server.Valid()
    modifies server
    ensures server.Valid() && Spares(server, me)
  {
    var kind: nat, other: nat := *, *;
    if kind == 0 {
      server.BeginClose();
    } else if kind == 1 {
      server.Abort();
    } else if other == me {
    } else if kind == 2 && other in server.wsCancels {
      server.Untrack(other);
    } else if kind == 3 && other !in server.wsCancels {
      var _ := server.Track(other);
    } else if other in server.holders {
      server.Release(other);
    } else {
      var over: bool := *;
      var _ := server.AcquireRequest(other, over);
    }
  }

  /** Any number of steps of other handlers, other requests and the shutdown. */
  method OtherHandlers(server: Server, me: nat)
    requires server.Valid()
    modifies server
    ensures server.Valid() && Spares(server, me)
  {
    var steps: int := *;
    while steps > 0
      invariant server.Valid() && Spares(server, me)
    {
      OtherHandlerStep(server, me);
      steps := steps - 1;
    }
  }

  // ------------------------------------------------------------------ one handler

  const SWITCHING_PROTOCOLS: nat := 101

  /** How a dial ends: connected; with the account's refusal, which a 401, a 429 and lost
      credentials are, and after which it rests; or failed. */
  ghost predicate Dialled(round: Round, end: TryEnd) {
    && Complete(round) && round.body == []
    && match AnswerTo(round)
       case CredentialLost => end == NextAccount(Some(401), Some(UNAUTHORIZED_COOLDOWN))
       case Said(Broken) => end == GiveUp
       case Said(Status(code, _, limit)) =>
         if code == SWITCHING_PROTOCOLS then end == Keep(code)
         else if code == 401 then end == NextAccount(Some(401), Some(UNAUTHORIZED_COOLDOWN))
         else if code == 429 then exists now: nat :: Limited(end, limit, now)
         else end == GiveUp
  }

  predicate Limited(end: TryEnd, limit: Limit, now: nat) {
    end == NextAccount(Some(429), Some(Cooldown(limit, now)))
  }

  lemma IsDialled(round: Round, end: TryEnd, reply: Reply, now: nat)
    requires Complete(round) && round.body == [] && AnswerTo(round) == Said(reply)
    requires reply.Status? && reply.code != SWITCHING_PROTOCOLS
    requires if reply.code == 429 then Limited(end, reply.limit, now)
      else end == if reply.code == 401 then NextAccount(Some(401), Some(UNAUTHORIZED_COOLDOWN)) else GiveUp
    ensures Dialled(round, end)
  {
  }

  /** `dialOnAccount`: a 401 reloads the credentials and dials once more; 401 and 429 are the
      account's refusal, anything else fails the request. A handshake carries no input; one that
      succeeds answers 101. */
  method DialOnAccount(pool: Pool, me: nat, lease: AccountLease) returns (end: TryEnd, ghost round: Round)
    requires Holding(pool, me, lease)
    modifies pool, pool.objects, pool.leases`released, pool.leases`pinMissed
    ensures Holding(pool, me, lease) && Continues(pool, me) && Dialled(round, end)
  {
    hide Pool.Loads, Pool.AffinityAgrees, Pool.Decided, Of;
    ghost var replies: seq<Reply> := [];
    var attempt := 0;
    while true
      invariant Holding(pool, me, lease) && Continues(pool, me)
      invariant 0 <= attempt == |replies| <= 1 && forall reply <- replies :: Unauthorized(reply)
      decreases 1 - attempt
    {
      Work(pool, me, lease);
      var reply: Reply := *;
      replies := replies + [reply];
      round := Round([], replies, false);
      if !reply.Status? {
        return GiveUp, round;
      }
      if reply.code == SWITCHING_PROTOCOLS {
        return Keep(reply.code), round;
      }
      Observe(pool, me, lease);
      if reply.code == 401 && attempt == 0 {
        var reloaded: bool := *;
        if !reloaded {
          return NextAccount(Some(401), Some(UNAUTHORIZED_COOLDOWN)), Round([], replies, true);
        }
        attempt := attempt + 1;
        continue;
      }
      var now: nat := *;
      var d, _, condemned := CooldownForStatus(reply.code, reply.limit, now);
      end := if condemned then NextAccount(Some(reply.code), Some(d)) else GiveUp;
      IsDialled(round, end, reply, now);
      return;
    }
  }

  /** One round of `dialWebSocket`: the lease is only kept for a connection, and an account that
      refuses rests. */
  method DialAndSettle(pool: Pool, me: nat, lease: AccountLease, ghost claim: Decision)
    returns (end: TryEnd, ghost round: Round)
    requires Holding(pool, me, lease) && claim.request == me && claim.account == lease.acct.id
    modifies pool, pool.objects, pool.leases`released, pool.leases`pinMissed
    ensures Did(pool, me, Closing(claim, end)) && Dialled(round, end)
    ensures if end.Keep? then Holding(pool, me, lease) else Idle(pool, me)
  {
    hide Pool.Loads, Pool.AffinityAgrees, Pool.Decided, Of;
    end, round := DialOnAccount(pool, me, lease);
    if end.GiveUp? {
      Failover.Release(pool, me, lease);
    } else if end.NextAccount? {
      ReleaseAndCool(pool, me, lease, end.rest.value);
    }
  }

  /** Each borrowed account was dialled, which is at most two handshakes. */
  ghost predicate AllDialled(tries: seq<Try>) {
    forall t <- tries :: t.rounds != [] ==> DialledTry(t)
  }

  ghost predicate DialledTry(t: Try) {
    |t.rounds| == 1 && Dialled(t.rounds[0], t.end)
  }

  /** One more account was dialled. */
  lemma DialCounts(tries: seq<Try>, t: Try, me: nat, hints: Hints)
    requires Story(tries, me, hints, []) && AllDialled(tries) && hints.reasoningKeys == []
    requires Asked(t.claim, me, hints, Accounts(tries)) && t.claim.account !in Accounts(tries)
    requires |t.rounds| == 1 && Dialled(t.rounds[0], t.end)
    ensures Fair(tries + [t], []) && Routed(tries + [t], me, hints) && AllDialled(tries + [t])
    ensures Accounts(tries + [t]) == Accounts(tries) + {t.claim.account}
    ensures match t.end
      case Keep(code) => Concludes(Answered(code), tries + [t])
      case GiveUp => Concludes(Aborted, tries + [t])
      case NextAccount(refusal, _) =>
        && Story(tries + [t], me, hints, []) && LastRefusal(tries + [t]) == refusal
        && refusal.Some? && Condemns(refusal.value)
  {
    assert Stripped([]) == [] && ReasoningKeys([]) == [];
    DialledIsWellEnded(t);
    OneMoreTry(tries, t, me, hints, []);
    OneMoreDialled(tries, t);
    assert DropLast(tries + [t]) == tries;
  }

  lemma DialledIsWellEnded(t: Try)
    requires DialledTry(t)
    ensures WellEnded(t) && (t.end.NextAccount? ==> t.end.refusal.Some?)
  {
  }

  lemma OneMoreDialled(tries: seq<Try>, t: Try)
    requires AllDialled(tries) && DialledTry(t)
    ensures AllDialled(tries + [t])
  {
    hide DialledTry;
    assert forall x <- tries + [t] :: x in tries || x == t;
  }

  /** `dialWebSocket`: it ends, with each account claimed at most once and dialled at most twice,
      each time the scheduler's choice among the accounts not tried and not switched off, and
      holds a lease exactly when it connected. A refusal, or having no account, is only reported
      when every account in the pool is disabled or was tried. */
  method DialWebSocket(pool: Pool, me: nat, sessionId: string)
    returns (outcome: Outcome, lease: AccountLease?, ghost tries: seq<Try>)
    requires Idle(pool, me)
    modifies pool, pool.objects, pool.leases`released, pool.leases`pinMissed
    ensures Grown(pool) && Fair(tries, []) && AllDialled(tries)
    ensures Routed(tries, me, Hints([], StickyKey("ws:", sessionId)))
    ensures Of(pool.log, me) == old(Of(pool.log, me)) + Log(tries)
    ensures Concludes(outcome, tries)
    ensures outcome.Answered? <==> lease != null
    ensures if lease == null then Idle(pool, me) else Holding(pool, me, lease) && fresh(lease)
    ensures outcome.Refused? ==> Condemns(outcome.code)
    ensures outcome.Refused? || outcome.Unavailable? ==> pool.accounts.Keys <= Accounts(tries) + pool.disabled
    ensures outcome.Unavailable? ==> outcome.code == if tries == [] && pool.accounts != map[] then 503 else 401
  {
    hide Pool.Loads, Pool.AffinityAgrees, Pool.Decided, Of, FirstHit, Away, Log, Accounts, Story, LastRefusal, Fair,
      Routed, Opening, Closing, Concludes, AllDialled, DialledTry, Dialled;
    var hints := Hints([], StickyKey("ws:", sessionId));
    NoTries(me, hints, []);
    NoDials();
    var exclude: set<string> := {};
    var refused: Option<nat> := None;
    ghost var before := Of(pool.log, me);
    tries := [];
    while true
      invariant Idle(pool, me) && Grown(pool)
      invariant exclude <= pool.universe && Accounts(tries) == exclude && Story(tries, me, hints, [])
      invariant AllDialled(tries) && Of(pool.log, me) == before + Log(tries)
      invariant refused == LastRefusal(tries) && (refused.Some? ==> Condemns(refused.value))
      invariant refused.None? <==> tries == []
      decreases pool.universe - exclude
    {
      ghost var claim, round, tried;
      var credentialsFailed;
      lease, exclude, credentialsFailed, claim, tried := Acquire(pool, me, hints, exclude, before, tries, []);
      BorrowsAreNoDials(tries, tried);
      tries := tried;
      if lease == null {
        StoryEnds(tries, me, hints, []);
        if refused.Some? {
          return Refused(refused.value), null, tries;
        }
        var refusal := if credentialsFailed || pool.accounts == map[] then 401 else 503;
        return Unavailable(refusal), null, tries;
      }
      var account := lease.acct.id;
      var end;
      end, round := DialAndSettle(pool, me, lease, claim);
      ghost var t := Try(claim, [round], end);
      DialCounts(tries, t, me, hints);
      OneMoreLogged(before, tries, t);
      tries := tries + [t];
      match end {
        case Keep(code) =>
          return Answered(code), lease, tries;
        case GiveUp =>
          return Aborted, null, tries;
        case NextAccount(refusal, _) =>
          exclude, refused := exclude + {account}, refusal;
      }
    }
  }

  lemma NoDials()
    ensures AllDialled([])
  {
  }

  lemma BorrowsAreNoDials(tries: seq<Try>, tried: seq<Try>)
    requires AllDialled(tries) && tries <= tried
    requires forall k :: |tries| <= k < |tried| ==> tried[k].rounds == []
    ensures AllDialled(tried)
  {
    hide DialledTry;
    forall t <- tried
      ensures t.rounds != [] ==> DialledTry(t)
    {
      var k :| 0 <= k < |tried| && tried[k] == t;
      assert k < |tries| ==> tries[k] in tries && tries[k] == t;
    }
  }

  /** The deferred releases, in the order they run. */
  method GiveBack(server: Server, pool: Pool, me: nat, lease: AccountLease)
    requires server.Valid() && me in server.holders && Holding(pool, me, lease)
    modifies server, pool, pool.objects, pool.leases`released, pool.leases`pinMissed
    ensures server.Valid() && StaysClosed(server) && me !in server.holders
    ensures me in server.wsCancels <==> me in old(server.wsCancels)
    ensures Idle(pool, me) && Grown(pool)
  {
    hide Pool.Loads, Pool.AffinityAgrees, Pool.Decided, Of;
    Failover.Release(pool, me, lease);
    OtherHandlers(server, me);
    server.Release(me);
  }

  /** The relays run until one of them ends or the handler is told to stop. */
  method Relay(server: Server, pool: Pool, me: nat, lease: AccountLease)
    requires server.Valid() && me in server.holders && me in server.wsCancels && Holding(pool, me, lease)
    modifies server, pool, pool.objects, pool.leases`released, pool.leases`pinMissed
    ensures server.Valid() && StaysClosed(server) && me in server.holders && me !in server.wsCancels
    ensures Holding(pool, me, lease) && Grown(pool)
  {
    hide Pool.Loads, Pool.AffinityAgrees, Pool.Decided, Of;
    OtherHandlers(server, me);
    Work(pool, me, lease);
    server.Untrack(me);
  }

  /** From the connection to Codex to the end of the handler. */
  method Serve(server: Server, pool: Pool, me: nat, lease: AccountLease)
    requires server.Valid() && me in server.holders && me !in server.wsCancels && Holding(pool, me, lease)
    modifies server, pool, pool.objects, pool.leases`released, pool.leases`pinMissed
    ensures server.Valid() && me !in server.holders && me !in server.wsCancels && StaysClosed(server)
    ensures Idle(pool, me) && Grown(pool)
  {
    hide Pool.Loads, Pool.AffinityAgrees, Pool.Decided, Of;
    var accepted: bool := *;
    OtherHandlers(server, me);
    if accepted {
      var tracked := server.Track(me);
      if tracked {
        Relay(server, pool, me, lease);
      }
    }
    GiveBack(server, pool, me, lease);
  }

  /** What a handler that was let in does. */
  method DialAndServe(server: Server, pool: Pool, me: nat, sessionId: string)
    requires server.Valid() && me in server.holders && me !in server.wsCancels && Idle(pool, me)
    modifies server, pool, pool.objects, pool.leases`released, pool.leases`pinMissed
    ensures server.Valid() && me !in server.holders && me !in server.wsCancels && StaysClosed(server)
    ensures Idle(pool, me) && Grown(pool)
  {
    hide Pool.Loads, Pool.AffinityAgrees, Pool.Decided, Of, Log, Fair, Routed, Concludes, AllDialled, Accounts;
    var outcome, lease;
    ghost var tries;
    outcome, lease, tries := DialWebSocket(pool, me, sessionId);
    OtherHandlers(server, me);
    if lease == null {
      server.Release(me);
    } else {
      Serve(server, pool, me, lease);
    }
  }

  /** `websocketResponse`: on every path the slot and the lease are given back exactly once,
      the socket is no longer tracked, and a closing server was never added to. */
  method WebsocketResponse(server: Server, pool: Pool, me: nat, sessionId: string)
    requires server.Valid() && me !in server.holders && me !in server.wsCancels && Idle(pool, me)
    modifies server, pool, pool.objects, pool.leases`released, pool.leases`pinMissed
    ensures server.Valid() && me !in server.holders && me !in server.wsCancels && StaysClosed(server)
    ensures Idle(pool, me) && Grown(pool)
  {
    if server.wsClosing {
      return;
    }
    OtherHandlers(server, me);
    var over: bool := *;
    var admitted := server.AcquireRequest(me, over);
    if admitted {
      OtherHandlers(server, me);
      DialAndServe(server, pool, me, sessionId);
    }
  }

  /** `closeWebSocketsContext`, while the handlers go on: without an error every socket is
      gone, and stays gone; with one, whatever is left was told to abort. The caller is no
      handler itself. */
  method CloseWebSocketsContext(server: Server, me: nat) returns (ok: bool)
    requires server.Valid() && me !in server.wsCancels && me !in server.holders
    modifies server
    ensures server.Valid() && server.wsClosing && StaysClosed(server)
    ensures ok ==> server.wsCancels == map[]
    ensures !ok ==> forall h <- server.wsCancels :: server.wsCancels[h].aborted
  {
    server.BeginClose();
    OtherHandlers(server, me);
    var timeout: bool := *;
    if server.wsWG == 0 && !timeout {
      return true;
    }
    OtherHandlers(server, me);
    server.Abort();
    ok := false;
  }
}
