/** internal/app/accounts.go: what other requests and operators may do to the pool between
    two locked sections of one request. Any number of any of their steps, in any order,
    with any data: whatever a method of this module promises, every interleaving keeps. */
module OtherRequests {
  import opened Prelude
  import opened Scheduling
  import opened AccountPool

  /** Objects and leases are never forgotten, and the others are new. */
  twostate predicate Grown(pool: Pool)
    reads pool`leases, pool`objects
  {
    && old(pool.objects) <= pool.objects && (forall a <- pool.objects :: a in old(pool.objects) || fresh(a))
    && old(pool.leases) <= pool.leases && (forall l <- pool.leases :: l in old(pool.leases) || fresh(l))
  }

  function RequestOf(step: Step): nat {
    if step.Chose? then step.decision.request else step.request
  }

  /** What the pool did for one request, in order. */
  function Of(log: seq<Step>, me: nat): seq<Step> {
    if log == [] then []
    else Of(DropLast(log), me) + if RequestOf(Last(log)) == me then [Last(log)] else []
  }

  lemma OneMoreStep(log: seq<Step>, step: Step, me: nat)
    ensures Of(log + [step], me) == Of(log, me) + if RequestOf(step) == me then [step] else []
  {
    assert DropLast(log + [step]) == log;
  }

  /** The state one request relies on: its claim, and its unreleased leases and their marks,
      and what the pool did for it. */
  twostate predicate Untouched(pool: Pool, me: nat)
    reads pool`pending, pool`live, pool`leases, pool`objects, pool`log, pool.leases`pinMissed
  {
    && Grown(pool) && Of(pool.log, me) == old(Of(pool.log, me))
    && (me in pool.pending <==> me in old(pool.pending))
    && (me in pool.pending ==> pool.pending[me] == old(pool.pending[me]))
    && pool.Held(me) == old(pool.Held(me))
    && forall l <- pool.Held(me) :: l in pool.leases && old(l in pool.leases) && l.pinMissed == old(l.pinMissed)
  }

  /** The locked sections of the request `other` before it has a claim. */
  method ClaimStep(pool: Pool, me: nat, other: nat)
    requires pool.Valid() && other != me && other !in pool.pending
    modifies pool, pool.objects
    ensures pool.Valid() && Untouched(pool, me)
  {
    var hints: Hints, exclude: set<string>, first: bool, now: nat, disk: Disk := *, *, *, *, *;
    var seen := disk.(present := disk.present * pool.universe);
    var _, _, _, _, _ := pool.Claim(other, hints, exclude, first, now, seen, false);
  }

  /** What it does with the claim. */
  method UnclaimStep(pool: Pool, me: nat, other: nat)
    requires pool.Valid() && other != me && other in pool.pending
    modifies pool`pending, pool.objects`inflight, pool.objects`served
    ensures pool.Valid() && Untouched(pool, me)
  {
    pool.Unclaim(other, pool.pending[other]);
  }

  method GrantStep(pool: Pool, me: nat, other: nat)
    requires pool.Valid() && other != me && other in pool.pending
    modifies pool`pending, pool`leases, pool`live
    ensures pool.Valid() && Untouched(pool, me)
  {
    var pinMissed: bool := *;
    var lease := pool.Grant(other, pinMissed);
    assert lease !in old(pool.live) && pool.Held(me) == old(pool.Held(me));
  }

  method RememberStep(pool: Pool, me: nat, other: nat)
    requires pool.Valid() && other != me
    modifies pool`affinity, pool`history, pool`log
    ensures pool.Valid() && Untouched(pool, me)
  {
    var key: string, account: string, now: nat := *, *, *;
    pool.Remember(key, account, now, other);
  }

  /** What the request `other` does to a lease it has or had. */
  method LeaseStep(pool: Pool, me: nat, lease: AccountLease)
    requires pool.Valid() && lease in pool.leases && lease.owner != me
    modifies pool`live, lease`released, lease`pinMissed, lease.acct`inflight
    ensures pool.Valid() && Untouched(pool, me)
  {
    if * {
      pool.Release(lease);
    } else {
      lease.pinMissed := *;
    }
  }

  /** What an answer says about its account. */
  method AnswerStep(pool: Pool, me: nat, other: nat, acct: PoolAccount)
    requires pool.Valid() && other != me && acct in pool.objects
    modifies acct`coolUntil, acct`coolStamp, acct`usage, pool`log
    ensures pool.Valid() && Untouched(pool, me)
  {
    if * {
      var d: int, now: nat, disk: Disk := *, *, *;
        pool.CoolDown(acct, d, now, disk, other);
    } else if * {
      pool.ClearCooldown(acct);
    } else {
      var usage: Usage := *;
      pool.Observe(acct, usage);
    }
  }

  /** What the console and the clock do. */
  method OperatorStep(pool: Pool, me: nat)
    requires pool.Valid()
    modifies pool, pool.objects
    ensures pool.Valid() && Untouched(pool, me)
  {
    var id: string, now: nat, disk: Disk := *, *, *;
    disk := disk.(present := disk.present * pool.universe);
    if * {
      pool.Rescan(now, disk);
    } else if * {
      var enabled: bool, written: bool := *, *;
      var _ := pool.SetEnabled(id, enabled, now, disk, written);
    } else {
      var after: Disk, deleted: bool := *, *;
      var _, _ := pool.Remove(id, now, disk, deleted, after.(present := disk.present - {id}));
    }
  }

  method OtherStep(pool: Pool, me: nat)
    requires pool.Valid()
    modifies pool, pool.objects, pool.leases`released, pool.leases`pinMissed
    ensures pool.Valid() && Untouched(pool, me)
  {
    var kind: nat, other: nat := *, *;
    if kind == 0 {
      OperatorStep(pool, me);
    } else if kind == 1 && other != me {
      RememberStep(pool, me, other);
    } else if kind == 2 && other != me && pool.objects != {} {
      var acct :| acct in pool.objects;
      AnswerStep(pool, me, other, acct);
    } else if kind == 3 && exists l :: l in pool.leases && l.owner != me {
      var lease :| lease in pool.leases && lease.owner != me;
      LeaseStep(pool, me, lease);
    } else if other != me && other !in pool.pending {
      ClaimStep(pool, me, other);
    } else if other != me && kind == 4 {
      UnclaimStep(pool, me, other);
    } else if other != me {
      GrantStep(pool, me, other);
    }
  }

  /** Everything the others do while this request waits. */
  method Others(pool: Pool, me: nat)
    requires pool.Valid()
    modifies pool, pool.objects, pool.leases`released, pool.leases`pinMissed
    ensures pool.Valid() && Untouched(pool, me)
  {
    var steps: int := *;
    while steps > 0
      invariant pool.Valid() && Untouched(pool, me)
    {
      OtherStep(pool, me);
      steps := steps - 1;
    }
  }
}
