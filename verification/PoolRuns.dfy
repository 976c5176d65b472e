/** internal/app/accounts.go: runs of whole requests over the pool, while nobody else uses it
    and no scan finds anything new. The ready accounts of the pool then go through the runs of
    `Scheduling`, whatever other accounts are disabled or cooling down. */
module PoolRuns {
  import opened Prelude
  import opened AccountOrder
  import opened AccountPool
  import opened Scheduling

  const NO_HINTS := Hints([], None)

  /** The ready accounts of a listing. */
  function Ready(all: seq<Candidate>, barred: set<string>, now: nat): seq<Candidate> {
    Eligible(all, barred, now, true)
  }

  /** Nobody starts or stops cooling down between `clock` and `clock + n`. */
  ghost predicate Settled(all: seq<Candidate>, clock: nat, n: nat) {
    forall c <- all :: c.coolUntil <= clock || c.coolUntil > clock + n
  }

  lemma {:induction false} ReadyStays(all: seq<Candidate>, barred: set<string>, clock: nat, n: nat, now: nat)
    requires Settled(all, clock, n) && clock <= now <= clock + n
    ensures Ready(all, barred, now) == Ready(all, barred, clock)
  {
    if all != [] {
      assert all == DropLast(all) + [Last(all)];
      ReadyStays(DropLast(all), barred, clock, n, now);
    }
  }

  lemma ReadyAreUnique(all: seq<Candidate>, barred: set<string>, now: nat)
    requires UniqueIds(all)
    ensures UniqueIds(Ready(all, barred, now))
    ensures forall c <- Ready(all, barred, now) :: c in all && c.id !in barred && now >= c.coolUntil
  {
    EligibleAreUnique(all, barred, now, true);
    EligibleMembers(all, barred, now, true);
  }

  /** A list with the load and the time of use of one account changed. */
  function Touched(list: seq<Candidate>, i: nat, inflight: int, lastUsed: nat): seq<Candidate>
    requires i < |list|
  {
    list[i := list[i].(inflight := inflight, lastUsed := lastUsed)]
  }

  /** Readiness does not depend on load or use: the ready accounts change as the listing does. */
  lemma {:induction false} TouchingTheReady(all: seq<Candidate>, at: nat, inflight: int, lastUsed: nat,
                                            barred: set<string>, now: nat)
    returns (i: nat)
    requires UniqueIds(all) && at < |all| && all[at].id !in barred && now >= all[at].coolUntil
    ensures i < |Ready(all, barred, now)| && Ready(all, barred, now)[i] == all[at]
    ensures IndexOf(Ready(all, barred, now), all[at].id) == i
    ensures Ready(Touched(all, at, inflight, lastUsed), barred, now)
      == Touched(Ready(all, barred, now), i, inflight, lastUsed)
  {
    i := ReadyPosition(all, at, inflight, lastUsed, barred, now);
    ReadyAreUnique(all, barred, now);
    var j := IndexOf(Ready(all, barred, now), all[at].id);
    assert j == i;
  }

  lemma {:induction false} ReadyPosition(all: seq<Candidate>, at: nat, inflight: int, lastUsed: nat,
                                         barred: set<string>, now: nat)
    returns (i: nat)
    requires at < |all| && all[at].id !in barred && now >= all[at].coolUntil
    ensures i < |Ready(all, barred, now)| && Ready(all, barred, now)[i] == all[at]
    ensures Ready(Touched(all, at, inflight, lastUsed), barred, now)
      == Touched(Ready(all, barred, now), i, inflight, lastUsed)
  {
    var p, changed := DropLast(all), Touched(all, at, inflight, lastUsed);
    if at == |p| {
      i := |Ready(p, barred, now)|;
      assert DropLast(changed) == p;
    } else {
      i := ReadyPosition(p, at, inflight, lastUsed, barred, now);
      assert DropLast(changed) == Touched(p, at, inflight, lastUsed) && Last(changed) == Last(all);
    }
  }

  /** A pool's disk as it last saw it. */
  method Snapshot(pool: Pool) returns (disk: Disk)
    requires pool.Valid()
    ensures disk.present <= pool.universe && pool.Steady(disk)
  {
    disk := Disk(pool.accounts.Keys, map id | id in pool.accounts :: pool.accounts[id].coolStamp, pool.disabled);
  }

  ghost predicate Listed(pool: Pool, order: seq<string>)
    reads pool`accounts
  {
    IsListing(order, pool.accounts.Keys)
  }

  ghost function Listing(pool: Pool, order: seq<string>): seq<Candidate>
    requires Listed(pool, order)
    reads pool`accounts, pool.accounts.Values
  {
    Candidates(pool.accounts, order)
  }

  lemma ListingNames(pool: Pool, order: seq<string>)
    requires pool.Named() && Listed(pool, order)
    ensures |Listing(pool, order)| == |order| && forall j :: 0 <= j < |order| ==> Listing(pool, order)[j].id == order[j]
  {
    forall j | 0 <= j < |order|
      ensures Listing(pool, order)[j].id == order[j]
    {
      assert order[j] in order;
    }
  }

  lemma ListingsAreUnique(order: seq<string>, ids: set<string>, all: seq<Candidate>)
    requires IsListing(order, ids) && |all| == |order| && forall i :: 0 <= i < |all| ==> all[i].id == order[i]
    ensures UniqueIds(all)
  {
    ListingIsDistinct(order);
  }

  /** While one account is ready, the choice is among the ready. */
  lemma ChoiceAmongReady(all: seq<Candidate>, barred: set<string>, now: nat, preferred: Option<string>)
    requires UniqueIds(all) && Ready(all, barred, now) != []
    ensures var ready := Ready(all, barred, now);
      && ChoiceAmong(all, barred, now, None, preferred) == Choose(ready, [], None, preferred)
      && Choose(ready, [], None, preferred).Some?
      && Choose(ready, [], None, preferred).value.candidate in ready
  {
    ChoiceIsSafe(Ready(all, barred, now), [], None, preferred);
  }

  /** A claim without reasoning keys is a `StickyTurn` of the ready accounts. */
  lemma ClaimIsAStickyTurn(d: Decision, at: nat)
    requires UniqueIds(d.candidates) && Ready(d.candidates, Barred(d), d.now) != [] && d.hints.reasoningKeys == []
    requires Scheduled(d) && at < |d.candidates| && d.candidates[at].id == d.account
    ensures d.account !in Barred(d) && d.now >= d.candidates[at].coolUntil
    ensures Choose(Ready(d.candidates, Barred(d), d.now), [], None, Preference(d)).Some?
    ensures Choose(Ready(d.candidates, Barred(d), d.now), [], None, Preference(d)).value.candidate == d.candidates[at]
    ensures Ready(Claimed(d.candidates, at, d.now), Barred(d), d.now)
         == StickyTurn(Ready(d.candidates, Barred(d), d.now), Preference(d), d.now)
  {
    hide Eligible;
    var all, ready := d.candidates, Ready(d.candidates, Barred(d), d.now);
    ChoiceAmongReady(all, Barred(d), d.now, Preference(d));
    assert Picks(d, ChoiceOf(d));
    ReadyAreUnique(all, Barred(d), d.now);
    var c := Choose(ready, [], None, Preference(d)).value.candidate;
    var k :| 0 <= k < |all| && all[k] == c;
    assert k == at;
    var i := TouchingTheReady(all, at, all[at].inflight + 1, d.now, Barred(d), d.now);
  }

  function Preference(d: Decision): Option<string> {
    PreferenceOf(d.hints, d.affinity, d.ids, d.now)
  }

  /** The claim of a request without reasoning, while some account is ready. */
  method TakeAccount(pool: Pool, request: nat, stickyKey: Option<string>, now: nat, ghost order: seq<string>)
    returns (acct: PoolAccount, ghost d: Decision, ghost at: nat)
    requires pool.Valid() && request !in pool.pending && Listed(pool, order)
    requires Ready(Listing(pool, order), pool.disabled, now) != []
    modifies pool, pool.objects
    ensures pool.Valid() && pool.accounts == old(pool.accounts) && pool.disabled == old(pool.disabled)
    ensures pool.ObjectsGrow() && pool.leases == old(pool.leases) && pool.live == old(pool.live)
    ensures acct in pool.objects && acct.id in pool.accounts && pool.accounts[acct.id] == acct
    ensures pool.pending == old(pool.pending)[request := acct]
    ensures d.hints == Hints([], stickyKey) && d.candidates == old(Listing(pool, order)) && Barred(d) == pool.disabled
    ensures d.now == now && d.account == acct.id && Scheduled(d)
    ensures d.affinity == pool.affinity && d.ids == pool.accounts.Keys && pool.history == old(pool.history)
    ensures Pruned(old(pool.affinity), pool.affinity, pool.accounts.Keys, now)
    ensures at < |d.candidates| && d.candidates[at].id == acct.id
      && Listing(pool, order) == Claimed(d.candidates, at, now)
  {
    hide Pool.Loads, Pool.AffinityAgrees, Pool.Decided, FirstHit, Scheduled, Eligible, Candidates,
      Claimed, Pruned, Home, Hit, IsListing;
    ghost var all := Listing(pool, order);
    ListingNames(pool, order);
    SomeReady(order, pool.accounts.Keys, all, pool.disabled, now);
    var disk := Snapshot(pool);
    var claimed, pinMissed;
    ghost var listed;
    claimed, pinMissed, listed, d, at := pool.Claim(request, Hints([], stickyKey), {}, true, now, disk, true);
    assert {} + pool.disabled == pool.disabled;
    ListingIsUnique(listed, order, pool.accounts.Keys);
    acct := claimed;
  }

  lemma SomeReady(order: seq<string>, ids: set<string>, all: seq<Candidate>, barred: set<string>, now: nat)
    requires IsListing(order, ids) && |all| == |order| && forall i :: 0 <= i < |all| ==> all[i].id == order[i]
    requires Ready(all, barred, now) != []
    ensures !(ids <= barred)
  {
    var c := Ready(all, barred, now)[0];
    EligibleMembers(all, barred, now, true);
    var i :| 0 <= i < |all| && all[i] == c;
    assert order[i] in order;
  }

  /** A claim without hints that is released is a `Turn` of the ready accounts. */
  lemma ClaimAndReleaseIsATurn(d: Decision, at: nat)
    requires UniqueIds(d.candidates) && Ready(d.candidates, Barred(d), d.now) != [] && d.hints == NO_HINTS
    requires Scheduled(d) && at < |d.candidates| && d.candidates[at].id == d.account
    ensures var turn := Turn(Ready(d.candidates, Barred(d), d.now), d.now);
      && turn.chosen == [d.account]
      && Ready(Touched(d.candidates, at, d.candidates[at].inflight, d.now), Barred(d), d.now) == turn.list
  {
    var all, ready := d.candidates, Ready(d.candidates, Barred(d), d.now);
    ClaimIsAStickyTurn(d, at);
    ReadyAreUnique(all, Barred(d), d.now);
    var i := TouchingTheReady(all, at, all[at].inflight, d.now, Barred(d), d.now);
    assert ready[Best(ready)] == all[at] && Best(ready) == i;
  }

  /** One request, from its claim to its release. */
  method ServeAlone(pool: Pool, me: nat, now: nat, ghost order: seq<string>) returns (account: string, ghost at: nat)
    requires pool.Valid() && me !in pool.pending && Listed(pool, order)
    requires Ready(Listing(pool, order), pool.disabled, now) != []
    modifies pool, pool.objects
    ensures pool.Valid() && pool.accounts == old(pool.accounts) && pool.disabled == old(pool.disabled)
    ensures pool.ObjectsGrow() && pool.pending == old(pool.pending) && pool.live == old(pool.live)
    ensures var all := old(Listing(pool, order));
      && at < |all| && all[at].id == account && Listing(pool, order) == Touched(all, at, all[at].inflight, now)
      && var turn := Turn(Ready(all, pool.disabled, now), now);
         turn.chosen == [account] && Ready(Listing(pool, order), pool.disabled, now) == turn.list
  {
    hide Pool.Loads, Pool.AffinityAgrees, Pool.Decided, FirstHit, Scheduled, Ready, Turn, Touched, Claimed, Candidates,
      IsListing, Barred, Pruned;
    var acct;
    ghost var d;
    ListingNames(pool, order);
    acct, d, at := TakeAccount(pool, me, None, now, order);
    account := acct.id;
    ServedInTurn(order, pool.accounts.Keys, d, at, pool.disabled, now);
    GiveBack(pool, me, acct, now, order, d.candidates, at);
  }

  lemma ServedInTurn(order: seq<string>, ids: set<string>, d: Decision, at: nat, barred: set<string>, now: nat)
    requires IsListing(order, ids) && |d.candidates| == |order|
    requires forall j :: 0 <= j < |order| ==> d.candidates[j].id == order[j]
    requires Barred(d) == barred && d.now == now && Ready(d.candidates, barred, now) != [] && d.hints == NO_HINTS
    requires Scheduled(d) && at < |d.candidates| && d.candidates[at].id == d.account
    ensures var turn := Turn(Ready(d.candidates, barred, now), now);
      && turn.chosen == [d.account]
      && Ready(Touched(d.candidates, at, d.candidates[at].inflight, now), barred, now) == turn.list
  {
    hide Scheduled, Ready, Turn, Barred;
    ListingsAreUnique(order, ids, d.candidates);
    ClaimAndReleaseIsATurn(d, at);
  }

  method GrantAndRelease(pool: Pool, me: nat, acct: PoolAccount)
    requires pool.Valid() && me in pool.pending && pool.pending[me] == acct
    modifies pool`pending, pool`leases, pool`live, acct`inflight
    ensures pool.Valid() && pool.pending == old(pool.pending) - {me} && pool.live == old(pool.live)
    ensures acct.inflight == old(acct.inflight) - 1
  {
    var lease := pool.Grant(me, false);
    pool.Release(lease);
    assert pool.live == old(pool.live);
  }

  method GiveBack(pool: Pool, me: nat, acct: PoolAccount, now: nat,
                  ghost order: seq<string>, ghost all: seq<Candidate>, ghost at: nat)
    requires pool.Valid() && me in pool.pending && pool.pending[me] == acct && Listed(pool, order)
    requires acct.id in pool.accounts && pool.accounts[acct.id] == acct
    requires |all| == |order| && (forall j :: 0 <= j < |all| ==> all[j].id == order[j])
    requires at < |all| && all[at].id == acct.id && Listing(pool, order) == Claimed(all, at, now)
    modifies pool`pending, pool`leases, pool`live, acct`inflight
    ensures pool.Valid() && pool.pending == old(pool.pending) - {me} && pool.live == old(pool.live)
    ensures Listing(pool, order) == Touched(all, at, all[at].inflight, now)
  {
    hide Pool.Loads, Pool.AffinityAgrees, Pool.Decided, FirstHit, Scheduled, Eligible;
    ListingIsDistinct(order);
    ghost var claimed := Listing(pool, order);
    GrantAndRelease(pool, me, acct);
    ghost var after := Listing(pool, order);
    forall j | 0 <= j < |order|
      ensures after[j] == Touched(all, at, all[at].inflight, now)[j]
    {
      assert order[j] in order && claimed[j] == Claimed(all, at, now)[j];
      assert j != at ==> pool.accounts[order[j]] != acct;
    }
  }

  /** The next of `n` requests, with the ready accounts as before but for its turn. */
  method NextRequest(pool: Pool, me: nat, now: nat, ghost order: seq<string>, ghost clock: nat, ghost n: nat)
    returns (account: string)
    requires pool.Valid() && me !in pool.pending && Listed(pool, order) && clock <= now <= clock + n
    requires Settled(Listing(pool, order), clock, n) && Ready(Listing(pool, order), pool.disabled, clock) != []
    modifies pool, pool.objects
    ensures pool.Valid() && pool.accounts == old(pool.accounts) && pool.disabled == old(pool.disabled)
    ensures pool.ObjectsGrow() && pool.pending == old(pool.pending) && pool.live == old(pool.live)
    ensures Settled(Listing(pool, order), clock, n)
    ensures var turn := Turn(old(Ready(Listing(pool, order), pool.disabled, clock)), now);
      turn.chosen == [account] && Ready(Listing(pool, order), pool.disabled, clock) == turn.list
  {
    hide Pool.Loads, Pool.AffinityAgrees, Pool.Decided, Candidates, Ready, Turn, Settled;
    ghost var all := Listing(pool, order);
    ReadyStays(all, pool.disabled, clock, n, now);
    ghost var at;
    account, at := ServeAlone(pool, me, now, order);
    TouchedSettles(all, at, all[at].inflight, now, clock, n);
    ReadyStays(Listing(pool, order), pool.disabled, clock, n, now);
  }

  /** `n` requests, one after the other: the ready accounts go through `SequentialRun`. */
  method SequentialRequests(pool: Pool, me: nat, n: nat, clock: nat, ghost order: seq<string>)
    returns (chosen: seq<string>)
    requires pool.Valid() && me !in pool.pending && Listed(pool, order)
    requires Settled(Listing(pool, order), clock, n) && Ready(Listing(pool, order), pool.disabled, clock) != []
    modifies pool, pool.objects
    ensures pool.Valid() && pool.accounts == old(pool.accounts) && pool.disabled == old(pool.disabled)
    ensures pool.pending == old(pool.pending) && pool.live == old(pool.live)
    ensures var run := SequentialRun(old(Ready(Listing(pool, order), pool.disabled, clock)), n, clock);
      chosen == run.chosen && Ready(Listing(pool, order), pool.disabled, clock) == run.list
  {
    hide Pool.Loads, Pool.AffinityAgrees, Pool.Decided, Candidates, Ready, Turn, Settled, Listing, SequentialRun;
    ghost var ready := Ready(Listing(pool, order), pool.disabled, clock);
    chosen := [];
    NoTurns(ready, clock);
    for k := 0 to n
      invariant pool.Valid() && pool.accounts == old(pool.accounts) && pool.disabled == old(pool.disabled)
      invariant pool.ObjectsGrow() && pool.pending == old(pool.pending) && pool.live == old(pool.live)
      invariant Settled(Listing(pool, order), clock, n)
      invariant chosen == SequentialRun(ready, k, clock).chosen
      invariant Ready(Listing(pool, order), pool.disabled, clock) == SequentialRun(ready, k, clock).list
    {
      NextTurn(ready, k, clock);
      var account := NextRequest(pool, me, clock + k + 1, order, clock, n);
      chosen := chosen + [account];
    }
  }

  lemma NoTurns(ready: seq<Candidate>, clock: nat)
    requires ready != []
    ensures SequentialRun(ready, 0, clock) == Rotation(ready, [])
  {
  }

  lemma NextTurn(ready: seq<Candidate>, k: nat, clock: nat)
    requires ready != []
    ensures var before := SequentialRun(ready, k, clock);
      var turn := Turn(before.list, clock + k + 1);
      before.list != [] && SequentialRun(ready, k + 1, clock) == Rotation(turn.list, before.chosen + turn.chosen)
  {
  }

  lemma TouchedSettles(all: seq<Candidate>, at: nat, inflight: int, lastUsed: nat, clock: nat, n: nat)
    requires at < |all| && Settled(all, clock, n)
    ensures Settled(Touched(all, at, inflight, lastUsed), clock, n)
  {
  }

  /** One turn for each ready account, when they are evenly loaded and used: each gets one. */
  method EveryAccountOnce(pool: Pool, me: nat, clock: nat, ghost order: seq<string>, ghost inflight: int,
                          ghost score: real)
    returns (chosen: seq<string>)
    requires pool.Valid() && me !in pool.pending && Listed(pool, order)
    requires var ready := Ready(Listing(pool, order), pool.disabled, clock);
      && ready != [] && Even(ready, inflight, score) && UsedBy(ready, clock)
      && Settled(Listing(pool, order), clock, |ready|)
    modifies pool, pool.objects
    ensures pool.Valid() && pool.pending == old(pool.pending) && pool.live == old(pool.live)
    ensures var ready := old(Ready(Listing(pool, order), pool.disabled, clock));
      && |chosen| == |ready| && Distinct(chosen) && forall i :: 0 <= i < |ready| ==> ready[i].id in chosen
  {
    hide Pool.Loads, Pool.AffinityAgrees, Pool.Decided, Candidates, Ready, SequentialRun;
    var count := Count(pool, clock, order);
    ghost var ready := Ready(Listing(pool, order), pool.disabled, clock);
    chosen := SequentialRequests(pool, me, count, clock, order);
    ListingsAreUnique(order, pool.accounts.Keys, old(Listing(pool, order)));
    ReadyAreUnique(old(Listing(pool, order)), old(pool.disabled), clock);
    RotationFromEven(ready, clock, inflight, score);
  }

  method Count(pool: Pool, clock: nat, ghost order: seq<string>) returns (n: nat)
    requires pool.Valid() && Listed(pool, order)
    ensures n == |Ready(Listing(pool, order), pool.disabled, clock)|
  {
    ghost var listed, all;
    var ready, cooling;
    ready, cooling, listed, all := pool.Split(pool.disabled, clock);
    ListingIsUnique(listed, order, pool.accounts.Keys);
    n := |ready|;
  }

  // ------------------------------------------------------------------ cache keys

  /** A table after a request that was served with this account. */
  function Noted(table: map<string, Entry>, key: Option<string>, account: string, now: nat): map<string, Entry> {
    match key
    case Some(k) => table[k := Entry(account, now)]
    case None => table
  }

  /** A table after these requests, when nothing has to give way. */
  function Kept(table: map<string, Entry>, keys: seq<Option<string>>, chosen: seq<string>, clock: nat)
    : map<string, Entry>
    requires |chosen| == |keys|
  {
    if keys == [] then table
    else Noted(Kept(table, DropLast(keys), DropLast(chosen), clock), Last(keys), Last(chosen), clock + |keys|)
  }

  function Recalled(table: map<string, Entry>, ids: set<string>, key: Option<string>, now: nat): Option<string> {
    PreferenceOf(Hints([], key), table, ids, now)
  }

  /** The account a request takes among these. */
  function Taken(ready: seq<Candidate>, preference: Option<string>): string
    requires ready != []
  {
    Choose(ready, [], None, preference).value.candidate.id
  }

  /** Each request took what its preference led to. */
  ghost predicate Taking(ready: seq<Candidate>, preferred: seq<Option<string>>, chosen: seq<string>, clock: nat)
    requires ready != []
  {
    && |preferred| == |chosen|
    && forall k :: 0 <= k < |chosen| ==> chosen[k] == Taken(AcquireRun(ready, preferred[..k], clock), preferred[k])
  }

  /** Each preference is what this table, kept up to date, holds for the request's key; or at
      least, when there is one. */
  ghost predicate Recalling(table: map<string, Entry>, ids: set<string>, keys: seq<Option<string>>,
                            preferred: seq<Option<string>>, chosen: seq<string>, clock: nat, always: bool)
  {
    && |preferred| == |chosen| == |keys|
    && forall k :: 0 <= k < |keys| && (always || preferred[k].Some?) ==>
         preferred[k] == Recalled(Kept(table, keys[..k], chosen[..k], clock), ids, keys[k], clock + k + 1)
  }

  lemma OneMoreTaken(ready: seq<Candidate>, preferred: seq<Option<string>>, chosen: seq<string>, clock: nat,
                     preference: Option<string>, account: string)
    requires ready != [] && Taking(ready, preferred, chosen, clock)
    requires account == Taken(AcquireRun(ready, preferred, clock), preference)
    ensures Taking(ready, preferred + [preference], chosen + [account], clock)
  {
    hide Taken, AcquireRun;
    var all := preferred + [preference];
    forall k | 0 <= k < |all|
      ensures (chosen + [account])[k] == Taken(AcquireRun(ready, all[..k], clock), all[k])
    {
      assert all[..k] == preferred[..k];
      assert k == |preferred| ==> preferred[..k] == preferred;
    }
  }

  lemma OneMoreRecalled(table: map<string, Entry>, ids: set<string>, keys: seq<Option<string>>,
                        preferred: seq<Option<string>>, chosen: seq<string>, clock: nat, always: bool,
                        key: Option<string>, preference: Option<string>, account: string)
    requires Recalling(table, ids, keys, preferred, chosen, clock, always)
    requires always || preference.Some? ==>
      preference == Recalled(Kept(table, keys, chosen, clock), ids, key, clock + |keys| + 1)
    ensures Recalling(table, ids, keys + [key], preferred + [preference], chosen + [account], clock, always)
    ensures Kept(table, keys + [key], chosen + [account], clock)
         == Noted(Kept(table, keys, chosen, clock), key, account, clock + |keys| + 1)
  {
    var ks, ps, cs := keys + [key], preferred + [preference], chosen + [account];
    KeptGoesOn(table, keys, chosen, clock, key, account);
    hide Recalled, Kept;
    forall k | 0 <= k < |ks| && (always || ps[k].Some?)
      ensures ps[k] == Recalled(Kept(table, ks[..k], cs[..k], clock), ids, ks[k], clock + k + 1)
    {
      assert ks[..k] == keys[..k] && cs[..k] == chosen[..k];
      assert k == |keys| ==> keys[..k] == keys && chosen[..k] == chosen;
    }
  }

  /** The key of an earlier request leads back to its account, unless used again in between. */
  lemma {:induction false} KeysLeadBack(table: map<string, Entry>, keys: seq<Option<string>>, chosen: seq<string>,
                                        clock: nat, j: nat)
    requires |chosen| == |keys| && j < |keys| && keys[j].Some?
    requires forall i :: j < i < |keys| ==> keys[i] != keys[j]
    ensures var kept := Kept(table, keys, chosen, clock);
      keys[j].value in kept && kept[keys[j].value] == Entry(chosen[j], clock + j + 1)
  {
    if j < |keys| - 1 {
      KeysLeadBack(table, DropLast(keys), DropLast(chosen), clock, j);
    }
  }

  lemma {:induction false} StickyRunsKeepIds(ready: seq<Candidate>, preferred: seq<Option<string>>, clock: nat)
    requires UniqueIds(ready)
    ensures UniqueIds(AcquireRun(ready, preferred, clock))
    decreases |preferred|
  {
    if ready != [] && preferred != [] {
      StickyRunsKeepIds(ready, DropLast(preferred), clock);
    }
  }

  /** A request with a cache key returns to the account of the latest request with that key,
      while that is ready and at most `stickySlack` busier than any other. */
  lemma RepeatedKeysReturn(ready: seq<Candidate>, table: map<string, Entry>, ids: set<string>,
                           keys: seq<Option<string>>, preferred: seq<Option<string>>, chosen: seq<string>,
                           clock: nat, j: nat, k: nat)
    requires ready != [] && Taking(ready, preferred, chosen, clock)
    requires Recalling(table, ids, keys, preferred, chosen, clock, true)
    requires j < k < |keys| && keys[j] == keys[k] && keys[k].Some? && forall i :: j < i < k ==> keys[i] != keys[k]
    requires chosen[j] in ids && k - j <= AFFINITY_TTL
    requires UniqueIds(ready) && Affordable(AcquireRun(ready, preferred[..k], clock), chosen[j])
    ensures chosen[k] == chosen[j]
  {
    KeysLeadBack(table, keys[..k], chosen[..k], clock, j);
    assert preferred[k] == Some(chosen[j]);
    StickyRunsKeepIds(ready, preferred[..k], clock);
    hide AcquireRun, Kept;
    ChoiceIsSound(AcquireRun(ready, preferred[..k], clock), [], None, preferred[k]);
  }

  lemma PrunedTwice(a: map<string, Entry>, b: map<string, Entry>, c: map<string, Entry>, ids: set<string>, now: nat)
    requires Pruned(a, b, ids, now) && Pruned(b, c, ids, now)
    ensures Pruned(a, c, ids, now)
  {
  }

  /** Dead entries stay dead, so tables that differ in those alone recall the same. */
  lemma PrunedStays(a: map<string, Entry>, b: map<string, Entry>, ids: set<string>, earlier: nat, now: nat)
    requires earlier <= now && Pruned(a, b, ids, earlier)
    ensures Pruned(a, b, ids, now)
  {
    assert forall k <- a :: Alive(a[k], ids, now) ==> Alive(a[k], ids, earlier);
  }

  lemma PrunedRecalls(a: map<string, Entry>, b: map<string, Entry>, ids: set<string>, earlier: nat,
                      key: Option<string>, now: nat)
    requires earlier <= now && Pruned(a, b, ids, earlier)
    ensures Recalled(a, ids, key, now) == Recalled(b, ids, key, now)
  {
    assert forall k <- a :: Alive(a[k], ids, now) ==> Alive(a[k], ids, earlier);
  }

  lemma PrunedNoted(a: map<string, Entry>, b: map<string, Entry>, ids: set<string>, key: Option<string>,
                    account: string, now: nat)
    requires Pruned(a, b, ids, now)
    ensures Pruned(Noted(a, key, account, now), Noted(b, key, account, now), ids, now)
  {
  }

  lemma HistoryRecalls(table: map<string, Entry>, history: map<string, Entry>, ids: set<string>, key: Option<string>,
                       now: nat)
    requires forall k <- table :: k in history && table[k] == history[k]
    requires Recalled(table, ids, key, now).Some?
    ensures Recalled(table, ids, key, now) == Recalled(history, ids, key, now)
  {
  }

  /** The lease is kept, and the cache key prefers its account from now on. */
  method Keep(pool: Pool, request: nat, acct: PoolAccount, key: Option<string>, now: nat)
    requires pool.Valid() && request in pool.pending && pool.pending[request] == acct
    modifies pool`pending, pool`leases, pool`live, pool`affinity, pool`history, pool`log
    ensures pool.Valid() && pool.pending == old(pool.pending) - {request}
    ensures pool.history == Noted(old(pool.history), key, acct.id, now)
    ensures old(|pool.affinity|) < AFFINITY_MAX_ENTRIES ==>
      pool.affinity == Noted(old(pool.affinity), key, acct.id, now)
  {
    hide Pool.Loads;
    var _ := pool.Grant(request, false);
    if key.Some? {
      pool.Remember(key.value, acct.id, now, request);
    }
  }

  /** The claim of a request without reasoning, and what its key recalled. */
  method TakePreferred(pool: Pool, request: nat, key: Option<string>, now: nat, ghost order: seq<string>)
    returns (acct: PoolAccount, ghost preference: Option<string>, ghost at: nat)
    requires pool.Valid() && request !in pool.pending && Listed(pool, order)
    requires Ready(Listing(pool, order), pool.disabled, now) != []
    modifies pool, pool.objects
    ensures pool.Valid() && pool.accounts == old(pool.accounts) && pool.disabled == old(pool.disabled)
    ensures pool.ObjectsGrow() && acct in pool.objects && acct.id in pool.accounts && pool.accounts[acct.id] == acct
    ensures pool.pending == old(pool.pending)[request := acct] && pool.history == old(pool.history)
    ensures preference == Recalled(old(pool.affinity), pool.accounts.Keys, key, now)
    ensures Pruned(old(pool.affinity), pool.affinity, pool.accounts.Keys, now)
    ensures var all := old(Listing(pool, order));
      && at < |all| && Listing(pool, order) == Claimed(all, at, now)
      && acct.id == Taken(Ready(all, pool.disabled, now), preference)
      && Ready(Listing(pool, order), pool.disabled, now) == StickyTurn(Ready(all, pool.disabled, now), preference, now)
  {
    hide Pool.Loads, Pool.AffinityAgrees, Pool.Decided, Candidates, FirstHit, Scheduled, Ready, StickyTurn, Pruned,
      Recalled, Taken, Claimed, Barred, IsListing;
    ghost var d;
    ListingNames(pool, order);
    acct, d, at := TakeAccount(pool, request, key, now, order);
    preference := Preference(d);
    TookPreferred(order, pool.accounts.Keys, d, at, pool.disabled, now);
    PreferenceIsRecalled(d, old(pool.affinity), key);
  }

  lemma TookPreferred(order: seq<string>, ids: set<string>, d: Decision, at: nat, barred: set<string>, now: nat)
    requires IsListing(order, ids) && |d.candidates| == |order|
    requires forall j :: 0 <= j < |order| ==> d.candidates[j].id == order[j]
    requires Barred(d) == barred && d.now == now && Ready(d.candidates, barred, now) != []
    requires Scheduled(d) && at < |d.candidates| && d.candidates[at].id == d.account && d.hints.reasoningKeys == []
    ensures var ready := Ready(d.candidates, barred, now);
      && d.account == Taken(ready, Preference(d))
      && Ready(Claimed(d.candidates, at, now), barred, now) == StickyTurn(ready, Preference(d), now)
  {
    hide Scheduled, Ready, StickyTurn, Barred, Claimed, Preference;
    ListingsAreUnique(order, ids, d.candidates);
    ClaimIsAStickyTurn(d, at);
  }

  lemma PreferenceIsRecalled(d: Decision, before: map<string, Entry>, key: Option<string>)
    requires d.hints == Hints([], key) && Pruned(before, d.affinity, d.ids, d.now)
    ensures Preference(d) == Recalled(before, d.ids, key, d.now)
  {
    PrunedRecalls(before, d.affinity, d.ids, d.now, key, d.now);
  }

  /** One request that takes an account and keeps it. */
  method TakeSticky(pool: Pool, request: nat, key: Option<string>, now: nat, ghost order: seq<string>)
    returns (account: string, ghost preference: Option<string>, ghost at: nat)
    requires pool.Valid() && request !in pool.pending && Listed(pool, order)
    requires Ready(Listing(pool, order), pool.disabled, now) != []
    modifies pool, pool.objects
    ensures pool.Valid() && pool.accounts == old(pool.accounts) && pool.disabled == old(pool.disabled)
    ensures pool.ObjectsGrow() && pool.pending == old(pool.pending) && account in pool.accounts
    ensures preference == Recalled(old(pool.affinity), pool.accounts.Keys, key, now)
    ensures pool.history == Noted(old(pool.history), key, account, now)
    ensures old(|pool.affinity|) < AFFINITY_MAX_ENTRIES ==>
      && Pruned(Noted(old(pool.affinity), key, account, now), pool.affinity, pool.accounts.Keys, now)
      && |pool.affinity| <= old(|pool.affinity|) + 1
    ensures var all := old(Listing(pool, order));
      && at < |all| && Listing(pool, order) == Claimed(all, at, now)
      && account == Taken(Ready(all, pool.disabled, now), preference)
      && Ready(Listing(pool, order), pool.disabled, now) == StickyTurn(Ready(all, pool.disabled, now), preference, now)
  {
    hide Pool.Loads, Pool.AffinityAgrees, Pool.Decided, Candidates, FirstHit, Hit, Ready, StickyTurn, Pruned,
      Recalled, Taken, Claimed, IsListing, Noted;
    var acct;
    acct, preference, at := TakePreferred(pool, request, key, now, order);
    account := acct.id;
    PrunedNoted(old(pool.affinity), pool.affinity, pool.accounts.Keys, key, account, now);
    PrunedShrinks(old(pool.affinity), pool.affinity, pool.accounts.Keys, now);
    NotedGrows(pool.affinity, key, account, now);
    Keep(pool, request, acct, key, now);
  }

  lemma NotedGrows(table: map<string, Entry>, key: Option<string>, account: string, now: nat)
    ensures |Noted(table, key, account, now)| <= |table| + 1
  {
  }

  lemma PrunedShrinks(a: map<string, Entry>, b: map<string, Entry>, ids: set<string>, now: nat)
    requires Pruned(a, b, ids, now)
    ensures |b| <= |a|
  {
    assert b.Keys <= a.Keys;
    SubsetCount(b.Keys, a.Keys);
  }

  /** One of several, with the ready accounts as before but for its turn. */
  method NextSticky(pool: Pool, request: nat, key: Option<string>, now: nat, ghost order: seq<string>,
                    ghost clock: nat, ghost n: nat)
    returns (account: string, ghost preference: Option<string>)
    requires pool.Valid() && request !in pool.pending && Listed(pool, order) && clock <= now <= clock + n
    requires Settled(Listing(pool, order), clock, n) && Ready(Listing(pool, order), pool.disabled, clock) != []
    modifies pool, pool.objects
    ensures pool.Valid() && pool.accounts == old(pool.accounts) && pool.disabled == old(pool.disabled)
    ensures pool.ObjectsGrow() && pool.pending == old(pool.pending) && account in pool.accounts
    ensures preference == Recalled(old(pool.affinity), pool.accounts.Keys, key, now)
    ensures preference.Some? ==> preference == Recalled(old(pool.history), pool.accounts.Keys, key, now)
    ensures pool.history == Noted(old(pool.history), key, account, now)
    ensures old(|pool.affinity|) < AFFINITY_MAX_ENTRIES ==>
      && Pruned(Noted(old(pool.affinity), key, account, now), pool.affinity, pool.accounts.Keys, now)
      && |pool.affinity| <= old(|pool.affinity|) + 1
    ensures Settled(Listing(pool, order), clock, n)
    ensures var ready := old(Ready(Listing(pool, order), pool.disabled, clock));
      && account == Taken(ready, preference)
      && Ready(Listing(pool, order), pool.disabled, clock) == StickyTurn(ready, preference, now)
  {
    hide Pool.Loads, Pool.Decided, Candidates, Ready, StickyTurn, Settled, Recalled, Taken, Pruned, Noted;
    ghost var all, affinity, history := Listing(pool, order), pool.affinity, pool.history;
    ReadyStays(all, pool.disabled, clock, n, now);
    ghost var at;
    account, preference, at := TakeSticky(pool, request, key, now, order);
    if preference.Some? {
      HistoryRecalls(affinity, history, pool.accounts.Keys, key, now);
    }
    TouchedSettles(all, at, all[at].inflight + 1, now, clock, n);
    ReadyStays(Listing(pool, order), pool.disabled, clock, n, now);
  }

  /** What is known of a run of requests with cache keys: the accounts taken, and that each
      preference is what was last remembered for its key. */
  ghost predicate StickyRun(ready: seq<Candidate>, now: seq<Candidate>, history: map<string, Entry>,
                            ids: set<string>, keys: seq<Option<string>>, preferred: seq<Option<string>>,
                            chosen: seq<string>, clock: nat)
  {
    && ready != [] && now == AcquireRun(ready, preferred, clock) && Taking(ready, preferred, chosen, clock)
    && Recalling(history, ids, keys, preferred, chosen, clock, false) && forall account <- chosen :: account in ids
  }

  lemma NoStickyRun(ready: seq<Candidate>, history: map<string, Entry>, table: map<string, Entry>,
                    ids: set<string>, clock: nat)
    requires ready != []
    ensures StickyRun(ready, ready, history, ids, [], [], [], clock) && Kept(history, [], [], clock) == history
    ensures Roomy(table, table, ids, [], [], [], clock)
  {
  }

  lemma StickyRunGoesOn(ready: seq<Candidate>, before: seq<Candidate>, history: map<string, Entry>, ids: set<string>,
                        keys: seq<Option<string>>, preferred: seq<Option<string>>, chosen: seq<string>, clock: nat,
                        key: Option<string>, preference: Option<string>, account: string)
    requires StickyRun(ready, before, history, ids, keys, preferred, chosen, clock) && account in ids && before != []
    requires account == Taken(before, preference)
    requires preference.Some? ==>
      preference == Recalled(Kept(history, keys, chosen, clock), ids, key, clock + |keys| + 1)
    ensures StickyRun(ready, StickyTurn(before, preference, clock + |keys| + 1), history, ids,
                      keys + [key], preferred + [preference], chosen + [account], clock)
  {
    hide Taking, Recalling, StickyTurn, AcquireRun, Taken, Recalled, Kept, Noted;
    OneMoreTaken(ready, preferred, chosen, clock, preference, account);
    OneMoreRecalled(history, ids, keys, preferred, chosen, clock, false, key, preference, account);
    OneMoreSticky(ready, preferred, clock, preference);
    assert Recalling(history, ids, keys, preferred, chosen, clock, false);
    RecallingFits(history, ids, keys, preferred, chosen, clock, false);
  }

  lemma RecallingFits(table: map<string, Entry>, ids: set<string>, keys: seq<Option<string>>,
                      preferred: seq<Option<string>>, chosen: seq<string>, clock: nat, always: bool)
    requires Recalling(table, ids, keys, preferred, chosen, clock, always)
    ensures |preferred| == |chosen| == |keys|
  {
  }

  lemma OneMoreSticky(ready: seq<Candidate>, preferred: seq<Option<string>>, clock: nat, preference: Option<string>)
    requires ready != []
    ensures AcquireRun(ready, preferred + [preference], clock)
         == StickyTurn(AcquireRun(ready, preferred, clock), preference, clock + |preferred| + 1)
  {
    assert DropLast(preferred + [preference]) == preferred;
  }

  /** What the table holds of such a run, while it has room. */
  ghost predicate Roomy(table: map<string, Entry>, affinity: map<string, Entry>, ids: set<string>,
                        keys: seq<Option<string>>, preferred: seq<Option<string>>, chosen: seq<string>, clock: nat)
  {
    && Recalling(table, ids, keys, preferred, chosen, clock, true) && |affinity| <= |table| + |keys|
    && Pruned(Kept(table, keys, chosen, clock), affinity, ids, clock + |keys|)
  }

  lemma RoomyGoesOn(table: map<string, Entry>, before: map<string, Entry>, affinity: map<string, Entry>,
                    ids: set<string>, keys: seq<Option<string>>, preferred: seq<Option<string>>, chosen: seq<string>,
                    clock: nat, key: Option<string>, preference: Option<string>, account: string)
    requires Roomy(table, before, ids, keys, preferred, chosen, clock)
    requires preference == Recalled(before, ids, key, clock + |keys| + 1)
    requires Pruned(Noted(before, key, account, clock + |keys| + 1), affinity, ids, clock + |keys| + 1)
    requires |affinity| <= |before| + 1
    ensures Roomy(table, affinity, ids, keys + [key], preferred + [preference], chosen + [account], clock)
  {
    hide Recalled, Recalling, Kept, Noted, Pruned;
    RecallingFits(table, ids, keys, preferred, chosen, clock, true);
    var kept, now := Kept(table, keys, chosen, clock), clock + |keys| + 1;
    PrunedRecalls(kept, before, ids, now - 1, key, now);
    TableGoesOn(kept, before, affinity, ids, key, account, now);
    OneMoreRecalled(table, ids, keys, preferred, chosen, clock, true, key, preference, account);
    StaysRoomy(table, affinity, ids, keys + [key], preferred + [preference], chosen + [account], clock,
               Noted(kept, key, account, now));
  }

  lemma TableGoesOn(kept: map<string, Entry>, before: map<string, Entry>, after: map<string, Entry>, ids: set<string>,
                    key: Option<string>, account: string, now: nat)
    requires now > 0 && Pruned(kept, before, ids, now - 1) && Pruned(Noted(before, key, account, now), after, ids, now)
    ensures Pruned(Noted(kept, key, account, now), after, ids, now)
  {
    hide Pruned, Noted;
    PrunedStays(kept, before, ids, now - 1, now);
    PrunedNoted(kept, before, ids, key, account, now);
    PrunedTwice(Noted(kept, key, account, now), Noted(before, key, account, now), after, ids, now);
  }

  lemma StaysRoomy(table: map<string, Entry>, affinity: map<string, Entry>, ids: set<string>,
                   keys: seq<Option<string>>, preferred: seq<Option<string>>, chosen: seq<string>, clock: nat,
                   kept: map<string, Entry>)
    requires Recalling(table, ids, keys, preferred, chosen, clock, true) && |affinity| <= |table| + |keys|
    requires Kept(table, keys, chosen, clock) == kept && Pruned(kept, affinity, ids, clock + |keys|)
    ensures Roomy(table, affinity, ids, keys, preferred, chosen, clock)
  {
  }

  /** Requests that only take accounts, each perhaps with a cache key: the ready accounts go
      through `AcquireRun`. A request prefers nothing or the account last remembered for its key,
      and while the table has room always the latter. */
  method StickyRequests(pool: Pool, first: nat, keys: seq<Option<string>>, clock: nat, ghost order: seq<string>)
    returns (chosen: seq<string>, ghost preferred: seq<Option<string>>)
    requires pool.Valid() && (forall r <- pool.pending :: r < first) && Listed(pool, order)
    requires Settled(Listing(pool, order), clock, |keys|) && Ready(Listing(pool, order), pool.disabled, clock) != []
    modifies pool, pool.objects
    ensures pool.Valid() && pool.accounts == old(pool.accounts) && pool.disabled == old(pool.disabled)
    ensures StickyRun(old(Ready(Listing(pool, order), pool.disabled, clock)),
                      Ready(Listing(pool, order), pool.disabled, clock),
                      old(pool.history), pool.accounts.Keys, keys, preferred, chosen, clock)
    ensures old(|pool.affinity|) + |keys| <= AFFINITY_MAX_ENTRIES ==>
      Recalling(old(pool.affinity), pool.accounts.Keys, keys, preferred, chosen, clock, true)
  {
    hide Pool.Loads, Pool.AffinityAgrees, Pool.Decided, Candidates, Ready, StickyTurn, Settled, Recalled, Taken, Pruned,
      Noted, StickyRun, Roomy, Kept, Listing;
    ghost var ready, table, history := Ready(Listing(pool, order), pool.disabled, clock), pool.affinity, pool.history;
    ghost var ids, roomy := pool.accounts.Keys, |table| + |keys| <= AFFINITY_MAX_ENTRIES;
    chosen, preferred := [], [];
    NoStickyRun(ready, history, table, ids, clock);
    for k := 0 to |keys|
      invariant pool.Valid() && pool.accounts == old(pool.accounts) && pool.disabled == old(pool.disabled)
      invariant pool.ObjectsGrow() && (forall r <- pool.pending :: r < first + k) && |chosen| == k
      invariant Settled(Listing(pool, order), clock, |keys|)
      invariant StickyRun(ready, Ready(Listing(pool, order), pool.disabled, clock), history, ids, keys[..k], preferred,
                          chosen, clock)
      invariant pool.history == Kept(history, keys[..k], chosen, clock)
      invariant roomy ==> Roomy(table, pool.affinity, ids, keys[..k], preferred, chosen, clock)
    {
      ghost var before, affinity := Ready(Listing(pool, order), pool.disabled, clock), pool.affinity;
      StickyRunIsReady(ready, before, history, ids, keys[..k], preferred, chosen, clock);
      var account;
      ghost var preference;
      account, preference := NextSticky(pool, first + k, keys[k], clock + k + 1, order, clock, |keys|);
      assert keys[..k + 1] == keys[..k] + [keys[k]];
      StickyRunGoesOn(ready, before, history, ids, keys[..k], preferred, chosen, clock, keys[k], preference, account);
      KeptGoesOn(history, keys[..k], chosen, clock, keys[k], account);
      if roomy {
        RoomFor(table, affinity, ids, keys[..k], preferred, chosen, clock);
        RoomyGoesOn(table, affinity, pool.affinity, ids, keys[..k], preferred, chosen, clock, keys[k], preference,
                    account);
      }
      chosen, preferred := chosen + [account], preferred + [preference];
    }
    assert keys[..|keys|] == keys;
    if roomy {
      RoomFor(table, pool.affinity, ids, keys, preferred, chosen, clock);
    }
  }

  lemma StickyRunIsReady(ready: seq<Candidate>, now: seq<Candidate>, history: map<string, Entry>, ids: set<string>,
                         keys: seq<Option<string>>, preferred: seq<Option<string>>, chosen: seq<string>, clock: nat)
    requires StickyRun(ready, now, history, ids, keys, preferred, chosen, clock)
    ensures now != [] && |preferred| == |chosen| == |keys|
  {
  }

  lemma KeptGoesOn(table: map<string, Entry>, keys: seq<Option<string>>, chosen: seq<string>, clock: nat,
                   key: Option<string>, account: string)
    requires |chosen| == |keys|
    ensures Kept(table, keys + [key], chosen + [account], clock)
         == Noted(Kept(table, keys, chosen, clock), key, account, clock + |keys| + 1)
  {
    assert DropLast(keys + [key]) == keys && DropLast(chosen + [account]) == chosen;
  }

  lemma RoomFor(table: map<string, Entry>, affinity: map<string, Entry>, ids: set<string>,
                keys: seq<Option<string>>, preferred: seq<Option<string>>, chosen: seq<string>, clock: nat)
    requires Roomy(table, affinity, ids, keys, preferred, chosen, clock)
    ensures |affinity| <= |table| + |keys|
    ensures Recalling(table, ids, keys, preferred, chosen, clock, true)
  {
  }

  /** From zero load, whatever the requests prefer, the spread stays within `stickySlack` + 1. */
  method StickyRequestsStayBalanced(pool: Pool, first: nat, keys: seq<Option<string>>, clock: nat,
                                    ghost order: seq<string>)
    requires pool.Valid() && (forall r <- pool.pending :: r < first) && Listed(pool, order)
    requires var ready := Ready(Listing(pool, order), pool.disabled, clock);
      ready != [] && forall k :: 0 <= k < |ready| ==> ready[k].inflight == 0
    requires Settled(Listing(pool, order), clock, |keys|)
    modifies pool, pool.objects
    ensures pool.Valid() && Listed(pool, order)
    ensures Spread(Ready(Listing(pool, order), pool.disabled, clock), STICKY_SLACK + 1)
  {
    ghost var all := Listing(pool, order);
    ListingsAreUnique(order, pool.accounts.Keys, all);
    ReadyAreUnique(all, pool.disabled, clock);
    ghost var ready := Ready(all, pool.disabled, clock);
    var chosen;
    ghost var preferred;
    chosen, preferred := StickyRequests(pool, first, keys, clock, order);
    StickinessKeepsBalance(ready, preferred, clock);
  }
}
