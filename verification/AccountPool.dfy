/** internal/app/accounts.go: the pool of accounts. Each method is one section the code runs
    under the pool's mutex, so that every interleaving of requests is a sequence of calls.
    `objects`, `leases`, `live`, `pending`, `history` and `log` are bookkeeping of the model:
    every account object and lease ever made, the unreleased leases, which object each
    request has claimed while it borrows credentials, the last thing remembered for each
    key, and what each request had the pool do. A request is a number: one flow of control,
    so it has one claim at a time. The files are parameters, over a finite universe
    of ids. Times are nanoseconds; 0 is the zero time. */
module AccountPool {
  import opened Prelude
  import opened Scheduling
  import opened AccountOrder

  const SECOND: nat := 1_000_000_000
  const RESCAN_INTERVAL: nat := 10 * SECOND
  const MAX_COOLDOWN: nat := 8 * 24 * 3600 * SECOND
  /** No account rests for longer than eight days. */
  function Capped(d: int): int {
    if d > MAX_COOLDOWN then MAX_COOLDOWN else d
  }

  const AFFINITY_TTL: nat := 6 * 3600 * SECOND
  const AFFINITY_MAX_ENTRIES: nat := 20000

  datatype Entry = Entry(account: string, at: nat)

  /** What a scan reads: the logins, the stamps of their files, and who is disabled. */
  datatype Disk = Disk(present: set<string>, stamps: map<string, string>, disabled: set<string>)

  datatype Hints = Hints(reasoningKeys: seq<string>, stickyKey: Option<string>)

  class PoolAccount {
    const id: string
    var inflight: int
    var served: int
    var lastUsed: nat
    var coolUntil: int
    var coolStamp: string
    var usage: Usage

    constructor (id: string)
      ensures this.id == id && inflight == 0 && served == 0 && lastUsed == 0
      ensures coolUntil == 0 && coolStamp == "" && usage == Usage(None, None)
    {
      this.id, inflight, served, lastUsed := id, 0, 0, 0;
      coolUntil, coolStamp, usage := 0, "", Usage(None, None);
    }

    function View(): Candidate
      reads this
    {
      Candidate(id, inflight, usage, lastUsed, coolUntil)
    }
  }

  class AccountLease {
    const owner: nat
    const acct: PoolAccount
    var pinMissed: bool
    var released: bool

    constructor (owner: nat, acct: PoolAccount, pinMissed: bool)
      ensures this.owner == owner && this.acct == acct && this.pinMissed == pinMissed && !released
    {
      this.owner, this.acct, this.pinMissed, released := owner, acct, pinMissed, false;
    }
  }

  // ------------------------------------------------------------------ affinity, on values

  predicate Alive(entry: Entry, ids: set<string>, now: nat) {
    now - entry.at <= AFFINITY_TTL && entry.account in ids
  }

  function Hit(affinity: map<string, Entry>, ids: set<string>, key: string, now: nat): Option<string> {
    if key in affinity && Alive(affinity[key], ids, now) then Some(affinity[key].account) else None
  }

  /** The first key with a live affinity decides. */
  function FirstHit(affinity: map<string, Entry>, ids: set<string>, keys: seq<string>, now: nat): Option<string> {
    if keys == [] then None
    else if Hit(affinity, ids, keys[0], now).Some? then Hit(affinity, ids, keys[0], now)
    else FirstHit(affinity, ids, keys[1..], now)
  }

  /** `b` is `a` without some entries that are dead anyway. */
  ghost predicate Pruned(a: map<string, Entry>, b: map<string, Entry>, ids: set<string>, now: nat) {
    && (forall k <- b :: k in a && b[k] == a[k])
    && (forall k <- a :: Alive(a[k], ids, now) ==> k in b)
  }

  lemma {:induction false} PruningHidesNothing(a: map<string, Entry>, b: map<string, Entry>, ids: set<string>,
                                               keys: seq<string>, now: nat)
    requires Pruned(a, b, ids, now)
    ensures forall k :: Hit(b, ids, k, now) == Hit(a, ids, k, now)
    ensures FirstHit(b, ids, keys, now) == FirstHit(a, ids, keys, now)
  {
    if keys != [] {
      PruningHidesNothing(a, b, ids, keys[1..], now);
    }
  }

  // ------------------------------------------------------------------ candidates

  /** The candidates in listing order. */
  ghost function Candidates(accounts: map<string, PoolAccount>, order: seq<string>): (v: seq<Candidate>)
    requires forall id <- order :: id in accounts
    reads accounts.Values
    ensures |v| == |order| && forall i :: 0 <= i < |order| ==> v[i] == accounts[order[i]].View()
  {
    if order == [] then [] else Candidates(accounts, DropLast(order)) + [accounts[Last(order)].View()]
  }

  /** The candidates of a listing that are ready, or that are cooling down. */
  function Eligible(list: seq<Candidate>, barred: set<string>, now: nat, ready: bool): seq<Candidate> {
    if list == [] then []
    else
      var c := Last(list);
      Eligible(DropLast(list), barred, now, ready) +
      if c.id !in barred && (now >= c.coolUntil) == ready then [c] else []
  }

  lemma {:induction false} EligibleMembers(list: seq<Candidate>, barred: set<string>, now: nat, ready: bool)
    ensures forall c ::
      c in Eligible(list, barred, now, ready) <==> c in list && c.id !in barred && (now >= c.coolUntil) == ready
  {
    if list != [] {
      EligibleMembers(DropLast(list), barred, now, ready);
      assert list == DropLast(list) + [Last(list)];
    }
  }

  lemma NextEligible(all: seq<Candidate>, i: nat, barred: set<string>, now: nat, ready: bool)
    requires i < |all|
    ensures Eligible(all[..i + 1], barred, now, ready) == Eligible(all[..i], barred, now, ready) +
      if all[i].id !in barred && (now >= all[i].coolUntil) == ready then [all[i]] else []
  {
    PrefixUnfolds(all, i);
  }

  function ChoiceAmong(all: seq<Candidate>, barred: set<string>, now: nat, pinned: Option<string>,
                       preferred: Option<string>)
    : Option<Pick>
  {
    Choose(Eligible(all, barred, now, true), Eligible(all, barred, now, false), pinned, preferred)
  }

  /** An account is chosen unless all are barred, and never a barred one. */
  lemma ChoiceIsEligible(order: seq<string>, all: seq<Candidate>, ids: set<string>, barred: set<string>, now: nat,
                         pinned: Option<string>, preferred: Option<string>)
    requires IsListing(order, ids) && |all| == |order|
    requires forall i :: 0 <= i < |all| ==> all[i].id == order[i]
    ensures var pick := ChoiceAmong(all, barred, now, pinned, preferred);
      && (pick == None <==> ids <= barred)
      && (pick.Some? ==>
            pick.value.candidate in all && pick.value.candidate.id in ids && pick.value.candidate.id !in barred)
  {
    var ready, cooling := Eligible(all, barred, now, true), Eligible(all, barred, now, false);
    EligibleMembers(all, barred, now, true);
    EligibleMembers(all, barred, now, false);
    ChoiceIsSafe(ready, cooling, pinned, preferred);
    forall c <- all
      ensures c.id in ids
    {
      var i :| 0 <= i < |all| && all[i] == c;
      assert order[i] in order;
    }
    if ready == [] && cooling == [] {
      forall id <- ids
        ensures id in barred
      {
        var i :| 0 <= i < |order| && order[i] == id;
        assert all[i] in all && all[i] !in ready && all[i] !in cooling;
      }
    } else {
      var c := if ready != [] then ready[0] else cooling[0];
      assert c in ready || c in cooling;
    }
  }

  /** The pick is an account the request may use, and says whether it is away from home. */
  predicate Suits(pick: Pick, ids: set<string>, barred: set<string>, home: Option<string>) {
    && pick.candidate.id in ids && pick.candidate.id !in barred
    && (pick.pinMissed <==> home.Some? && home.value != pick.candidate.id)
  }

  lemma ChoiceSuits(order: seq<string>, all: seq<Candidate>, ids: set<string>, barred: set<string>, now: nat,
                    home: Option<string>, preferred: Option<string>)
    requires IsListing(order, ids) && |all| == |order|
    requires forall i :: 0 <= i < |all| ==> all[i].id == order[i]
    ensures var pick := ChoiceAmong(all, barred, now, home, preferred);
      (pick == None <==> ids <= barred) && (pick.Some? ==> Suits(pick.value, ids, barred, home))
  {
    ChoiceIsEligible(order, all, ids, barred, now, home, preferred);
    ChoiceIsSafe(Eligible(all, barred, now, true), Eligible(all, barred, now, false), home, preferred);
  }

  /** What a claim read, and the account it came to. */
  datatype Decision = Decision(request: nat, account: string, hints: Hints, excluded: set<string>, off: set<string>,
                               affinity: map<string, Entry>, ids: set<string>, candidates: seq<Candidate>, now: nat)

  /** What the request excluded, and what an operator switched off. */
  function Barred(d: Decision): set<string> {
    d.excluded + d.off
  }

  /** What the pool does for a request: choose and claim an account for it, remember an account
      for a key, or let an account rest. */
  datatype Step =
    | Chose(decision: Decision)
    | Remembered(request: nat, key: string, account: string)
    | Rested(request: nat, account: string, length: int)

  /** The account whose reasoning a request replays, if one is known. */
  function HomeOf(hints: Hints, affinity: map<string, Entry>, ids: set<string>, now: nat): Option<string> {
    FirstHit(affinity, ids, hints.reasoningKeys, now)
  }

  /** The account its cache key prefers, if there is one. */
  function PreferenceOf(hints: Hints, affinity: map<string, Entry>, ids: set<string>, now: nat): Option<string> {
    if hints.stickyKey.Some? then Hit(affinity, ids, hints.stickyKey.value, now) else None
  }

  function Home(d: Decision): Option<string> {
    HomeOf(d.hints, d.affinity, d.ids, d.now)
  }

  /** The scheduler's choice on what the claim read. */
  function ChoiceOf(d: Decision): Option<Pick> {
    ChoiceAmong(d.candidates, Barred(d), d.now, Home(d), PreferenceOf(d.hints, d.affinity, d.ids, d.now))
  }

  predicate Picks(d: Decision, pick: Option<Pick>) {
    pick == ChoiceOf(d)
  }

  /** The claim went where the scheduler sent it, among the accounts of the pool in listing order. */
  ghost predicate Scheduled(d: Decision) {
    && IsListing(IdsOf(d.candidates), d.ids)
    && forall pick: Option<Pick> :: Picks(d, pick) ==> pick.Some? && pick.value.candidate.id == d.account
  }

  lemma ChoiceIsScheduled(order: seq<string>, d: Decision, pick: Option<Pick>)
    requires IsListing(order, d.ids) && |d.candidates| == |order|
    requires forall i :: 0 <= i < |order| ==> d.candidates[i].id == order[i]
    requires pick == ChoiceOf(d) && (pick.Some? ==> d.account == pick.value.candidate.id)
    ensures pick == None <==> d.ids <= Barred(d)
    ensures pick.Some? ==> Scheduled(d) && Suits(pick.value, d.ids, Barred(d), Home(d))
  {
    assert IdsOf(d.candidates) == order;
    ChoiceSuits(order, d.candidates, d.ids, Barred(d), d.now, Home(d),
                PreferenceOf(d.hints, d.affinity, d.ids, d.now));
  }

  // What a scheduled claim means, on what it read.

  predicate Usable(d: Decision, c: Candidate) {
    c.id !in d.excluded && c.id !in d.off
  }

  predicate ReadyFor(d: Decision, c: Candidate) {
    Usable(d, c) && c.coolUntil <= d.now
  }

  lemma {:induction false} EligibleKeepsOrder(list: seq<Candidate>, barred: set<string>, now: nat, ready: bool,
                                              i: nat, j: nat) returns (p: nat, q: nat)
    requires i < j < |list|
    requires list[i].id !in barred && (now >= list[i].coolUntil) == ready
    requires list[j].id !in barred && (now >= list[j].coolUntil) == ready
    ensures p < q < |Eligible(list, barred, now, ready)|
    ensures Eligible(list, barred, now, ready)[p] == list[i] && Eligible(list, barred, now, ready)[q] == list[j]
  {
    var before := DropLast(list);
    if j == |before| {
      EligibleMembers(before, barred, now, ready);
      assert before[i] in before && before[i] in Eligible(before, barred, now, ready);
      p :| 0 <= p < |Eligible(before, barred, now, ready)| && Eligible(before, barred, now, ready)[p] == list[i];
      q := |Eligible(before, barred, now, ready)|;
    } else {
      p, q := EligibleKeepsOrder(before, barred, now, ready, i, j);
    }
  }

  lemma {:induction false} EligibleAreUnique(list: seq<Candidate>, barred: set<string>, now: nat, ready: bool)
    requires UniqueIds(list)
    ensures UniqueIds(Eligible(list, barred, now, ready))
  {
    if list != [] {
      var p, x := DropLast(list), Last(list);
      var r := Eligible(p, barred, now, ready);
      EligibleAreUnique(p, barred, now, ready);
      EligibleMembers(p, barred, now, ready);
      assert Eligible(list, barred, now, ready) == r || Eligible(list, barred, now, ready) == r + [x];
      hide Eligible;
      forall c <- r
        ensures c.id != x.id
      {
        var i :| 0 <= i < |p| && p[i] == c;
        assert list[i] == c;
      }
    }
  }

  /** Where the claimed account stands in the listing. */
  lemma ScheduledAt(d: Decision) returns (at: nat)
    requires Scheduled(d)
    ensures at < |d.candidates| && d.candidates[at].id == d.account && Usable(d, d.candidates[at])
    ensures ChoiceOf(d).Some? && ChoiceOf(d).value.candidate == d.candidates[at]
  {
    var all, home, preferred := d.candidates, Home(d), PreferenceOf(d.hints, d.affinity, d.ids, d.now);
    var ready, cooling := Eligible(all, Barred(d), d.now, true), Eligible(all, Barred(d), d.now, false);
    ReadyAreEligible(d);
    assert Picks(d, ChoiceOf(d));
    hide Eligible, IsListing, Picks, ReadyFor, Usable, Barred;
    ChoiceIsSafe(ready, cooling, home, preferred);
    var c := ChoiceOf(d).value.candidate;
    assert ChoiceOf(d) == Choose(ready, cooling, home, preferred);
    assert c in ready || c in cooling;
    assert c in all;
    at :| 0 <= at < |all| && all[at] == c;
  }

  lemma ReadyMeans(d: Decision, at: nat)
    requires UniqueIds(d.candidates) && at < |d.candidates| && exists k <- d.candidates :: ReadyFor(d, k)
    requires ChoiceOf(d).Some? && ChoiceOf(d).value.candidate == d.candidates[at]
    ensures var all, c, home := d.candidates, d.candidates[at], Home(d);
      var preferred := PreferenceOf(d.hints, d.affinity, d.ids, d.now);
      && ReadyFor(d, c)
      && if home.Some? && exists k <- all :: ReadyFor(d, k) && k.id == home.value then c.id == home.value
         else if home.None? && preferred.Some? && Affords(d, preferred.value) then c.id == preferred.value
         else forall j :: 0 <= j < |all| && ReadyFor(d, all[j]) ==>
           !Better(all[j], c) && (j < at ==> Better(c, all[j]))
  {
    var all, home, preferred := d.candidates, Home(d), PreferenceOf(d.hints, d.affinity, d.ids, d.now);
    var ready, cooling := Eligible(all, Barred(d), d.now, true), Eligible(all, Barred(d), d.now, false);
    EligibleAreUnique(all, Barred(d), d.now, true);
    ReadyAreEligible(d);
    hide Eligible, Better, Home, PreferenceOf, Affords, Affordable, UniqueIds;
    ChoiceIsSound(ready, cooling, home, preferred);
    if !(home.Some? && exists k <- ready :: k.id == home.value)
      && !(home.None? && preferred.Some? && Affordable(ready, preferred.value))
    {
      UnpreferredIsBest(ready, cooling, home, preferred);
      FirstIsBest(d, at);
    }
  }

  lemma FirstIsBest(d: Decision, at: nat)
    requires UniqueIds(d.candidates) && at < |d.candidates| && ReadyFor(d, d.candidates[at])
    requires var ready := Eligible(d.candidates, Barred(d), d.now, true);
      ready != [] && ready[Best(ready)] == d.candidates[at]
    ensures forall j :: 0 <= j < at && ReadyFor(d, d.candidates[j]) ==> Better(d.candidates[at], d.candidates[j])
  {
    var all, ready := d.candidates, Eligible(d.candidates, Barred(d), d.now, true);
    EligibleAreUnique(all, Barred(d), d.now, true);
    hide Eligible, Better, UniqueIds, Best;
    forall j | 0 <= j < at && ReadyFor(d, all[j])
      ensures Better(all[at], all[j])
    {
      var p, q := EligibleKeepsOrder(all, Barred(d), d.now, true, j, at);
      SamePlace(ready, q, Best(ready));
      FirstOfEquals(ready, p);
    }
  }

  lemma CoolingMeans(d: Decision, at: nat)
    requires UniqueIds(d.candidates) && at < |d.candidates| && !exists k <- d.candidates :: ReadyFor(d, k)
    requires Usable(d, d.candidates[at]) && ChoiceOf(d).Some? && ChoiceOf(d).value.candidate == d.candidates[at]
    ensures var all, c := d.candidates, d.candidates[at];
      forall j :: 0 <= j < |all| && Usable(d, all[j]) ==>
        c.coolUntil <= all[j].coolUntil && (j < at ==> c.coolUntil < all[j].coolUntil)
  {
    var all := d.candidates;
    var ready, cooling := Eligible(all, Barred(d), d.now, true), Eligible(all, Barred(d), d.now, false);
    EligibleAreUnique(all, Barred(d), d.now, false);
    ReadyAreEligible(d);
    hide Eligible, UniqueIds, Home, PreferenceOf, Affords, Affordable, IndexOf;
    assert ready == [] && cooling[Soonest(cooling)] == all[at];
    hide ChoiceOf, ChoiceAmong, Choose;
    forall j | 0 <= j < |all| && Usable(d, all[j])
      ensures all[at].coolUntil <= all[j].coolUntil && (j < at ==> all[at].coolUntil < all[j].coolUntil)
    {
      assert all[j] in all && !ReadyFor(d, all[j]) && !ReadyFor(d, all[at]);
      assert all[j] in cooling;
      if j < at {
        var p, q := EligibleKeepsOrder(all, Barred(d), d.now, false, j, at);
        SamePlace(cooling, q, Soonest(cooling));
      }
    }
  }

  /** The claim took an account that was neither excluded nor switched off. While one was ready:
      the request's home, if ready; else, for a request without one, the account its key prefers,
      if ready and at most two requests busier than any other; else none was better, and none
      earlier in the listing as good. While none was: none recovered sooner, and none earlier as
      soon. */
  lemma ScheduledMeans(d: Decision) returns (at: nat)
    requires Scheduled(d)
    ensures at < |d.candidates| && d.candidates[at].id == d.account && Usable(d, d.candidates[at])
    ensures var all, c, home := d.candidates, d.candidates[at], Home(d);
      var preferred := PreferenceOf(d.hints, d.affinity, d.ids, d.now);
      if exists k <- all :: ReadyFor(d, k) then
        && ReadyFor(d, c)
        && if home.Some? && exists k <- all :: ReadyFor(d, k) && k.id == home.value then c.id == home.value
           else if home.None? && preferred.Some? && Affords(d, preferred.value) then c.id == preferred.value
           else forall j :: 0 <= j < |all| && ReadyFor(d, all[j]) ==>
             !Better(all[j], c) && (j < at ==> Better(c, all[j]))
      else forall j :: 0 <= j < |all| && Usable(d, all[j]) ==>
        c.coolUntil <= all[j].coolUntil && (j < at ==> c.coolUntil < all[j].coolUntil)
  {
    at := ScheduledAt(d);
    CandidatesAreUnique(d);
    hide *;
    if exists k <- d.candidates :: ReadyFor(d, k) {
      ReadyMeans(d, at);
    } else {
      CoolingMeans(d, at);
    }
  }

  /** Some ready account has this id and is at most two requests busier than any other. */
  ghost predicate Affords(d: Decision, id: string) {
    exists c <- d.candidates :: ReadyFor(d, c) && c.id == id &&
      forall k <- d.candidates :: ReadyFor(d, k) ==> c.inflight <= k.inflight + 2
  }

  lemma CandidatesAreUnique(d: Decision)
    requires Scheduled(d)
    ensures UniqueIds(d.candidates)
  {
    ListingIsDistinct(IdsOf(d.candidates));
    assert forall i :: 0 <= i < |d.candidates| ==> IdsOf(d.candidates)[i] == d.candidates[i].id;
  }

  lemma ReadyAreEligible(d: Decision)
    ensures var ready, cooling :=
        Eligible(d.candidates, Barred(d), d.now, true), Eligible(d.candidates, Barred(d), d.now, false);
      && (forall c :: c in ready <==> c in d.candidates && ReadyFor(d, c))
      && (forall c :: c in cooling <==> c in d.candidates && Usable(d, c) && !ReadyFor(d, c))
      && (ready != [] <==> exists k <- d.candidates :: ReadyFor(d, k))
      && forall id :: Affordable(ready, id) <==> Affords(d, id)
  {
    var ready := Eligible(d.candidates, Barred(d), d.now, true);
    EligibleMembers(d.candidates, Barred(d), d.now, true);
    EligibleMembers(d.candidates, Barred(d), d.now, false);
    assert ready != [] ==> ready[0] in ready;
  }

  lemma SamePlace(list: seq<Candidate>, i: nat, j: nat)
    requires UniqueIds(list) && i < |list| && j < |list| && list[i] == list[j]
    ensures i == j
  {
  }

  lemma UnpreferredIsBest(ready: seq<Candidate>, cooling: seq<Candidate>, pinned: Option<string>,
                          preferred: Option<string>)
    requires ready != [] && UniqueIds(ready)
    requires !(pinned.Some? && exists k <- ready :: k.id == pinned.value)
    requires !(pinned.None? && preferred.Some? && Affordable(ready, preferred.value))
    ensures Choose(ready, cooling, pinned, preferred).value.candidate == ready[Best(ready)]
  {
    var best := ready[Best(ready)];
    assert forall k <- ready :: best.inflight <= k.inflight;
    if pinned.None? && preferred.Some? {
      var p := IndexOf(ready, preferred.value);
      assert p < |ready| ==> ready[p] in ready && ready[p].id == preferred.value;
    }
  }

  /** What was remembered for the key is at most six hours old and its account in the pool. */
  predicate Counts(affinity: map<string, Entry>, ids: set<string>, key: string, now: nat) {
    key in affinity && now - affinity[key].at <= 6 * 3600 * SECOND && affinity[key].account in ids
  }

  /** The home is the account of the first key that counts. */
  lemma {:induction false} FirstHitMeans(affinity: map<string, Entry>, ids: set<string>, keys: seq<string>, now: nat)
    ensures match FirstHit(affinity, ids, keys, now)
      case None => forall i :: 0 <= i < |keys| ==> !Counts(affinity, ids, keys[i], now)
      case Some(account) =>
        exists i :: 0 <= i < |keys| && Counts(affinity, ids, keys[i], now) && affinity[keys[i]].account == account &&
                    forall j :: 0 <= j < i ==> !Counts(affinity, ids, keys[j], now)
  {
    if keys != [] && !Counts(affinity, ids, keys[0], now) {
      var rest := keys[1..];
      FirstHitMeans(affinity, ids, rest, now);
      assert forall i :: 0 <= i < |rest| ==> rest[i] == keys[i + 1];
      var home := FirstHit(affinity, ids, rest, now);
      if home.Some? {
        var i :| 0 <= i < |rest| && Counts(affinity, ids, rest[i], now) && affinity[rest[i]].account == home.value &&
                 forall j :: 0 <= j < i ==> !Counts(affinity, ids, rest[j], now);
        assert Counts(affinity, ids, keys[i + 1], now);
        assert forall j :: 0 < j < i + 1 ==> keys[j] == rest[j - 1];
      }
    }
  }

  lemma ListedAt(order: seq<string>, ids: set<string>, all: seq<Candidate>, id: string) returns (i: nat)
    requires IsListing(order, ids) && id in ids && |all| == |order|
    requires forall j :: 0 <= j < |all| ==> all[j].id == order[j]
    ensures i < |order| && order[i] == id && IndexOf(all, id) == i
    ensures forall j :: 0 <= j < |order| && j != i ==> order[j] != id
  {
    ListingIsDistinct(order);
    i :| 0 <= i < |order| && order[i] == id;
  }

  method LeastLoaded(ready: seq<Candidate>) returns (best: Candidate)
    requires ready != []
    ensures best == ready[Best(ready)] && forall k <- ready :: !Better(k, best)
  {
    best := ready[0];
    for i := 1 to |ready|
      invariant best == ready[Best(ready[..i])]
    {
      PrefixUnfolds(ready, i);
      if LessLoaded(ready[i], best) {
        best := ready[i];
      }
    }
    assert ready[..|ready|] == ready;
    forall k <- ready
      ensures !Better(k, best)
    {
      LessLoadedIsBetter(k, best);
    }
  }

  method EarliestToRecover(cooling: seq<Candidate>) returns (first: Candidate)
    requires cooling != []
    ensures first == cooling[Soonest(cooling)]
  {
    first := cooling[0];
    for i := 1 to |cooling|
      invariant first == cooling[Soonest(cooling[..i])]
    {
      PrefixUnfolds(cooling, i);
      if cooling[i].coolUntil < first.coolUntil {
        first := cooling[i];
      }
    }
    assert cooling[..|cooling|] == cooling;
  }

  // ------------------------------------------------------------------ counting claims and leases

  ghost function ClaimsOn(claims: map<nat, PoolAccount>, a: PoolAccount): set<nat> {
    set r | r in claims && claims[r] == a
  }

  ghost function ClaimCount(claims: map<nat, PoolAccount>, a: PoolAccount): nat {
    |ClaimsOn(claims, a)|
  }

  lemma ClaimCountAdd(claims: map<nat, PoolAccount>, r: nat, acct: PoolAccount, a: PoolAccount)
    requires r !in claims
    ensures ClaimCount(claims[r := acct], a) == ClaimCount(claims, a) + if acct == a then 1 else 0
  {
    assert ClaimsOn(claims[r := acct], a) == if acct == a then ClaimsOn(claims, a) + {r} else ClaimsOn(claims, a);
  }

  lemma ClaimCountRemove(claims: map<nat, PoolAccount>, r: nat, a: PoolAccount)
    requires r in claims
    ensures ClaimCount(claims - {r}, a) == ClaimCount(claims, a) - if claims[r] == a then 1 else 0
  {
    assert claims == (claims - {r})[r := claims[r]];
    ClaimCountAdd(claims - {r}, r, claims[r], a);
  }

  ghost function LeasesOn(ls: set<AccountLease>, a: PoolAccount): set<AccountLease> {
    set l | l in ls && l.acct == a
  }

  ghost function LeaseCount(ls: set<AccountLease>, a: PoolAccount): nat {
    |LeasesOn(ls, a)|
  }

  lemma LeaseCountAdd(ls: set<AccountLease>, l: AccountLease, a: PoolAccount)
    requires l !in ls
    ensures LeaseCount(ls + {l}, a) == LeaseCount(ls, a) + if l.acct == a then 1 else 0
  {
    assert LeasesOn(ls + {l}, a) == if l.acct == a then LeasesOn(ls, a) + {l} else LeasesOn(ls, a);
  }

  lemma LeaseCountRemove(ls: set<AccountLease>, l: AccountLease, a: PoolAccount)
    requires l in ls
    ensures LeaseCount(ls - {l}, a) == LeaseCount(ls, a) - if l.acct == a then 1 else 0
  {
    assert ls == (ls - {l}) + {l};
    LeaseCountAdd(ls - {l}, l, a);
  }

  /** A grant turns one claim into one lease, on the same object. */
  lemma GrantBalances(pending: map<nat, PoolAccount>, live: set<AccountLease>, lease: AccountLease,
                      objects: set<PoolAccount>)
    requires lease !in live && lease.owner in pending && pending[lease.owner] == lease.acct
    ensures forall a <- objects ::
      ClaimCount(pending - {lease.owner}, a) + LeaseCount(live + {lease}, a)
        == ClaimCount(pending, a) + LeaseCount(live, a)
  {
    forall a <- objects
      ensures ClaimCount(pending - {lease.owner}, a) + LeaseCount(live + {lease}, a)
           == ClaimCount(pending, a) + LeaseCount(live, a)
    {
      ClaimCountRemove(pending, lease.owner, a);
      LeaseCountAdd(live, lease, a);
    }
  }

  class Pool {
    const universe: set<string>
    var accounts: map<string, PoolAccount>
    var disabled: set<string>
    var scannedAt: nat
    var affinity: map<string, Entry>

    var objects: set<PoolAccount>
    var leases: set<AccountLease>
    var live: set<AccountLease>
    var pending: map<nat, PoolAccount>
    var history: map<string, Entry>
    ghost var log: seq<Step>

    /** Every claim there ever was went to the scheduler's choice. */
    ghost predicate Decided()
      reads this`log
    {
      forall step <- log :: step.Chose? ==> Scheduled(step.decision)
    }

    /** A hit can only repeat what was last remembered, and the table is bounded. */
    ghost predicate AffinityAgrees()
      reads this`affinity, this`history
    {
      && |affinity| <= AFFINITY_MAX_ENTRIES
      && forall k <- affinity :: k in history && affinity[k] == history[k]
    }

    ghost predicate Named()
      reads this`accounts, this`objects
    {
      accounts.Keys <= universe && forall id <- accounts :: accounts[id] in objects && accounts[id].id == id
    }

    /** Each object's load is its pending claims and unreleased leases, whatever happened to its id. */
    ghost predicate Conserved(a: PoolAccount)
      reads this`pending, this`live, a`inflight
    {
      a.inflight == ClaimCount(pending, a) + LeaseCount(live, a)
    }

    ghost predicate Loads()
      reads this`objects, this`leases, this`live, this`pending, objects`inflight, leases`released
    {
      && (forall l <- leases :: l.acct in objects)
      && live <= leases
      && (forall l <- leases :: l.released <==> l !in live)
      && (forall r <- pending :: pending[r] in objects)
      && (forall a <- objects :: Conserved(a))
    }

    /** The unreleased leases of one request. */
    ghost function Held(request: nat): set<AccountLease>
      reads this`live
    {
      set l | l in live && l.owner == request
    }

    ghost predicate Valid()
      reads this`accounts, this`objects, this`leases, this`live, this`pending, this`affinity, this`history
      reads this`log, objects`inflight, leases`released
    {
      Named() && Loads() && AffinityAgrees() && Decided()
    }

    /** Objects are never forgotten, and the others are new. */
    twostate predicate ObjectsGrow()
      reads this`objects
    {
      old(objects) <= objects && forall a <- objects :: a in old(objects) || fresh(a)
    }

    /** A rescan of `disk` would find nothing new. */
    ghost predicate Steady(disk: Disk)
      requires Named()
      reads this`accounts, this`objects, this`disabled, objects`coolStamp
    {
      && disk.present == accounts.Keys && disk.disabled == disabled
      && forall id <- accounts :: !Renewed(disk, id, accounts[id].coolStamp)
    }

    constructor (universe: set<string>)
      ensures Valid() && fresh(objects) && fresh(leases) && this.universe == universe
      ensures accounts == map[] && affinity == map[] && live == {} && pending == map[] && log == []
    {
      this.universe := universe;
      accounts, disabled, scannedAt, affinity := map[], {}, 0, map[];
      objects, leases, live, pending, history := {}, {}, {}, map[], map[];
      log := [];
    }

    // ---------------------------------------------------------------- scanning

    method DropAbsent(present: set<string>)
      requires Valid()
      modifies this`accounts
      ensures Valid() && accounts == map id | id in old(accounts) && id in present :: old(accounts)[id]
    {
      accounts := map id | id in accounts && id in present :: accounts[id];
    }

    /** The bookkeeping of a new object: nothing is in flight on it. */
    method Introduce(a: PoolAccount)
      requires Loads() && a !in objects && a.inflight == 0
      requires (forall r <- pending :: pending[r] != a) && forall l <- leases :: l.acct != a
      modifies this`objects
      ensures Loads() && objects == old(objects) + {a}
    {
      assert LeasesOn(live, a) == {} && ClaimsOn(pending, a) == {};
      assert forall x <- objects :: old(Conserved(x));
      objects := objects + {a};
    }

    method AddAccount(id: string)
      requires Valid() && id !in accounts && id in universe
      modifies this`accounts, this`objects
      ensures Valid() && id in accounts && fresh(accounts[id])
      ensures accounts == old(accounts)[id := accounts[id]] && objects == old(objects) + {accounts[id]}
    {
      var a := new PoolAccount(id);
      Introduce(a);
      accounts := accounts[id := a];
    }

    /** The half of `rescanLocked` that matches the objects to the files: an account that is
        still present keeps its object, a new or returning one gets a fresh object. */
    method Reconcile(present: set<string>)
      requires Valid() && present <= universe
      modifies this`accounts, this`objects
      ensures Valid() && ObjectsGrow()
      ensures accounts.Keys == present
      ensures forall id <- accounts ::
        if id in old(accounts) then accounts[id] == old(accounts[id]) else fresh(accounts[id])
    {
      DropAbsent(present);
      var left := present - accounts.Keys;
      while left != {}
        invariant Valid() && accounts.Keys == present - left && left !! old(accounts.Keys)
        invariant forall id <- accounts ::
          if id in old(accounts) then accounts[id] == old(accounts[id]) else fresh(accounts[id])
        invariant ObjectsGrow()
        decreases left
      {
        var id :| id in left;
        left := left - {id};
        AddAccount(id);
      }
    }

    /** The account is cooling and its file is not the one it was cooled with. */
    static predicate Renewed(disk: Disk, id: string, coolStamp: string) {
      coolStamp != "" && Stamp(disk, id) != coolStamp
    }

    /** A missing file has a stamp of its own, and no stamp means there was no cooldown. */
    static lemma RenewedMeans(disk: Disk, id: string, coolStamp: string)
      ensures coolStamp == "" ==> !Renewed(disk, id, coolStamp)
      ensures coolStamp != "" && id in disk.stamps ==> (Renewed(disk, id, coolStamp) <==> disk.stamps[id] != coolStamp)
      ensures coolStamp != "" && id !in disk.stamps ==> (Renewed(disk, id, coolStamp) <==> coolStamp != "missing")
    {
    }

    /** A login written over the file lifts the cooldown. */
    method LiftCooldowns(disk: Disk)
      requires Named()
      modifies objects`coolUntil, objects`coolStamp
      ensures forall a <- objects ::
        if a in accounts.Values && Renewed(disk, a.id, old(a.coolStamp))
        then a.coolUntil == 0 && a.coolStamp == ""
        else a.coolUntil == old(a.coolUntil) && a.coolStamp == old(a.coolStamp)
    {
      var lifted := set id | id in accounts && Renewed(disk, id, accounts[id].coolStamp) :: accounts[id];
      forall a <- lifted {
        a.coolUntil := 0;
      }
      forall a <- lifted {
        a.coolStamp := "";
      }
    }

    /** The other half of `rescanLocked`. */
    method FinishScan(now: nat, disk: Disk)
      requires Valid()
      modifies this`disabled, this`scannedAt, objects`coolUntil, objects`coolStamp
      ensures Valid() && disabled == disk.disabled && scannedAt == now
      ensures forall id <- accounts :: Renewed(disk, id, old(accounts[id].coolStamp)) ==>
        accounts[id].coolUntil == 0 && accounts[id].coolStamp == ""
      ensures forall id <- accounts :: !Renewed(disk, id, old(accounts[id].coolStamp)) ==>
        accounts[id].coolUntil == old(accounts[id].coolUntil) && accounts[id].coolStamp == old(accounts[id].coolStamp)
    {
      hide AffinityAgrees, Decided;
      LiftCooldowns(disk);
      disabled, scannedAt := disk.disabled, now;
    }

    /** `rescanLocked` */
    method Rescan(now: nat, disk: Disk)
      requires Valid() && disk.present <= universe
      modifies this`accounts, this`disabled, this`scannedAt, this`objects, objects`coolUntil, objects`coolStamp
      ensures Valid() && ObjectsGrow()
      ensures accounts.Keys == disk.present && disabled == disk.disabled && scannedAt == now
      ensures forall id <- accounts ::
        if id in old(accounts) then accounts[id] == old(accounts[id]) else fresh(accounts[id])
      ensures forall id <- accounts :: id in old(accounts) && Renewed(disk, id, old(accounts[id].coolStamp)) ==>
        accounts[id].coolUntil == 0
      ensures forall id <- accounts :: id in old(accounts) && !Renewed(disk, id, old(accounts[id].coolStamp)) ==>
        accounts[id].coolUntil == old(accounts[id].coolUntil) && accounts[id].coolStamp == old(accounts[id].coolStamp)
    {
      Reconcile(disk.present);
      FinishScan(now, disk);
    }

    /** `maybeRescanLocked` */
    method MaybeRescan(now: nat, disk: Disk)
      requires Valid() && disk.present <= universe
      modifies this`accounts, this`disabled, this`scannedAt, this`objects, objects`coolUntil, objects`coolStamp
      ensures Valid() && ObjectsGrow()
      ensures now - old(scannedAt) >= RESCAN_INTERVAL ==>
        accounts.Keys == disk.present && disabled == disk.disabled && scannedAt == now
      ensures old(Steady(disk)) ==>
        && accounts == old(accounts) && disabled == old(disabled)
        && forall id <- accounts :: accounts[id].View() == old(accounts[id].View())
    {
      if now - scannedAt >= RESCAN_INTERVAL {
        Rescan(now, disk);
      }
    }

    /** `fileStamp` */
    static function Stamp(disk: Disk, id: string): string {
      if id in disk.stamps then disk.stamps[id] else "missing"
    }

    // ---------------------------------------------------------------- affinity

    /** `affinityLocked`: a hit is the account of the last thing remembered for the key, made
        within the time to live, for an account that is still in the pool. */
    method LookUp(key: string, now: nat) returns (account: Option<string>)
      requires AffinityAgrees()
      modifies this`affinity
      ensures AffinityAgrees() && Pruned(old(affinity), affinity, accounts.Keys, now)
      ensures account == Hit(old(affinity), accounts.Keys, key, now)
      ensures account.Some? ==>
        && key in history && history[key].account == account.value
        && account.value in accounts && now - history[key].at <= AFFINITY_TTL
    {
      if key !in affinity {
        return None;
      }
      if now - affinity[key].at > AFFINITY_TTL || affinity[key].account !in accounts {
        affinity := affinity - {key};
        return None;
      }
      account := Some(affinity[key].account);
    }

    /** Keeps the entries of the last `affinityTTL`. */
    method DropExpired(now: nat)
      modifies this`affinity
      ensures affinity == Unexpired(old(affinity), now)
    {
      affinity := map k | k in affinity && now - affinity[k].at <= AFFINITY_TTL :: affinity[k];
    }

    /** Drops an arbitrary half of a full table. */
    method DropHalf()
      requires |affinity| >= AFFINITY_MAX_ENTRIES
      modifies this`affinity
      ensures affinity.Keys <= old(affinity).Keys && forall k <- affinity :: affinity[k] == old(affinity)[k]
      ensures |affinity| == old(|affinity|) - AFFINITY_MAX_ENTRIES / 2
    {
      var dropped := 0;
      while dropped < AFFINITY_MAX_ENTRIES / 2
        invariant dropped <= AFFINITY_MAX_ENTRIES / 2 && |affinity| == old(|affinity|) - dropped
        invariant affinity.Keys <= old(affinity).Keys && forall k <- affinity :: affinity[k] == old(affinity)[k]
      {
        assert affinity.Keys != {};
        var k :| k in affinity;
        var rest := affinity - {k};
        assert affinity == rest[k := affinity[k]];
        affinity := rest;
        dropped := dropped + 1;
      }
    }

    /** The entries of the last `affinityTTL`. */
    static function Unexpired(table: map<string, Entry>, now: nat): map<string, Entry> {
      map k | k in table && now - table[k].at <= AFFINITY_TTL :: table[k]
    }

    /** Eviction only forgets, and leaves room for one entry: a full table loses what has expired,
        and half of it when nothing has. */
    method MakeRoom(now: nat)
      requires |affinity| <= AFFINITY_MAX_ENTRIES
      modifies this`affinity
      ensures |affinity| < AFFINITY_MAX_ENTRIES
      ensures affinity.Keys <= old(affinity).Keys && forall k <- affinity :: affinity[k] == old(affinity)[k]
      ensures old(|affinity|) < AFFINITY_MAX_ENTRIES ==> affinity == old(affinity)
      ensures old(|affinity|) >= AFFINITY_MAX_ENTRIES ==>
        var left := Unexpired(old(affinity), now);
        if |left| < AFFINITY_MAX_ENTRIES then affinity == left else |affinity| == AFFINITY_MAX_ENTRIES / 2
    {
      if |affinity| >= AFFINITY_MAX_ENTRIES {
        ghost var before := affinity;
        DropExpired(now);
        SubsetCount(affinity.Keys, before.Keys);
        if |affinity| >= AFFINITY_MAX_ENTRIES {
          DropHalf();
        }
      }
    }

    /** `remember` */
    method Remember(key: string, account: string, now: nat, ghost request: nat)
      requires AffinityAgrees() && Decided()
      modifies this`affinity, this`history, this`log
      ensures Decided() && log == old(log) + [Remembered(request, key, account)]
      ensures AffinityAgrees() && history == old(history)[key := Entry(account, now)]
      ensures key in affinity && affinity[key] == Entry(account, now)
      ensures forall k <- affinity :: k != key ==> k in old(affinity) && affinity[k] == old(affinity)[k]
      ensures old(|affinity|) < AFFINITY_MAX_ENTRIES ==> affinity == old(affinity)[key := Entry(account, now)]
      ensures |Unexpired(old(affinity), now)| < AFFINITY_MAX_ENTRIES ==>
        forall k <- Unexpired(old(affinity), now) :: k in affinity
    {
      MakeRoom(now);
      affinity := affinity[key := Entry(account, now)];
      history := history[key := Entry(account, now)];
      log := log + [Remembered(request, key, account)];
    }

    // ---------------------------------------------------------------- choosing

    /** What this request may use, in listing order. */
    method Split(barred: set<string>, now: nat)
      returns (ready: seq<Candidate>, cooling: seq<Candidate>, ghost order: seq<string>, ghost all: seq<Candidate>)
      requires Named()
      ensures IsListing(order, accounts.Keys) && all == Candidates(accounts, order)
      ensures ready == Eligible(all, barred, now, true) && cooling == Eligible(all, barred, now, false)
    {
      var ids := Listing(accounts.Keys);
      order := ids;
      ready, cooling := [], [];
      all := Candidates(accounts, order);
      for i := 0 to |ids|
        invariant ready == Eligible(all[..i], barred, now, true)
        invariant cooling == Eligible(all[..i], barred, now, false)
      {
        assert ids[i] in ids;
        var acct := accounts[ids[i]];
        assert all[i] == acct.View();
        NextEligible(all, i, barred, now, true);
        NextEligible(all, i, barred, now, false);
        if acct.id in barred {
          continue;
        }
        if now < acct.coolUntil {
          cooling := cooling + [acct.View()];
        } else {
          ready := ready + [acct.View()];
        }
      }
      assert all[..|ids|] == all;
    }

    /** The pin of a request: the first of its reasoning keys with a live affinity. */
    method FindPin(keys: seq<string>, now: nat) returns (pinned: Option<string>)
      requires AffinityAgrees()
      modifies this`affinity
      ensures AffinityAgrees() && Pruned(old(affinity), affinity, accounts.Keys, now)
      ensures pinned == FirstHit(old(affinity), accounts.Keys, keys, now)
    {
      pinned := None;
      var i := 0;
      while i < |keys| && pinned.None?
        invariant 0 <= i <= |keys| && AffinityAgrees() && Pruned(old(affinity), affinity, accounts.Keys, now)
        invariant FirstHit(old(affinity), accounts.Keys, keys, now)
               == if pinned.Some? then pinned else FirstHit(old(affinity), accounts.Keys, keys[i..], now)
      {
        PruningHidesNothing(old(affinity), affinity, accounts.Keys, keys, now);
        pinned := LookUp(keys[i], now);
        i := i + 1;
      }
    }

    /** The decision on what `Split` found. Dead affinities it meets are dropped. */
    method Decide(ready: seq<Candidate>, cooling: seq<Candidate>, pinned: Option<string>, stickyKey: Option<string>,
                  now: nat)
      returns (pick: Option<Pick>)
      requires AffinityAgrees()
      modifies this`affinity
      ensures AffinityAgrees() && Pruned(old(affinity), affinity, accounts.Keys, now)
      ensures var preferred := if stickyKey.Some? then Hit(old(affinity), accounts.Keys, stickyKey.value, now)
        else None;
        pick == Choose(ready, cooling, pinned, preferred)
    {
      if pinned.Some? {
        var p := IndexOf(ready, pinned.value);
        if p < |ready| {
          return Some(Pick(ready[p], false));
        }
      }
      if |ready| == 0 {
        if |cooling| == 0 {
          return None;
        }
        var first := EarliestToRecover(cooling);
        return Some(Pick(first, pinned.Some? && first.id != pinned.value));
      }
      var best := LeastLoaded(ready);
      if pinned.None? && stickyKey.Some? {
        var preferred := LookUp(stickyKey.value, now);
        if preferred.Some? {
          var p := IndexOf(ready, preferred.value);
          if p < |ready| && ready[p].inflight <= best.inflight + STICKY_SLACK {
            return Some(Pick(ready[p], false));
          }
        }
      }
      pick := Some(Pick(best, pinned.Some? && best.id != pinned.value));
    }

    /** `chooseLocked`: the decision of `Scheduling.Choose` on the accounts in listing order,
        whose candidates are `all`. */
    method ChooseAccount(hints: Hints, exclude: set<string>, now: nat)
      returns (pick: Option<Pick>, ghost order: seq<string>, ghost all: seq<Candidate>)
      requires Named() && AffinityAgrees()
      modifies this`affinity
      ensures AffinityAgrees() && Pruned(old(affinity), affinity, accounts.Keys, now)
      ensures IsListing(order, accounts.Keys) && all == old(Candidates(accounts, order))
      ensures pick == ChoiceAmong(all, exclude + disabled, now,
        FirstHit(old(affinity), accounts.Keys, hints.reasoningKeys, now),
        if hints.stickyKey.Some? then Hit(old(affinity), accounts.Keys, hints.stickyKey.value, now) else None)
    {
      var ready, cooling;
      ready, cooling, order, all := Split(exclude + disabled, now);
      var pinned := FindPin(hints.reasoningKeys, now);
      ghost var preferred := if hints.stickyKey.Some? then Hit(affinity, accounts.Keys, hints.stickyKey.value, now)
        else None;
      PruningHidesNothing(old(affinity), affinity, accounts.Keys, [], now);
      assert preferred == if hints.stickyKey.Some? then Hit(old(affinity), accounts.Keys, hints.stickyKey.value, now)
        else None;
      assert ChoiceAmong(all, exclude + disabled, now, pinned, preferred) == Choose(ready, cooling, pinned, preferred);
      pick := Decide(ready, cooling, pinned, hints.stickyKey, now);
    }

    // ---------------------------------------------------------------- claims and leases

    /** The bookkeeping of a claim: one more request in flight on the object. */
    method Load(request: nat, acct: PoolAccount)
      requires Loads() && acct in objects && request !in pending
      modifies acct`inflight, this`pending
      ensures Loads() && pending == old(pending)[request := acct] && acct.inflight == old(acct.inflight) + 1
    {
      var claims := pending[request := acct];
      forall a <- objects
        ensures ClaimCount(claims, a) == ClaimCount(pending, a) + if acct == a then 1 else 0
      {
        ClaimCountAdd(pending, request, acct, a);
      }
      assert forall a <- objects :: old(Conserved(a));
      acct.inflight := acct.inflight + 1;
      pending := claims;
    }

    method Take(request: nat, acct: PoolAccount, now: nat)
      requires Loads() && acct in objects && request !in pending
      modifies acct`inflight, acct`served, acct`lastUsed, this`pending
      ensures Loads() && pending == old(pending)[request := acct]
      ensures acct.inflight == old(acct.inflight) + 1 && acct.served == old(acct.served) + 1 && acct.lastUsed == now
    {
      Load(request, acct);
      acct.served, acct.lastUsed := acct.served + 1, now;
    }

    /** A claim shows on its account and on no other. */
    method TakeListed(request: nat, acct: PoolAccount, now: nat, ghost order: seq<string>, ghost all: seq<Candidate>)
      returns (ghost at: nat)
      requires Loads() && acct in objects && request !in pending && acct.id in accounts && accounts[acct.id] == acct
      requires IsListing(order, accounts.Keys) && (forall id <- accounts :: accounts[id].id == id)
      requires all == Candidates(accounts, order)
      modifies acct`inflight, acct`served, acct`lastUsed, this`pending
      ensures Loads() && pending == old(pending)[request := acct]
      ensures at < |all| && all[at].id == acct.id && Candidates(accounts, order) == Claimed(all, at, now)
    {
      at := ListedAt(order, accounts.Keys, all, acct.id);
      Take(request, acct, now);
      ghost var after := Candidates(accounts, order);
      forall j | 0 <= j < |order|
        ensures after[j] == Claimed(all, at, now)[j]
      {
        assert order[j] in order && (j != at ==> accounts[order[j]] != acct);
      }
    }

    /** What a claim would read now. */
    ghost predicate Reads(d: Decision, request: nat, hints: Hints, exclude: set<string>, now: nat, order: seq<string>)
      reads this`accounts, this`disabled, this`affinity, accounts.Values
    {
      && IsListing(order, accounts.Keys)
      && d == Decision(request, d.account, hints, exclude, disabled, affinity, accounts.Keys,
                       Candidates(accounts, order), now)
    }

    /** The choice, on the state it leaves. */
    method ChooseChecked(request: nat, hints: Hints, exclude: set<string>, now: nat)
      returns (pick: Option<Pick>, ghost order: seq<string>, ghost d: Decision)
      requires Named() && AffinityAgrees()
      modifies this`affinity
      ensures AffinityAgrees() && Pruned(old(affinity), affinity, accounts.Keys, now)
      ensures pick == None <==> accounts.Keys <= exclude + disabled
      ensures Reads(d, request, hints, exclude, now, order)
      ensures pick.Some? ==> Scheduled(d) && d.account == pick.value.candidate.id
      ensures pick.Some? ==> Suits(pick.value, d.ids, Barred(d), Home(d))
    {
      ghost var all;
      pick, order, all := ChooseAccount(hints, exclude, now);
      PruningHidesNothing(old(affinity), affinity, accounts.Keys, hints.reasoningKeys, now);
      d := Decision(request, if pick.Some? then pick.value.candidate.id else "", hints, exclude, disabled,
                    affinity, accounts.Keys, all, now);
      assert pick == ChoiceOf(d);
      hide Scheduled, ChoiceOf, IsListing, FirstHit;
      ChoiceIsScheduled(order, d, pick);
    }

    /** The first choice of a claim, after a rescan if one is due. */
    method ChooseFirst(request: nat, hints: Hints, exclude: set<string>, now: nat, disk: Disk, ghost calm: bool)
      returns (pick: Option<Pick>, ghost order: seq<string>, ghost d: Decision)
      requires Valid() && disk.present <= universe && (calm ==> Steady(disk))
      modifies this`accounts, this`disabled, this`scannedAt, this`affinity, this`objects, objects`coolUntil,
        objects`coolStamp
      ensures Valid() && ObjectsGrow()
      ensures pick == None <==> accounts.Keys <= exclude + disabled
      ensures Reads(d, request, hints, exclude, now, order)
      ensures pick.Some? ==> Scheduled(d) && d.account == pick.value.candidate.id
      ensures pick.Some? ==> Suits(pick.value, d.ids, Barred(d), Home(d))
      ensures calm ==>
        accounts == old(accounts) && disabled == old(disabled) && d.candidates == old(Candidates(accounts, order))
      ensures calm ==> Pruned(old(affinity), affinity, accounts.Keys, now)
    {
      hide Loads, AffinityAgrees, Decided, Scheduled, FirstHit;
      MaybeRescan(now, disk);
      pick, order, d := ChooseChecked(request, hints, exclude, now);
      assert calm ==> forall i :: 0 <= i < |order| ==>
        order[i] in order && d.candidates[i] == old(accounts[order[i]].View());
    }

    /** The second one: a login may have appeared since the last scan. */
    method ChooseAgain(request: nat, hints: Hints, exclude: set<string>, now: nat, disk: Disk)
      returns (pick: Option<Pick>, ghost order: seq<string>, ghost d: Decision)
      requires Valid() && disk.present <= universe
      modifies this`accounts, this`disabled, this`scannedAt, this`affinity, this`objects, objects`coolUntil,
        objects`coolStamp
      ensures Valid() && ObjectsGrow()
      ensures pick == None <==> accounts.Keys <= exclude + disabled
      ensures Reads(d, request, hints, exclude, now, order)
      ensures pick.Some? ==> Scheduled(d) && d.account == pick.value.candidate.id
      ensures pick.Some? ==> Suits(pick.value, d.ids, Barred(d), Home(d))
      ensures accounts.Keys == disk.present && disabled == disk.disabled
    {
      Rescan(now, disk);
      pick, order, d := ChooseChecked(request, hints, exclude, now);
    }

    /** Rescan if due and choose; when there is nothing to try, rescan and choose again. */
    method ChooseFresh(request: nat, hints: Hints, exclude: set<string>, first: bool, now: nat, disk: Disk,
                       ghost calm: bool)
      returns (pick: Option<Pick>, ghost order: seq<string>, ghost d: Decision)
      requires Valid() && disk.present <= universe && (calm ==> Steady(disk))
      modifies this`accounts, this`disabled, this`scannedAt, this`affinity, this`objects, objects`coolUntil,
        objects`coolStamp
      ensures Valid() && ObjectsGrow()
      ensures pick == None <==> accounts.Keys <= exclude + disabled
      ensures Reads(d, request, hints, exclude, now, order)
      ensures pick.Some? ==> Scheduled(d) && d.account == pick.value.candidate.id
      ensures pick.Some? ==> Suits(pick.value, d.ids, Barred(d), Home(d))
      ensures calm && pick.None? ==> old(accounts.Keys) <= exclude + old(disabled)
      ensures calm && pick.Some? ==> accounts == old(accounts) && disabled == old(disabled)
      ensures calm && pick.Some? ==> d.candidates == old(Candidates(accounts, order))
      ensures calm && pick.Some? ==> Pruned(old(affinity), affinity, accounts.Keys, now)
    {
      pick, order, d := ChooseFirst(request, hints, exclude, now, disk, calm);
      if pick.None? && first && exclude == {} {
        pick, order, d := ChooseAgain(request, hints, exclude, now, disk);
      }
    }

    /** The bookkeeping of a decision. */
    method Record(ghost d: Decision)
      requires Decided() && Scheduled(d)
      modifies this`log
      ensures Decided() && log == old(log) + [Chose(d)]
    {
      log := log + [Chose(d)];
    }

    /** The claim on what was decided. */
    method ClaimDecided(request: nat, acct: PoolAccount, now: nat, ghost order: seq<string>, ghost d: Decision)
      returns (ghost at: nat)
      requires Loads() && acct in objects && request !in pending && acct.id in accounts && accounts[acct.id] == acct
      requires IsListing(order, accounts.Keys) && (forall id <- accounts :: accounts[id].id == id)
      requires Decided() && Scheduled(d) && d.candidates == Candidates(accounts, order)
      modifies acct`inflight, acct`served, acct`lastUsed, this`pending, this`log
      ensures Loads() && pending == old(pending)[request := acct]
      ensures Decided() && log == old(log) + [Chose(d)]
      ensures at < |d.candidates| && d.candidates[at].id == acct.id
      ensures Candidates(accounts, order) == Claimed(d.candidates, at, now)
    {
      Record(d);
      at := TakeListed(request, acct, now, order, d.candidates);
    }

    method ClaimPick(request: nat, hints: Hints, exclude: set<string>, now: nat, pick: Pick, ghost order: seq<string>,
                     ghost d: Decision)
      returns (acct: PoolAccount, pinMissed: bool, ghost at: nat)
      requires Valid() && request !in pending && Reads(d, request, hints, exclude, now, order)
      requires Scheduled(d) && d.account == pick.candidate.id && Suits(pick, d.ids, Barred(d), Home(d))
      modifies this`pending, this`log, objects`inflight, objects`served, objects`lastUsed
      ensures Valid() && pending == old(pending)[request := acct] && log == old(log) + [Chose(d)]
      ensures acct in objects && acct.id in accounts && accounts[acct.id] == acct && acct.id !in exclude + disabled
      ensures acct.id == d.account && (pinMissed <==> Missed(Home(d), acct.id))
      ensures at < |d.candidates| && d.candidates[at].id == acct.id
      ensures Candidates(accounts, order) == Claimed(d.candidates, at, now)
    {
      hide AffinityAgrees, Loads, Decided, Scheduled, FirstHit, Hit, IsListing, Candidates, Claimed, Home;
      acct, pinMissed := accounts[pick.candidate.id], pick.pinMissed;
      at := ClaimDecided(request, acct, now, order, d);
    }

    /** The first locked section of `acquire`: the claim goes to the scheduler's choice among the
        accounts in listing order (`d`), and changes nothing else about them. When a rescan would
        find nothing new (`calm`), what it chooses among is the pool as it was. */
    method Claim(request: nat, hints: Hints, exclude: set<string>, first: bool, now: nat, disk: Disk, ghost calm: bool)
      returns (acct: PoolAccount?, pinMissed: bool, ghost order: seq<string>, ghost d: Decision, ghost at: nat)
      requires Valid() && disk.present <= universe && request !in pending && (calm ==> Steady(disk))
      modifies this`accounts, this`disabled, this`scannedAt, this`affinity, this`objects, this`pending, this`log
      modifies objects`inflight, objects`served, objects`lastUsed, objects`coolUntil, objects`coolStamp
      ensures Valid() && ObjectsGrow() && IsListing(order, accounts.Keys)
      ensures acct == null ==>
        accounts.Keys <= exclude + disabled && pending == old(pending) && log == old(log)
      ensures acct != null ==>
        && acct in objects && acct.id in accounts && accounts[acct.id] == acct && acct.id !in exclude + disabled
        && pending == old(pending)[request := acct]
      ensures acct != null ==>
        && d == Decision(request, acct.id, hints, exclude, disabled, affinity, accounts.Keys, d.candidates, now)
        && Scheduled(d) && (pinMissed <==> Missed(Home(d), acct.id)) && log == old(log) + [Chose(d)]
      ensures acct != null ==>
        && at < |d.candidates| && d.candidates[at].id == acct.id
        && Candidates(accounts, order) == Claimed(d.candidates, at, now)
      ensures calm && acct == null ==> old(accounts.Keys) <= exclude + old(disabled)
      ensures calm && acct != null ==> accounts == old(accounts) && disabled == old(disabled)
      ensures calm && acct != null ==> d.candidates == old(Candidates(accounts, order))
      ensures calm && acct != null ==> Pruned(old(affinity), affinity, accounts.Keys, now)
    {
      hide Loads, AffinityAgrees, Decided, Scheduled, FirstHit, Candidates, IsListing;
      var pick;
      pick, order, d := ChooseFresh(request, hints, exclude, first, now, disk, calm);
      if pick.None? {
        return null, false, order, d, 0;
      }
      acct, pinMissed, at := ClaimPick(request, hints, exclude, now, pick.value, order, d);
    }

    /** The bookkeeping of a claim that is over. */
    method Unload(request: nat, acct: PoolAccount)
      requires Loads() && request in pending && pending[request] == acct
      modifies acct`inflight, this`pending
      ensures Loads() && pending == old(pending) - {request} && acct.inflight == old(acct.inflight) - 1
    {
      var claims := pending - {request};
      forall a <- objects
        ensures ClaimCount(claims, a) == ClaimCount(pending, a) - if acct == a then 1 else 0
      {
        ClaimCountRemove(pending, request, a);
      }
      assert forall a <- objects :: old(Conserved(a));
      acct.inflight := acct.inflight - 1;
      pending := claims;
    }

    /** The second locked section, when the credentials could not be borrowed. */
    method Unclaim(request: nat, acct: PoolAccount)
      requires Valid() && request in pending && pending[request] == acct
      modifies acct`inflight, acct`served, this`pending
      ensures Valid() && pending == old(pending) - {request}
      ensures acct.inflight == old(acct.inflight) - 1 && acct.served == old(acct.served) - 1
    {
      Unload(request, acct);
      acct.served := acct.served - 1;
    }

    /** The bookkeeping of a grant. */
    method Enroll(lease: AccountLease)
      requires Loads() && lease !in leases && !lease.released
      requires lease.owner in pending && pending[lease.owner] == lease.acct
      modifies this`pending, this`leases, this`live
      ensures Loads() && pending == old(pending) - {lease.owner}
      ensures leases == old(leases) + {lease} && live == old(live) + {lease}
    {
      hide ClaimCount, LeaseCount;
      GrantBalances(pending, live, lease, objects);
      pending := pending - {lease.owner};
      leases, live := leases + {lease}, live + {lease};
    }

    /** The claim becomes a lease. */
    method Grant(request: nat, pinMissed: bool) returns (lease: AccountLease)
      requires Valid() && request in pending
      modifies this`pending, this`leases, this`live
      ensures Valid() && pending == old(pending) - {request}
      ensures fresh(lease) && lease.owner == request && lease.acct == old(pending[request])
      ensures lease.pinMissed == pinMissed && !lease.released
      ensures leases == old(leases) + {lease} && live == old(live) + {lease}
    {
      lease := new AccountLease(request, pending[request], pinMissed);
      Enroll(lease);
    }

    /** The bookkeeping of a release. */
    method Discharge(lease: AccountLease)
      requires Loads() && lease in live
      modifies lease`released, lease.acct`inflight, this`live
      ensures Loads() && lease.released && live == old(live) - {lease}
      ensures lease.acct.inflight == old(lease.acct.inflight) - 1
    {
      forall a <- objects
        ensures LeaseCount(live - {lease}, a) == LeaseCount(live, a) - if lease.acct == a then 1 else 0
      {
        LeaseCountRemove(live, lease, a);
      }
      assert forall a <- objects :: old(Conserved(a));
      lease.acct.inflight := lease.acct.inflight - 1;
      lease.released := true;
      live := live - {lease};
    }

    /** `release`: safe to call any number of times. */
    method Release(lease: AccountLease)
      requires Valid() && lease in leases
      modifies lease`released, lease.acct`inflight, this`live
      ensures Valid() && lease.released && live == old(live) - {lease}
      ensures lease.acct.inflight == old(lease.acct.inflight) - if old(lease.released) then 0 else 1
    {
      if lease.released {
        return;
      }
      Discharge(lease);
    }

    // ---------------------------------------------------------------- cooldowns and operators

    /** `coolDown` */
    method CoolDown(acct: PoolAccount, d: int, now: nat, disk: Disk, ghost request: nat)
      requires Valid() && acct in objects
      modifies acct`coolUntil, acct`coolStamp, this`log
      ensures Valid() && acct.coolStamp == Stamp(disk, acct.id)
      ensures acct.coolUntil == now + Capped(d) && log == old(log) + [Rested(request, acct.id, Capped(d))]
    {
      hide Loads, AffinityAgrees, Named;
      acct.coolUntil := now + if d > MAX_COOLDOWN then MAX_COOLDOWN else d;
      acct.coolStamp := Stamp(disk, acct.id);
      log := log + [Rested(request, acct.id, Capped(d))];
    }

    /** `clearCooldown` */
    method ClearCooldown(acct: PoolAccount)
      requires Valid() && acct in objects
      modifies acct`coolUntil, acct`coolStamp
      ensures Valid() && acct.coolUntil == 0 && acct.coolStamp == ""
    {
      acct.coolUntil, acct.coolStamp := 0, "";
    }

    /** `observe`: the usage a response reports. */
    method Observe(acct: PoolAccount, usage: Usage)
      requires Valid() && acct in objects
      modifies acct`usage
      ensures Valid() && acct.usage == usage
    {
      acct.usage := usage;
    }

    /** `setEnabled`; `written` tells whether the state file could be written. */
    method SetEnabled(id: string, enabled: bool, now: nat, disk: Disk, written: bool) returns (known: bool)
      requires Valid() && disk.present <= universe
      modifies this`accounts, this`disabled, this`scannedAt, this`objects, objects`coolUntil, objects`coolStamp
      ensures Valid() && ObjectsGrow()
      ensures known <==> id in disk.present
      ensures disabled ==
        if !known || !written then disk.disabled
        else if enabled then disk.disabled - {id}
        else disk.disabled + {id}
      ensures known && written && enabled ==>
        id in accounts && accounts[id].coolUntil == 0 && accounts[id].coolStamp == ""
    {
      Rescan(now, disk);
      known := id in accounts;
      if !known || !written {
        return;
      }
      disabled := if enabled then disabled - {id} else disabled + {id};
      if enabled {
        ClearCooldown(accounts[id]);
      }
    }

    /** `remove`: the id leaves the pool and the affinities; leases on its object live on. A login
        that cannot be deleted stays. */
    method Remove(id: string, now: nat, disk: Disk, deleted: bool, after: Disk) returns (known: bool, removed: bool)
      requires Valid() && disk.present <= universe && (deleted ==> after.present == disk.present - {id})
      modifies this`accounts, this`disabled, this`scannedAt, this`affinity, this`objects, objects`coolUntil,
        objects`coolStamp
      ensures Valid() && ObjectsGrow()
      ensures known == (id in disk.present) && removed == (known && deleted)
      ensures accounts.Keys == if removed then disk.present - {id} else disk.present
      ensures affinity ==
        if !removed then old(affinity)
        else map k | k in old(affinity) && old(affinity)[k].account != id :: old(affinity)[k]
    {
      Rescan(now, disk);
      known := id in accounts;
      removed := known && deleted;
      if !removed {
        return;
      }
      affinity := map k | k in affinity && affinity[k].account != id :: affinity[k];
      SubsetCount(affinity.Keys, old(affinity).Keys);
      Rescan(now, after);
    }
  }
}
