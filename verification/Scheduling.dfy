/** internal/app/accounts.go, `chooseLocked` and `lessLoaded`, as a decision on values:
    which of the ready and cooling accounts carries a request. */
module Scheduling {
  import opened Prelude

  const STICKY_SLACK := 2

  datatype Usage = Usage(primary: Option<real>, secondary: Option<real>)

  /** What the choice reads of an account; `coolUntil` 0 is the zero time. */
  datatype Candidate = Candidate(id: string, inflight: int, usage: Usage, lastUsed: nat, coolUntil: int)

  /** The tighter of the two windows. */
  function UsageScore(usage: Usage): real {
    var score := if usage.primary.Some? then usage.primary.value else 0.0;
    if usage.secondary.Some? && usage.secondary.value > score then usage.secondary.value else score
  }

  predicate LessLoaded(a: Candidate, b: Candidate) {
    if a.inflight != b.inflight then a.inflight < b.inflight
    else if UsageScore(a.usage) != UsageScore(b.usage) then UsageScore(a.usage) < UsageScore(b.usage)
    else a.lastUsed < b.lastUsed
  }

  /** The first candidate that no other beats. */
  function Best(ready: seq<Candidate>): (i: nat)
    requires ready != []
    ensures i < |ready|
    ensures forall k :: 0 <= k < |ready| ==> !LessLoaded(ready[k], ready[i])
    ensures forall k :: 0 <= k < i ==> LessLoaded(ready[i], ready[k])
  {
    if |ready| == 1 then 0
    else
      var i := Best(DropLast(ready));
      if LessLoaded(Last(ready), ready[i]) then |ready| - 1 else i
  }

  /** The first of those that recover earliest. */
  function Soonest(cooling: seq<Candidate>): (i: nat)
    requires cooling != []
    ensures i < |cooling|
    ensures forall k :: 0 <= k < |cooling| ==> cooling[i].coolUntil <= cooling[k].coolUntil
    ensures forall k :: 0 <= k < i ==> cooling[i].coolUntil < cooling[k].coolUntil
  {
    if |cooling| == 1 then 0
    else
      var i := Soonest(DropLast(cooling));
      if Last(cooling).coolUntil < cooling[i].coolUntil then |cooling| - 1 else i
  }

  function IdsOf(list: seq<Candidate>): seq<string> {
    seq(|list|, i requires 0 <= i < |list| => list[i].id)
  }

  /** Where an account stands in a list, or its length when it is not there. */
  function IndexOf(list: seq<Candidate>, id: string): (i: nat)
    ensures i <= |list| && (i < |list| ==> list[i].id == id)
    ensures forall k :: 0 <= k < i ==> list[k].id != id
  {
    var i := Find(IdsOf(list), id);
    assert forall k :: 0 <= k < |list| ==> IdsOf(list)[k] == list[k].id;
    i
  }

  /** The chosen account, and whether the request replays reasoning that is another's. */
  datatype Pick = Pick(candidate: Candidate, pinMissed: bool)

  predicate Missed(pinned: Option<string>, id: string) {
    pinned.Some? && pinned.value != id
  }

  function Choose(ready: seq<Candidate>, cooling: seq<Candidate>, pinned: Option<string>, preferred: Option<string>)
    : Option<Pick>
  {
    if pinned.Some? && IndexOf(ready, pinned.value) < |ready| then
      Some(Pick(ready[IndexOf(ready, pinned.value)], false))
    else if ready == [] then
      if cooling == [] then None
      else Some(Pick(cooling[Soonest(cooling)], Missed(pinned, cooling[Soonest(cooling)].id)))
    else
      var best := ready[Best(ready)];
      var p := if pinned.None? && preferred.Some? then IndexOf(ready, preferred.value) else |ready|;
      if p < |ready| && ready[p].inflight <= best.inflight + STICKY_SLACK then Some(Pick(ready[p], false))
      else Some(Pick(best, Missed(pinned, best.id)))
  }

  ghost predicate UniqueIds(list: seq<Candidate>) {
    forall i, j :: 0 <= i < j < |list| ==> list[i].id != list[j].id
  }

  /** An account may be preferred while it is at most two requests busier than any other. */
  ghost predicate Affordable(ready: seq<Candidate>, id: string) {
    exists c <- ready :: c.id == id && forall k <- ready :: c.inflight <= k.inflight + 2
  }

  lemma ChoiceIsSafe(ready: seq<Candidate>, cooling: seq<Candidate>, pinned: Option<string>, preferred: Option<string>)
    ensures Choose(ready, cooling, pinned, preferred) == None <==> ready == [] && cooling == []
    ensures var r := Choose(ready, cooling, pinned, preferred);
      r.Some? ==>
        && (r.value.pinMissed <==> pinned.Some? && pinned.value != r.value.candidate.id)
        && (r.value.candidate in if ready != [] then ready else cooling)
  {
  }

  /** The windows an account has reported: one that never reported its primary window has used
      nothing of it. */
  function Windows(usage: Usage): set<real> {
    {if usage.primary.Some? then usage.primary.value else 0.0} +
    if usage.secondary.Some? then {usage.secondary.value} else {}
  }

  /** Every window of `a` is below some window of `b`. */
  ghost predicate LessUsed(a: Usage, b: Usage) {
    exists w <- Windows(b) :: forall v <- Windows(a) :: v < w
  }

  lemma LessUsedIsByScore(a: Usage, b: Usage)
    ensures LessUsed(a, b) <==> UsageScore(a) < UsageScore(b)
  {
    assert UsageScore(a) in Windows(a) && UsageScore(b) in Windows(b);
    assert forall v <- Windows(a) :: v <= UsageScore(a);
    assert forall w <- Windows(b) :: w <= UsageScore(b);
  }

  /** `c` is to be taken before `k`: it has less in flight, or as much and less used, or neither
      was used more and it rested longer. */
  ghost predicate Better(c: Candidate, k: Candidate) {
    || c.inflight < k.inflight
    || (c.inflight == k.inflight && LessUsed(c.usage, k.usage))
    || (c.inflight == k.inflight && !LessUsed(k.usage, c.usage) && c.lastUsed < k.lastUsed)
  }

  lemma LessLoadedIsBetter(c: Candidate, k: Candidate)
    ensures LessLoaded(c, k) <==> Better(c, k)
  {
    LessUsedIsByScore(c.usage, k.usage);
    LessUsedIsByScore(k.usage, c.usage);
  }

  /** A request that replays reasoning goes home or is told it did not. A ready account is
      chosen by its pin, then by preference if that is affordable, and otherwise no other is
      better; a cooling one only when none is ready, and then one that recovers first. */
  lemma ChoiceIsSound(ready: seq<Candidate>, cooling: seq<Candidate>, pinned: Option<string>, preferred: Option<string>)
    requires UniqueIds(ready)
    ensures Choose(ready, cooling, pinned, preferred) == None <==> ready == [] && cooling == []
    ensures var r := Choose(ready, cooling, pinned, preferred);
      r.Some? ==>
        var c := r.value.candidate;
        && (r.value.pinMissed <==> pinned.Some? && pinned.value != c.id)
        && (if ready != [] then c in ready else c in cooling && forall k <- cooling :: c.coolUntil <= k.coolUntil)
        && (ready != [] ==>
              if pinned.Some? && exists k <- ready :: k.id == pinned.value then c.id == pinned.value
              else if pinned.None? && preferred.Some? && Affordable(ready, preferred.value) then c.id == preferred.value
              else forall k <- ready :: !Better(k, c))
  {
    if ready != [] {
      var best := ready[Best(ready)];
      forall k <- ready
        ensures !Better(k, best) && best.inflight <= k.inflight
      {
        LessLoadedIsBetter(k, best);
      }
      if pinned.None? && preferred.Some? {
        var p := IndexOf(ready, preferred.value);
        if p < |ready| {
          assert forall k <- ready :: k.id == preferred.value ==> k == ready[p];
        }
      }
    }
  }

  /** Of equals, the first one is taken. */
  lemma FirstOfEquals(list: seq<Candidate>, k: nat)
    requires list != [] && k < Best(list)
    ensures Better(list[Best(list)], list[k])
  {
    LessLoadedIsBetter(list[Best(list)], list[k]);
  }

  // ------------------------------------------------------------------ runs

  /** The list after account `i` has taken a request at time `now`. */
  function Claimed(list: seq<Candidate>, i: nat, now: nat): seq<Candidate>
    requires i < |list|
  {
    list[i := list[i].(inflight := list[i].inflight + 1, lastUsed := now)]
  }

  function Released(list: seq<Candidate>, i: nat): seq<Candidate>
    requires i < |list|
  {
    list[i := list[i].(inflight := list[i].inflight - 1)]
  }

  ghost predicate Spread(list: seq<Candidate>, width: int) {
    forall i, j :: 0 <= i < |list| && 0 <= j < |list| ==> list[i].inflight <= list[j].inflight + width
  }

  /** One request that takes an account: it is unpinned and may prefer one. */
  function StickyTurn(list: seq<Candidate>, preferred: Option<string>, now: nat): (r: seq<Candidate>)
    requires list != []
    ensures |r| == |list|
  {
    var c := Choose(list, [], None, preferred).value.candidate;
    Claimed(list, IndexOf(list, c.id), now)
  }

  /** A run of requests that only take accounts. */
  function AcquireRun(list: seq<Candidate>, preferred: seq<Option<string>>, clock: nat): (r: seq<Candidate>)
    ensures |r| == |list|
    decreases |preferred|
  {
    if list == [] || preferred == [] then list
    else StickyTurn(AcquireRun(list, DropLast(preferred), clock), Last(preferred), clock + |preferred|)
  }

  lemma StickyStep(list: seq<Candidate>, preferred: Option<string>, now: nat)
    requires list != [] && UniqueIds(list) && Spread(list, STICKY_SLACK + 1)
    ensures UniqueIds(StickyTurn(list, preferred, now)) && Spread(StickyTurn(list, preferred, now), STICKY_SLACK + 1)
  {
    var best := list[Best(list)];
    var c := Choose(list, [], None, preferred).value.candidate;
    var i := IndexOf(list, c.id);
    assert c in list && list[i] == c && c.inflight <= best.inflight + STICKY_SLACK;
    assert forall k :: 0 <= k < |list| ==> best.inflight <= list[k].inflight;
  }

  /** From zero load, stickiness never spreads the load of the ready accounts by more than
      `stickySlack` + 1, whatever the requests prefer. */
  lemma {:induction false} StickinessKeepsBalance(list: seq<Candidate>, preferred: seq<Option<string>>, clock: nat)
    requires UniqueIds(list) && forall k :: 0 <= k < |list| ==> list[k].inflight == 0
    ensures Spread(AcquireRun(list, preferred, clock), STICKY_SLACK + 1)
    ensures UniqueIds(AcquireRun(list, preferred, clock))
    decreases |preferred|
  {
    if list != [] && preferred != [] {
      StickinessKeepsBalance(list, DropLast(preferred), clock);
      StickyStep(AcquireRun(list, DropLast(preferred), clock), Last(preferred), clock + |preferred|);
    }
  }

  // A sequential client returns each account before it asks for the next.

  /** The accounts chosen by sequential requests without hints, and the list after them. */
  datatype Rotation = Rotation(list: seq<Candidate>, chosen: seq<string>)

  /** One such request leaves its account as it was, but for the time of use. */
  function Turn(list: seq<Candidate>, now: nat): (r: Rotation)
    requires list != []
    ensures |r.list| == |list| && |r.chosen| == 1
  {
    var i := Best(list);
    Rotation(list[i := list[i].(lastUsed := now)], [list[i].id])
  }

  /** That is what choosing, claiming and releasing come to. */
  lemma TurnIsARequest(list: seq<Candidate>, now: nat)
    requires list != [] && UniqueIds(list)
    ensures var pick := Choose(list, [], None, None);
      && pick.Some?
      && var i := IndexOf(list, pick.value.candidate.id);
         i < |list| && Turn(list, now) == Rotation(Released(Claimed(list, i, now), i), [pick.value.candidate.id])
  {
    var i := Best(list);
    assert IndexOf(list, list[i].id) == i;
    assert Released(Claimed(list, i, now), i) == list[i := list[i].(lastUsed := now)];
  }

  function SequentialRun(list: seq<Candidate>, n: nat, clock: nat): (r: Rotation)
    requires list != []
    ensures |r.list| == |list| && |r.chosen| == n
  {
    if n == 0 then Rotation(list, [])
    else
      var before := SequentialRun(list, n - 1, clock);
      var turn := Turn(before.list, clock + n);
      Rotation(turn.list, before.chosen + turn.chosen)
  }

  /** Equal load and usage: only the time of last use tells the accounts apart. */
  ghost predicate Even(list: seq<Candidate>, inflight: int, score: real) {
    forall k :: 0 <= k < |list| ==> list[k].inflight == inflight && UsageScore(list[k].usage) == score
  }

  ghost predicate UsedBy(list: seq<Candidate>, clock: nat) {
    forall k :: 0 <= k < |list| ==> list[k].lastUsed <= clock
  }

  ghost predicate SameIds(a: seq<Candidate>, b: seq<Candidate>) {
    |a| == |b| && forall k :: 0 <= k < |a| ==> a[k].id == b[k].id
  }

  /** During the run, the accounts used are the ones last used after `clock`. */
  ghost predicate Tracked(list: seq<Candidate>, chosen: seq<string>, clock: nat) {
    forall k :: 0 <= k < |list| ==> (list[k].lastUsed > clock <==> list[k].id in chosen)
  }

  lemma TurnKeeps(list: seq<Candidate>, now: nat, inflight: int, score: real)
    requires list != [] && UniqueIds(list) && Even(list, inflight, score)
    ensures var t := Turn(list, now).list;
      && UniqueIds(t) && Even(t, inflight, score) && SameIds(t, list)
      && (forall c: nat :: UsedBy(list, c) && c <= now ==> UsedBy(t, now))
  {
  }

  /** A turn goes to an account that was not chosen yet, while there is one. */
  lemma TurnIsNew(list: seq<Candidate>, chosen: seq<string>, clock: nat, now: nat, inflight: int, score: real)
    requires list != [] && UniqueIds(list) && Even(list, inflight, score)
    requires Tracked(list, chosen, clock) && |chosen| < |list| && clock < now
    ensures var t := Turn(list, now);
      && t.chosen[0] !in chosen && Tracked(t.list, chosen + t.chosen, clock)
      && exists k :: 0 <= k < |list| && list[k].id == t.chosen[0]
  {
    var i := Best(list);
    var unused := UnusedAccount(list, chosen);
    assert !LessLoaded(list[unused], list[i]);
    assert list[i].lastUsed <= list[unused].lastUsed <= clock;
    var t := Turn(list, now);
    forall k | 0 <= k < |list|
      ensures t.list[k].lastUsed > clock <==> t.list[k].id in chosen + t.chosen
    {
      if k != i {
        assert list[k].id != list[i].id;
      }
    }
  }

  ghost predicate Named(list: seq<Candidate>, names: seq<string>) {
    forall x <- names :: exists k :: 0 <= k < |list| && list[k].id == x
  }

  ghost predicate Rotating(list: seq<Candidate>, r: Rotation, clock: nat, inflight: int, score: real) {
    && UniqueIds(r.list) && Even(r.list, inflight, score) && SameIds(r.list, list)
    && Tracked(r.list, r.chosen, clock) && Distinct(r.chosen) && Named(list, r.chosen)
  }

  lemma TurnKeepsRotating(list: seq<Candidate>, r: Rotation, clock: nat, now: nat, inflight: int, score: real)
    requires list != [] && Rotating(list, r, clock, inflight, score) && |r.chosen| < |list| && clock < now
    ensures var t := Turn(r.list, now);
      Rotating(list, Rotation(t.list, r.chosen + t.chosen), clock, inflight, score)
  {
    TurnKeeps(r.list, now, inflight, score);
    TurnIsNew(r.list, r.chosen, clock, now, inflight, score);
    var t := Turn(r.list, now);
    var k :| 0 <= k < |r.list| && r.list[k].id == t.chosen[0];
    assert list[k].id == t.chosen[0];
  }

  lemma {:induction false} RotationTracksUse(list: seq<Candidate>, n: nat, clock: nat, inflight: int, score: real)
    requires list != [] && UniqueIds(list) && Even(list, inflight, score) && UsedBy(list, clock)
    requires n <= |list|
    ensures Rotating(list, SequentialRun(list, n, clock), clock, inflight, score)
  {
    if n > 0 {
      RotationTracksUse(list, n - 1, clock, inflight, score);
      TurnKeepsRotating(list, SequentialRun(list, n - 1, clock), clock, clock + n, inflight, score);
    }
  }

  /** Fewer names than accounts leave an account unnamed. */
  lemma UnusedAccount(list: seq<Candidate>, chosen: seq<string>) returns (i: nat)
    requires UniqueIds(list) && |chosen| < |list|
    ensures i < |list| && list[i].id !in chosen
  {
    if forall k :: 0 <= k < |list| ==> list[k].id in chosen {
      var ids := set k | 0 <= k < |list| :: list[k].id;
      IdCount(list);
      var names := set x | x in chosen;
      NameCount(chosen);
      assert ids <= names;
      SubsetCount(ids, names);
      assert false;
    }
    i :| 0 <= i < |list| && list[i].id !in chosen;
  }

  lemma {:induction false} IdCount(list: seq<Candidate>)
    requires UniqueIds(list)
    ensures |set k | 0 <= k < |list| :: list[k].id| == |list|
  {
    var ids := set k | 0 <= k < |list| :: list[k].id;
    if list != [] {
      var p := DropLast(list);
      IdCount(p);
      var before := set k | 0 <= k < |p| :: p[k].id;
      assert forall k :: 0 <= k < |p| ==> p[k] == list[k];
      assert ids == before + {Last(list).id};
    }
  }

  lemma {:induction false} NameCount(names: seq<string>)
    ensures |set x | x in names| <= |names|
  {
    if names != [] {
      NameCount(DropLast(names));
      assert (set x | x in names) == (set x | x in DropLast(names)) + {Last(names)};
    }
  }

  lemma {:induction false} SubsetCount<T>(a: set<T>, b: set<T>)
    requires a <= b
    ensures |a| <= |b|
  {
    if a != {} {
      var x :| x in a;
      SubsetCount(a - {x}, b - {x});
    }
  }

  /** Distinct names of accounts, one account left out: there are fewer names than accounts. */
  lemma ChosenFit(list: seq<Candidate>, chosen: seq<string>, left: string)
    requires UniqueIds(list) && Distinct(chosen) && left !in chosen
    requires Named(list, chosen)
    requires exists i :: 0 <= i < |list| && list[i].id == left
    ensures |chosen| < |list|
  {
    var ids := set k | 0 <= k < |list| :: list[k].id;
    var names := set x | x in chosen;
    IdCount(list);
    DistinctCount(chosen);
    assert left in ids;
    forall x <- names
      ensures x in ids - {left}
    {
      var i :| 0 <= i < |list| && list[i].id == x;
    }
    SubsetCount(names, ids - {left});
  }

  lemma {:induction false} DistinctCount(names: seq<string>)
    requires Distinct(names)
    ensures |set x | x in names| == |names|
  {
    if names != [] {
      DistinctCount(DropLast(names));
      assert (set x | x in names) == (set x | x in DropLast(names)) + {Last(names)};
    }
  }

  lemma {:induction false} RunStaysEven(list: seq<Candidate>, n: nat, clock: nat, inflight: int, score: real)
    requires list != [] && UniqueIds(list) && Even(list, inflight, score) && UsedBy(list, clock)
    ensures var r := SequentialRun(list, n, clock);
      UniqueIds(r.list) && Even(r.list, inflight, score) && SameIds(r.list, list) && UsedBy(r.list, clock + n)
  {
    if n > 0 {
      RunStaysEven(list, n - 1, clock, inflight, score);
      TurnKeeps(SequentialRun(list, n - 1, clock).list, clock + n, inflight, score);
    }
  }

  lemma RotationFromEven(list: seq<Candidate>, clock: nat, inflight: int, score: real)
    requires list != [] && UniqueIds(list) && Even(list, inflight, score) && UsedBy(list, clock)
    ensures var chosen := SequentialRun(list, |list|, clock).chosen;
      Distinct(chosen) && forall k :: 0 <= k < |list| ==> list[k].id in chosen
  {
    RotationTracksUse(list, |list|, clock, inflight, score);
    var chosen := SequentialRun(list, |list|, clock).chosen;
    forall k | 0 <= k < |list|
      ensures list[k].id in chosen
    {
      if list[k].id !in chosen {
        ChosenFit(list, chosen, list[k].id);
      }
    }
  }

  /** With the ready accounts fixed, equally loaded and used, and a clock that advances: after
      any `m` requests of a sequential run, the next |list| use every account exactly once. */
  lemma RequestsRotate(list: seq<Candidate>, m: nat, clock: nat, inflight: int, score: real)
    requires list != [] && UniqueIds(list) && Even(list, inflight, score) && UsedBy(list, clock)
    ensures var later := SequentialRun(list, m, clock).list;
      var chosen := SequentialRun(later, |list|, clock + m).chosen;
      |chosen| == |list| && Distinct(chosen) && forall k :: 0 <= k < |list| ==> list[k].id in chosen
  {
    var later := SequentialRun(list, m, clock).list;
    RunStaysEven(list, m, clock, inflight, score);
    RotationFromEven(later, clock + m, inflight, score);
    forall k | 0 <= k < |list|
      ensures list[k].id in SequentialRun(later, |list|, clock + m).chosen
    {
      assert later[k].id == list[k].id;
    }
  }
}
