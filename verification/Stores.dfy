/** internal/app/store.go: two bounded tables. Both keep an order of ids beside the values;
    the response store moves an id it remembers again to the end, the chat store leaves it
    where it was first inserted, and both evict from the front. */
module Stores {
  import opened CursorPages
  import opened InputItems
  import opened Prelude

  // ------------------------------------------------------------------ the order of ids

  /** `order` without `id`. */
  function Without(order: seq<string>, id: string): (rest: seq<string>)
    ensures id !in rest && |rest| <= |order|
    ensures forall x :: x != id ==> (x in rest <==> x in order)
    ensures Distinct(order) ==> Distinct(rest)
    ensures id !in order ==> rest == order
  {
    if order == [] then []
    else
      var p := Without(DropLast(order), id);
      assert order == DropLast(order) + [Last(order)];
      assert Distinct(order) ==> Last(order) !in DropLast(order);
      if Last(order) == id then p else p + [Last(order)]
  }

  lemma {:induction false} WithoutOne(order: seq<string>, i: nat)
    requires Distinct(order) && i < |order|
    ensures Without(order, order[i]) == order[..i] + order[i + 1..]
  {
    var p := DropLast(order);
    if i == |p| {
      assert order[i] !in p;
      assert order[..i] + order[i + 1..] == p;
    } else {
      WithoutOne(p, i);
      assert order[..i] + order[i + 1..] == p[..i] + p[i + 1..] + [Last(order)];
    }
  }

  /** Cuts `id` out of the slice it is found in. */
  method CutOut(order: seq<string>, id: string) returns (rest: seq<string>)
    requires Distinct(order)
    ensures rest == Without(order, id)
  {
    for i := 0 to |order|
      invariant id !in order[..i]
    {
      if order[i] == id {
        WithoutOne(order, i);
        return order[..i] + order[i + 1..];
      }
    }
    assert order[..|order|] == order;
    rest := order;
  }

  /** Keeps the entries of the ids in `order`. */
  function Restrict<V>(values: map<string, V>, order: seq<string>): map<string, V> {
    map id | id in values && id in order :: values[id]
  }

  ghost predicate Agrees<V>(order: seq<string>, values: map<string, V>, max: nat) {
    Distinct(order) && |order| <= max && SameIds(order, values)
  }

  ghost predicate SameIds<V>(order: seq<string>, values: map<string, V>) {
    forall id :: id in values <==> id in order
  }

  lemma DropFirst<V>(order: seq<string>, values: map<string, V>)
    requires order != [] && Distinct(order) && SameIds(order, values)
    ensures Distinct(order[1..]) && SameIds(order[1..], values - {order[0]})
  {
    assert order == [order[0]] + order[1..];
  }

  lemma RestrictIs<V>(values: map<string, V>, kept: map<string, V>, order: seq<string>)
    requires SameIds(order, kept)
    requires forall id <- kept :: id in values && kept[id] == values[id]
    ensures kept == Restrict(values, order)
  {
    assert forall id :: id in kept <==> id in Restrict(values, order);
  }

  /** Drops from the front while there are too many. */
  method Evict<V>(order: seq<string>, values: map<string, V>, max: nat)
    returns (order': seq<string>, values': map<string, V>)
    requires Distinct(order) && SameIds(order, values)
    ensures order' == LastN(order, max) && values' == Restrict(values, order') && Agrees(order', values', max)
  {
    order', values' := order, values;
    ghost var dropped: nat := 0;
    while |order'| > max
      invariant dropped <= |order| && order' == order[dropped..]
      invariant dropped == 0 || |order'| >= max
      invariant Distinct(order') && SameIds(order', values')
      invariant forall id <- values' :: id in values && values'[id] == values[id]
    {
      DropFirst(order', values');
      values' := values' - {order'[0]};
      order' := order'[1..];
      dropped := dropped + 1;
    }
    RestrictIs(values, values', order');
  }

  // ------------------------------------------------------------------ responses

  datatype Stored = Stored(effectiveInput: seq<Value>, context: seq<Value>, response: Output)

  function StoredOf(input: seq<Value>, response: Output): Stored {
    Stored(input, input + ContextOf(response), response)
  }

  class ResponseStore {
    const max: nat
    var order: seq<string>
    var values: map<string, Stored>

    ghost predicate Valid()
      reads this
    {
      Agrees(order, values, max)
    }

    constructor (max: nat)
      ensures Valid() && this.max == max && order == [] && values == map[]
    {
      this.max, order, values := max, [], map[];
    }

    method Get(id: string) returns (stored: Option<Stored>)
      ensures stored == if id in values then Some(values[id]) else None
    {
      stored := if id in values then Some(values[id]) else None;
    }

    /** `remember`: the id becomes the latest; the earliest ones give way. */
    method Remember(id: string, input: seq<Value>, response: Output)
      requires Valid()
      modifies this
      ensures Valid()
      ensures order == LastN(Without(old(order), id) + [id], max)
      ensures values == Restrict(old(values)[id := StoredOf(input, response)], order)
    {
      if max == 0 {
        return;
      }
      if id in values {
        order := CutOut(order, id);
      }
      order := order + [id];
      var context := ResponseContext(response);
      values := values[id := Stored(input, input + context, response)];
      order, values := Evict(order, values, max);
    }

    method Delete(id: string) returns (found: bool)
      requires Valid()
      modifies this
      ensures Valid() && found == (id in old(values))
      ensures order == Without(old(order), id) && values == old(values) - {id}
    {
      if id !in values {
        return false;
      }
      values := values - {id};
      order := CutOut(order, id);
      found := true;
    }

    /** `cancel` only marks the response. */
    method Cancel(id: string) returns (response: Option<Output>)
      requires Valid()
      modifies this
      ensures Valid() && order == old(order) && values.Keys == old(values).Keys
      ensures response.Some? <==> id in values
      ensures forall k <- values :: var was := old(values)[k];
        values[k] == if k == id then was.(response := was.response.(status := "cancelled")) else was
    {
      if id !in values {
        return None;
      }
      var v := values[id];
      values := values[id := v.(response := v.response.(status := "cancelled"))];
      response := Some(values[id].response);
    }
  }

  // ------------------------------------------------------------------ chat completions

  datatype Chat = Chat(id: string, model: string, metadata: map<string, string>)

  /** The filters of a listing; metadata that is missing reads as the empty string. */
  predicate Matches(chat: Chat, model: string, metadata: map<string, string>) {
    && (model == "" || chat.model == model)
    && forall k <- metadata :: (if k in chat.metadata then chat.metadata[k] else "") == metadata[k]
  }

  /** The rows of a listing, in the order of insertion. */
  function RowsOf(order: seq<string>, values: map<string, Chat>, model: string, metadata: map<string, string>)
    : seq<Row<Chat>>
    requires forall id <- order :: id in values
  {
    seq(|order|, i requires 0 <= i < |order| =>
      Row(order[i], values[order[i]], Matches(values[order[i]], model, metadata)))
  }

  /** A row is kept when its chat is of the model asked for, if one is, and has every metadata
      value asked for; the empty one also when it has none. */
  lemma FiltersMean(order: seq<string>, values: map<string, Chat>, model: string, metadata: map<string, string>, i: nat)
    requires (forall id <- order :: id in values) && i < |order|
    ensures var row, chat := RowsOf(order, values, model, metadata)[i], values[order[i]];
      && row.id == order[i] && row.value == chat
      && (row.kept <==>
            && (model != "" ==> chat.model == model)
            && forall k <- metadata ::
                 if k in chat.metadata then chat.metadata[k] == metadata[k] else metadata[k] == "")
  {
  }

  class ChatStore {
    const max: nat
    var order: seq<string>
    var values: map<string, Chat>

    ghost predicate Valid()
      reads this
    {
      Agrees(order, values, max) && forall id <- values :: values[id].id == id
    }

    constructor (max: nat)
      ensures Valid() && this.max == max && order == [] && values == map[]
    {
      this.max, order, values := max, [], map[];
    }

    /** `remember`: an id that is there keeps its place. */
    method Remember(chat: Chat)
      requires Valid()
      modifies this
      ensures Valid()
      ensures max == 0 ==> order == old(order) && values == old(values)
      ensures max > 0 ==> order == LastN(if chat.id in old(order) then old(order) else old(order) + [chat.id], max)
      ensures max > 0 ==> values == Restrict(old(values)[chat.id := chat], order)
    {
      if max == 0 {
        return;
      }
      if chat.id !in values {
        order := order + [chat.id];
      }
      values := values[chat.id := chat];
      order, values := Evict(order, values, max);
    }

    method Update(id: string, metadata: map<string, string>) returns (chat: Option<Chat>)
      requires Valid()
      modifies this
      ensures Valid() && order == old(order)
      ensures values ==
        if id in old(values) then old(values)[id := old(values)[id].(metadata := metadata)] else old(values)
      ensures chat == if id in values then Some(values[id]) else None
    {
      if id !in values {
        return None;
      }
      values := values[id := values[id].(metadata := metadata)];
      chat := Some(values[id]);
    }

    method Delete(id: string) returns (found: bool)
      requires Valid()
      modifies this
      ensures Valid() && found == (id in old(values))
      ensures order == Without(old(order), id) && values == old(values) - {id}
    {
      if id !in values {
        return false;
      }
      values := values - {id};
      order := CutOut(order, id);
      found := true;
    }

    /** `list` */
    method List(model: string, metadata: map<string, string>, desc: bool, after: string, limit: nat)
      returns (page: Page<Chat>)
      requires Valid()
      ensures var rows := RowsOf(order, values, model, metadata);
        page == PageOf(if desc then Reversed(rows) else rows, after, limit)
    {
      var listing := RowsOf(order, values, model, metadata);
      if desc {
        listing := TurnedAround(listing);
      }
      var rows := SkipTo(listing, after);
      var found := Filter(rows);
      var more := limit > 0 && |found| > limit;
      if more {
        found := found[..limit];
      }
      page := Page(found, more);
    }
  }

  lemma RowsAreUnique(order: seq<string>, values: map<string, Chat>, model: string, metadata: map<string, string>)
    requires Distinct(order) && "" !in order && forall id <- order :: id in values
    ensures UniqueIds(RowsOf(order, values, model, metadata))
      && UniqueIds(Reversed(RowsOf(order, values, model, metadata)))
  {
  }

  ghost function Listing(store: ChatStore, model: string, metadata: map<string, string>, desc: bool): seq<Row<Chat>>
    requires store.Valid()
    reads store
  {
    var rows := RowsOf(store.order, store.values, model, metadata);
    if desc then Reversed(rows) else rows
  }

  /** A client that follows the cursor of an unchanged store. */
  method FollowCursor(store: ChatStore, model: string, metadata: map<string, string>, desc: bool, limit: nat)
    returns (all: seq<Row<Chat>>)
    requires store.Valid() && UniqueIds(Listing(store, model, metadata, desc))
    ensures all == Walk(Listing(store, model, metadata, desc), "", limit)
  {
    hide Walk, PageOf, UniqueIds, RowsOf, Matches;
    ghost var list := Listing(store, model, metadata, desc);
    ghost var whole := Walk(list, "", limit);
    all := [];
    var after := "";
    while true
      invariant all + Walk(list, after, limit) == whole
      decreases |Walk(list, after, limit)|
    {
      var page := store.List(model, metadata, desc, after, limit);
      WalkGoesOn(list, after, limit);
      if !page.more {
        return all + page.rows;
      }
      after := Last(page.rows).id;
      ConcatAssociates(all, page.rows, Walk(list, after, limit));
      all := all + page.rows;
    }
  }

  /** It stops, at any page size, with every matching chat exactly once, in order of insertion
      or in the exact reverse. */
  method WalkChats(store: ChatStore, model: string, metadata: map<string, string>, desc: bool, limit: nat)
    returns (all: seq<Row<Chat>>)
    requires store.Valid() && "" !in store.order
    ensures var found := Matching(RowsOf(store.order, store.values, model, metadata));
      all == if desc then Reversed(found) else found
  {
    RowsAreUnique(store.order, store.values, model, metadata);
    DescendingIsTheReverse(RowsOf(store.order, store.values, model, metadata));
    all := FollowCursor(store, model, metadata, desc, limit);
  }

  // ------------------------------------------------------------------ runs of remembers

  /** The ids of a run, each once, in the order they were last remembered. */
  function LatestOrder(ids: seq<string>): (order: seq<string>)
    ensures Distinct(order) && forall id :: id in order <==> id in ids
  {
    if ids == [] then []
    else
      assert ids == DropLast(ids) + [Last(ids)];
      Without(LatestOrder(DropLast(ids)), Last(ids)) + [Last(ids)]
  }

  /** Where an id was last remembered. */
  function LastUse(ids: seq<string>, id: string): (i: nat)
    requires id in ids
    ensures i < |ids| && ids[i] == id && id !in ids[i + 1..]
  {
    if Last(ids) == id then |ids| - 1
    else
      assert ids == DropLast(ids) + [Last(ids)];
      var i := LastUse(DropLast(ids), id);
      assert ids[i + 1..] == DropLast(ids)[i + 1..] + [Last(ids)];
      i
  }

  predicate Before(order: seq<string>, a: string, b: string) {
    order != [] && if Last(order) == b then a in DropLast(order) else Before(DropLast(order), a, b)
  }

  lemma {:induction false} BeforeIsIn(order: seq<string>, a: string, b: string)
    ensures Before(order, a, b) ==> a in order && b in order
  {
    if order != [] {
      BeforeIsIn(DropLast(order), a, b);
      assert order == DropLast(order) + [Last(order)];
    }
  }

  lemma {:induction false} WithoutKeepsOrder(order: seq<string>, x: string, a: string, b: string)
    requires a != x && b != x
    ensures Before(Without(order, x), a, b) == Before(order, a, b)
  {
    if order != [] {
      var p := DropLast(order);
      WithoutKeepsOrder(p, x, a, b);
      if Last(order) != x {
        assert DropLast(Without(order, x)) == Without(p, x);
      }
    }
  }

  /** It is the order of latest use. */
  lemma {:induction false} LatestOrderIsByLastUse(ids: seq<string>, a: string, b: string)
    requires a in ids && b in ids && a != b
    ensures Before(LatestOrder(ids), a, b) <==> LastUse(ids, a) < LastUse(ids, b)
  {
    var p, x := DropLast(ids), Last(ids);
    var kept := Without(LatestOrder(p), x);
    assert ids == p + [x];
    assert LatestOrder(ids) == kept + [x] && DropLast(kept + [x]) == kept;
    if a == x {
      BeforeIsIn(kept, a, b);
    } else if b != x {
      LatestOrderIsByLastUse(p, a, b);
      WithoutKeepsOrder(LatestOrder(p), x, a, b);
      assert LastUse(ids, a) == LastUse(p, a) && LastUse(ids, b) == LastUse(p, b);
    } else {
      assert a in kept && LastUse(ids, b) == |ids| - 1;
    }
  }

  datatype Entry = Entry(id: string, input: seq<Value>, response: Output)

  datatype Table<V> = Table(order: seq<string>, values: map<string, V>)

  function Ids(run: seq<Entry>): seq<string> {
    seq(|run|, i requires 0 <= i < |run| => run[i].id)
  }

  /** What a run of remembers leaves in a response store: `ResponseStore.Remember`, repeated. */
  function Remembered(run: seq<Entry>, max: nat): Table<Stored> {
    if run == [] then Table([], map[])
    else
      var before := Remembered(DropLast(run), max);
      var e := Last(run);
      var order := LastN(Without(before.order, e.id) + [e.id], max);
      Table(order, Restrict(before.values[e.id := StoredOf(e.input, e.response)], order))
  }

  lemma LastNIgnoresFront<T>(x: seq<T>, y: seq<T>, n: nat)
    requires |y| >= n
    ensures LastN(x + y, n) == LastN(y, n)
  {
  }

  lemma {:induction false} WithoutCounts(order: seq<string>, id: string)
    requires Distinct(order)
    ensures |Without(order, id)| == |order| - if id in order then 1 else 0
  {
    if order != [] {
      WithoutCounts(DropLast(order), id);
      assert order == DropLast(order) + [Last(order)];
    }
  }

  lemma WithoutFront(gone: seq<string>, kept: seq<string>, id: string)
    requires Distinct(kept)
    ensures LastN(Without(gone + kept, id) + [id], |kept|) == LastN(Without(kept, id) + [id], |kept|)
  {
    WithoutAppends(gone, kept, id);
    WithoutCounts(kept, id);
    var front, back := Without(gone, id), Without(kept, id);
    assert (front + back) + [id] == front + (back + [id]);
    LastNIgnoresFront(front, back + [id], |kept|);
  }

  lemma WithoutLastN(order: seq<string>, id: string, max: nat)
    requires Distinct(order)
    ensures LastN(Without(LastN(order, max), id) + [id], max) == LastN(Without(order, id) + [id], max)
  {
    if |order| > max {
      var gone, kept := order[..|order| - max], order[|order| - max..];
      assert order == gone + kept && LastN(order, max) == kept;
      WithoutFront(gone, kept, id);
    }
  }

  /** A listing of known ids and a new one, cut and restricted, still agrees with its values. */
  lemma StillAgrees<V>(values: map<string, V>, order: seq<string>, id: string, value: V, listing: seq<string>, max: nat)
    requires SameIds(order, values)
    requires forall k <- listing :: k in order || k == id
    ensures var kept := LastN(listing, max); SameIds(kept, Restrict(values[id := value], kept))
  {
    var kept := LastN(listing, max);
    assert forall k <- kept :: k in listing;
    hide LastN;
  }

  lemma WithoutOneMore(order: seq<string>, x: string, id: string)
    ensures Without(order + [x], id) == Without(order, id) + if x == id then [] else [x]
  {
    assert DropLast(order + [x]) == order;
    assert Without(order, id) + [] == Without(order, id);
  }

  lemma {:induction false} WithoutAppends(a: seq<string>, b: seq<string>, id: string)
    ensures Without(a + b, id) == Without(a, id) + Without(b, id)
  {
    if b == [] {
      assert a + b == a;
      assert Without(a, id) + [] == Without(a, id);
    } else {
      var p, x := DropLast(b), Last(b);
      var tail := if x == id then [] else [x];
      calc {
        Without(a + b, id);
      ==  { assert a + b == (a + p) + [x]; }
        Without((a + p) + [x], id);
      ==  { WithoutOneMore(a + p, x, id); }
        Without(a + p, id) + tail;
      ==  { WithoutAppends(a, p, id); }
        (Without(a, id) + Without(p, id)) + tail;
      ==  { assert b == p + [x]; WithoutOneMore(p, x, id); }
        Without(a, id) + Without(b, id);
      }
    }
  }

  lemma LastIds(run: seq<Entry>)
    requires run != []
    ensures DropLast(Ids(run)) == Ids(DropLast(run)) && Last(Ids(run)) == Last(run).id
    ensures Ids(run) == Ids(DropLast(run)) + [Last(run).id]
  {
  }

  lemma {:induction false} StoreKeepsTheLatestOrder(run: seq<Entry>, max: nat)
    ensures Remembered(run, max).order == LastN(LatestOrder(Ids(run)), max)
  {
    if run != [] {
      StoreKeepsTheLatestOrder(DropLast(run), max);
      LastIds(run);
      WithoutLastN(LatestOrder(Ids(DropLast(run))), Last(run).id, max);
    }
  }

  lemma {:induction false} StoreKeepsItsOrder(run: seq<Entry>, max: nat)
    ensures SameIds(Remembered(run, max).order, Remembered(run, max).values)
  {
    if run != [] {
      var before, e := Remembered(DropLast(run), max), Last(run);
      StoreKeepsItsOrder(DropLast(run), max);
      var listing := Without(before.order, e.id) + [e.id];
      var kept := LastN(listing, max);
      var value := StoredOf(e.input, e.response);
      assert Remembered(run, max) == Table(kept, Restrict(before.values[e.id := value], kept));
      hide LastN, Distinct, Without, Remembered, Restrict;
      StillAgrees(before.values, before.order, e.id, value, listing, max);
    }
  }

  /** What an id was last remembered with. */
  function LatestStored(run: seq<Entry>, id: string): Stored
    requires id in Ids(run)
  {
    var e := run[LastUse(Ids(run), id)];
    StoredOf(e.input, e.response)
  }

  lemma {:induction false} StoreKeepsTheLatestValues(run: seq<Entry>, max: nat)
    ensures var table := Remembered(run, max);
      forall id <- table.values :: id in Ids(run) && table.values[id] == LatestStored(run, id)
  {
    if run != [] {
      StoreKeepsTheLatestValues(DropLast(run), max);
      LastIds(run);
    }
  }

  /** Without deletions a response store holds exactly the last `max` distinct ids by latest
      remember, each with the value it was last remembered with. */
  lemma StoreKeepsTheLatest(run: seq<Entry>, max: nat)
    ensures var table := Remembered(run, max);
      && table.order == LastN(LatestOrder(Ids(run)), max)
      && SameIds(table.order, table.values)
      && forall id <- table.values :: id in Ids(run) && table.values[id] == LatestStored(run, id)
  {
    StoreKeepsTheLatestOrder(run, max);
    StoreKeepsItsOrder(run, max);
    StoreKeepsTheLatestValues(run, max);
  }

  /** That is what remembering a run leaves in an empty store. */
  method RememberAll(store: ResponseStore, run: seq<Entry>)
    requires store.Valid() && store.order == [] && store.values == map[]
    modifies store
    ensures store.Valid() && Table(store.order, store.values) == Remembered(run, store.max)
  {
    hide Agrees, Restrict, Without, LastN, StoredOf;
    for i := 0 to |run|
      invariant store.Valid() && Table(store.order, store.values) == Remembered(run[..i], store.max)
    {
      PrefixUnfolds(run, i);
      store.Remember(run[i].id, run[i].input, run[i].response);
    }
    assert run[..|run|] == run;
  }

  // ------------------------------------------------------------------ runs of chat remembers

  /** The insertions of a run into a store of `max` entries: an id counts again once it is gone. */
  function Insertions(ids: seq<string>, max: nat): seq<string> {
    if ids == [] then []
    else
      var before := Insertions(DropLast(ids), max);
      if Last(ids) in LastN(before, max) then before else before + [Last(ids)]
  }

  function ChatIds(run: seq<Chat>): seq<string> {
    seq(|run|, i requires 0 <= i < |run| => run[i].id)
  }

  /** What a run of remembers leaves in a chat store: `ChatStore.Remember`, repeated. */
  function RememberedChats(run: seq<Chat>, max: nat): Table<Chat> {
    if run == [] then Table([], map[])
    else
      var before, chat := RememberedChats(DropLast(run), max), Last(run);
      var order := LastN(if chat.id in before.order then before.order else before.order + [chat.id], max);
      Table(order, Restrict(before.values[chat.id := chat], order))
  }

  /** A store for nothing stays empty. */
  lemma NothingIsKept(run: seq<Chat>)
    ensures RememberedChats(run, 0) == Table([], map[])
  {
    if run != [] {
      var before, chat := RememberedChats(DropLast(run), 0), Last(run);
      assert Restrict(before.values[chat.id := chat], []) == map[];
    }
  }

  /** That is what remembering a run leaves in an empty store. */
  method RememberAllChats(store: ChatStore, run: seq<Chat>)
    requires store.Valid() && store.order == [] && store.values == map[]
    modifies store
    ensures store.Valid() && Table(store.order, store.values) == RememberedChats(run, store.max)
  {
    hide Agrees, Restrict;
    for i := 0 to |run|
      invariant store.Valid() && Table(store.order, store.values) == RememberedChats(run[..i], store.max)
    {
      PrefixUnfolds(run, i);
      NothingIsKept(run[..i]);
      NothingIsKept(run[..i + 1]);
      store.Remember(run[i]);
    }
    assert run[..|run|] == run;
  }

  lemma LastNOneMore<T>(s: seq<T>, x: T, n: nat)
    ensures LastN(LastN(s, n), n) == LastN(s, n)
    ensures LastN(LastN(s, n) + [x], n) == LastN(s + [x], n)
  {
    if |s| > n {
      var gone, kept := s[..|s| - n], LastN(s, n);
      assert s + [x] == gone + (kept + [x]);
      LastNIgnoresFront(gone, kept + [x], n);
    }
  }

  lemma LastChatIds(run: seq<Chat>)
    requires run != []
    ensures DropLast(ChatIds(run)) == ChatIds(DropLast(run)) && Last(ChatIds(run)) == Last(run).id
    ensures ChatIds(run) == ChatIds(DropLast(run)) + [Last(run).id]
  {
  }

  lemma {:induction false} ChatStoreKeepsTheLastIds(run: seq<Chat>, max: nat)
    ensures RememberedChats(run, max).order == LastN(Insertions(ChatIds(run), max), max)
  {
    if run != [] {
      ChatStoreKeepsTheLastIds(DropLast(run), max);
      LastChatIds(run);
      LastNOneMore(Insertions(ChatIds(DropLast(run)), max), Last(run).id, max);
    }
  }

  lemma {:induction false} ChatStoreKeepsItsOrder(run: seq<Chat>, max: nat)
    ensures SameIds(RememberedChats(run, max).order, RememberedChats(run, max).values)
  {
    if run != [] {
      var before, chat := RememberedChats(DropLast(run), max), Last(run);
      ChatStoreKeepsItsOrder(DropLast(run), max);
      var listing := if chat.id in before.order then before.order else before.order + [chat.id];
      var kept := LastN(listing, max);
      assert RememberedChats(run, max) == Table(kept, Restrict(before.values[chat.id := chat], kept));
      hide LastN, RememberedChats, Restrict;
      StillAgrees(before.values, before.order, chat.id, chat, listing, max);
    }
  }

  lemma {:induction false} ChatStoreKeepsTheLatestValues(run: seq<Chat>, max: nat)
    ensures var table := RememberedChats(run, max);
      forall id <- table.values :: id in ChatIds(run) && table.values[id] == run[LastUse(ChatIds(run), id)]
  {
    if run != [] {
      ChatStoreKeepsTheLatestValues(DropLast(run), max);
      LastChatIds(run);
    }
  }

  /** A chat store holds exactly the last `max` insertions, so eviction goes by first insertion;
      but each with the value it was last remembered with. */
  lemma ChatStoreKeepsTheLastInserted(run: seq<Chat>, max: nat)
    ensures var table := RememberedChats(run, max);
      && table.order == LastN(Insertions(ChatIds(run), max), max)
      && SameIds(table.order, table.values)
      && forall id <- table.values :: id in ChatIds(run) && table.values[id] == run[LastUse(ChatIds(run), id)]
  {
    ChatStoreKeepsTheLastIds(run, max);
    ChatStoreKeepsItsOrder(run, max);
    ChatStoreKeepsTheLatestValues(run, max);
  }

  /** An id that is remembered again becomes the last to be evicted in one store, and keeps
      its turn in the other. */
  lemma ReuseRefreshesResponsesOnly(order: seq<string>, id: string, max: nat)
    requires Distinct(order) && id in order && |order| <= max
    ensures LastN(Without(order, id) + [id], max) == Without(order, id) + [id]
    ensures forall a <- order :: a != id ==> Before(Without(order, id) + [id], a, id)
    ensures LastN(if id in order then order else order + [id], max) == order
  {
    WithoutCounts(order, id);
    assert DropLast(Without(order, id) + [id]) == Without(order, id);
  }
}
