/** internal/app/server.go, `paginateMaps` and `cursorPage`, and the listing of
    internal/app/store.go: pages cut from a list by the id of the last row seen. */
module CursorPages {
  import opened Prelude

  /** A row of a list; `kept` tells whether it passes the filters of the listing. */
  datatype Row<T> = Row(id: string, value: T, kept: bool)

  datatype Page<T> = Page(rows: seq<Row<T>>, more: bool)

  ghost predicate UniqueIds<T>(rows: seq<Row<T>>) {
    (forall i, j :: 0 <= i < j < |rows| ==> rows[i].id != rows[j].id) && forall row <- rows :: row.id != ""
  }

  function Reversed<T>(s: seq<T>): (r: seq<T>)
    ensures |r| == |s| && forall i :: 0 <= i < |s| ==> r[i] == s[|s| - 1 - i]
  {
    if s == [] then [] else [Last(s)] + Reversed(DropLast(s))
  }

  function Matching<T>(rows: seq<Row<T>>): seq<Row<T>> {
    if rows == [] then [] else (if rows[0].kept then [rows[0]] else []) + Matching(rows[1..])
  }

  /** Where the row with this id is, or the length when there is none. */
  function Position<T>(rows: seq<Row<T>>, id: string): (i: nat)
    ensures i <= |rows| && (i < |rows| ==> rows[i].id == id)
    ensures forall k :: 0 <= k < i ==> rows[k].id != id
  {
    var ids := seq(|rows|, i requires 0 <= i < |rows| => rows[i].id);
    assert forall k :: 0 <= k < |rows| ==> ids[k] == rows[k].id;
    Find(ids, id)
  }

  /** The rows after the cursor; an empty or unknown cursor is at the start. */
  function Rest<T>(rows: seq<Row<T>>, after: string): seq<Row<T>> {
    if after == "" || Position(rows, after) == |rows| then rows else rows[Position(rows, after) + 1..]
  }

  function Cut<T>(found: seq<Row<T>>, limit: nat): Page<T> {
    if limit > 0 && |found| > limit then Page(found[..limit], true) else Page(found, false)
  }

  function PageOf<T>(rows: seq<Row<T>>, after: string, limit: nat): Page<T> {
    Cut(Matching(Rest(rows, after)), limit)
  }

  /** Spelled out: a page begins what is found, holds at most `limit` rows when there is a limit,
      and is all of it unless there is more. */
  lemma PagesFit<T>(rows: seq<Row<T>>, after: string, limit: nat)
    ensures var page, found := PageOf(rows, after, limit), Matching(Rest(rows, after));
      && page.rows <= found && (limit > 0 ==> |page.rows| <= limit)
      && (page.more <==> limit > 0 && |found| > limit) && (page.more ==> |page.rows| == limit)
      && (!page.more ==> page.rows == found)
  {
  }

  /** The cursor is the last row that was seen: it and the rows before it are left out. */
  lemma RestMeans<T>(rows: seq<Row<T>>, i: nat)
    requires i < |rows| && rows[i].id != "" && forall k :: 0 <= k < i ==> rows[k].id != rows[i].id
    ensures Rest(rows, rows[i].id) == rows[i + 1..]
  {
    PositionIs(rows, rows[i].id, i);
  }

  /** Without a cursor, or with one that is not there, none is. */
  lemma NoCursorIsTheStart<T>(rows: seq<Row<T>>, after: string)
    requires after == "" || forall row <- rows :: row.id != after
    ensures Rest(rows, after) == rows
  {
    var p := Position(rows, after);
    assert p < |rows| ==> rows[p] in rows;
  }

  /** What is found are the rows that pass the filters, in order: `MatchingAppends` for one row. */
  lemma MatchingOfOne<T>(row: Row<T>)
    ensures Matching([row]) == if row.kept then [row] else []
  {
    assert [row][1..] == [];
  }

  // ------------------------------------------------------------------ the code's form

  method ReverseInPlace<T>(a: array<T>)
    modifies a
    ensures a[..] == Reversed(old(a[..]))
  {
    var i, j := 0, a.Length - 1;
    while i < j
      invariant 0 <= i && j == a.Length - 1 - i && i <= j + 1
      invariant forall k :: 0 <= k < a.Length ==>
        a[k] == if k < i || j < k then old(a[a.Length - 1 - k]) else old(a[k])
    {
      a[i], a[j] := a[j], a[i];
      i, j := i + 1, j - 1;
    }
    assert forall k :: 0 <= k < a.Length ==> a[k] == old(a[..])[a.Length - 1 - k];
  }

  /** A copy of a list, turned around. */
  method TurnedAround<T>(list: seq<T>) returns (turned: seq<T>)
    ensures turned == Reversed(list)
  {
    var a := new T[|list|](i requires 0 <= i < |list| => list[i]);
    assert a[..] == list;
    ReverseInPlace(a);
    turned := a[..];
  }

  /** Drops everything up to the cursor, if it is there. */
  method SkipTo<T>(list: seq<Row<T>>, after: string) returns (rows: seq<Row<T>>)
    ensures rows == Rest(list, after)
    ensures forall row <- rows :: row in list
  {
    rows := list;
    if after != "" {
      for i := 0 to |list|
        invariant forall k :: 0 <= k < i ==> list[k].id != after
      {
        if list[i].id == after {
          PositionIs(list, after, i);
          return list[i + 1..];
        }
      }
    }
  }

  /** The rows that pass the filters. */
  method Filter<T>(rows: seq<Row<T>>) returns (found: seq<Row<T>>)
    ensures found == Matching(rows)
  {
    found := [];
    for i := 0 to |rows|
      invariant found == Matching(rows[..i])
    {
      assert rows[..i + 1] == rows[..i] + [rows[i]];
      MatchingAppends(rows[..i], [rows[i]]);
      assert [rows[i]][1..] == [] && found + [] == found;
      if rows[i].kept {
        found := found + [rows[i]];
      }
    }
    assert rows[..|rows|] == rows;
  }

  /** `paginateMaps`: every row counts, and the list is turned around in place. */
  method Paginate<T>(items: array<Row<T>>, desc: bool, after: string, limit: nat) returns (page: Page<T>)
    requires forall i :: 0 <= i < items.Length ==> items[i].kept
    modifies items
    ensures page == PageOf(if desc then Reversed(old(items[..])) else old(items[..]), after, limit)
  {
    if desc {
      ReverseInPlace(items);
    }
    var rows := SkipTo(items[..], after);
    AllMatch(rows);
    var more := limit > 0 && |rows| > limit;
    page := Page(if more then rows[..limit] else rows, more);
  }

  lemma PositionIs<T>(rows: seq<Row<T>>, id: string, i: nat)
    requires i < |rows| && rows[i].id == id && forall k :: 0 <= k < i ==> rows[k].id != id
    ensures Position(rows, id) == i
  {
  }

  lemma {:induction false} AllMatch<T>(rows: seq<Row<T>>)
    requires forall row <- rows :: row.kept
    ensures Matching(rows) == rows
  {
    if rows != [] {
      AllMatch(rows[1..]);
      assert rows == [rows[0]] + rows[1..];
    }
  }

  // ------------------------------------------------------------------ walking the pages

  lemma {:induction false} MatchingSplits<T>(rows: seq<Row<T>>, j: nat) returns (p: nat)
    requires j < |Matching(rows)|
    ensures p < |rows| && rows[p] == Matching(rows)[j]
    ensures Matching(rows[p + 1..]) == Matching(rows)[j + 1..]
  {
    if rows[0].kept {
      if j == 0 {
        p := 0;
      } else {
        p := MatchingSplits(rows[1..], j - 1);
        assert rows[1..][p + 1..] == rows[p + 2..];
        p := p + 1;
      }
    } else {
      p := MatchingSplits(rows[1..], j);
      assert rows[1..][p + 1..] == rows[p + 2..];
      p := p + 1;
    }
  }

  lemma RestFollows<T>(rows: seq<Row<T>>, i: nat)
    requires UniqueIds(rows) && i < |rows|
    ensures Rest(rows, rows[i].id) == rows[i + 1..]
  {
    PositionIs(rows, rows[i].id, i);
    assert rows[i] in rows;
  }

  lemma RestIsASuffix<T>(rows: seq<Row<T>>, after: string) returns (skipped: nat)
    ensures skipped <= |rows| && Rest(rows, after) == rows[skipped..]
  {
    skipped := |rows| - |Rest(rows, after)|;
  }

  lemma FullPage<T>(rows: seq<Row<T>>, after: string, limit: nat)
    requires PageOf(rows, after, limit).more
    ensures var page, found := PageOf(rows, after, limit).rows, Matching(Rest(rows, after));
      0 < limit < |found| && page == found[..limit] && Last(page) == found[limit - 1]
  {
  }

  lemma RowsAfterAMatch<T>(rows: seq<Row<T>>, after: string, n: nat)
    requires UniqueIds(rows) && 0 < n <= |Matching(Rest(rows, after))|
    ensures var found := Matching(Rest(rows, after)); Matching(Rest(rows, found[n - 1].id)) == found[n..]
  {
    hide UniqueIds, Matching, Rest, Position;
    var rest := Rest(rows, after);
    var skipped := RestIsASuffix(rows, after);
    var p := MatchingSplits(rest, n - 1);
    var i := skipped + p;
    assert rest[p] == rows[i] && rest[p + 1..] == rows[i + 1..];
    RestFollows(rows, i);
  }

  /** The page after a full page starts where that one stopped, even though the cursor is a
      row of the unfiltered list. */
  lemma NextPageContinues<T>(rows: seq<Row<T>>, after: string, limit: nat)
    requires UniqueIds(rows) && PageOf(rows, after, limit).more
    ensures var page := PageOf(rows, after, limit).rows;
      |page| == limit > 0 && Matching(Rest(rows, Last(page).id)) == Matching(Rest(rows, after))[limit..]
  {
    FullPage(rows, after, limit);
    hide UniqueIds, Matching, Rest, Position, PageOf;
    RowsAfterAMatch(rows, after, limit);
  }

  lemma TakeAndDrop<T>(s: seq<T>, n: nat)
    requires n <= |s|
    ensures s[..n] + s[n..] == s
  {
  }

  lemma PagesAddUp<T>(rows: seq<Row<T>>, after: string, limit: nat)
    requires UniqueIds(rows)
    ensures var page, found := PageOf(rows, after, limit), Matching(Rest(rows, after));
      if page.more then
        && page.rows != []
        && page.rows + Matching(Rest(rows, Last(page.rows).id)) == found
        && |Matching(Rest(rows, Last(page.rows).id))| < |found|
      else page.rows == found
  {
    if PageOf(rows, after, limit).more {
      NextPageContinues(rows, after, limit);
      TakeAndDrop(Matching(Rest(rows, after)), limit);
    }
  }

  lemma ConcatAssociates<T>(a: seq<T>, b: seq<T>, c: seq<T>)
    ensures a + (b + c) == (a + b) + c
  {
  }

  /** What a client collects by asking for `after` = `last_id` while `has_more`. */
  function Walk<T>(rows: seq<Row<T>>, after: string, limit: nat): (all: seq<Row<T>>)
    requires UniqueIds(rows)
    ensures all == Matching(Rest(rows, after))
    decreases |Matching(Rest(rows, after))|
  {
    var page := PageOf(rows, after, limit);
    PagesAddUp(rows, after, limit);
    if page.more then page.rows + Walk(rows, Last(page.rows).id, limit)
    else page.rows
  }

  /** One page of the walk. */
  lemma WalkGoesOn<T>(rows: seq<Row<T>>, after: string, limit: nat)
    requires UniqueIds(rows)
    ensures var page := PageOf(rows, after, limit);
      if page.more then
        && page.rows != []
        && Walk(rows, after, limit) == page.rows + Walk(rows, Last(page.rows).id, limit)
        && |Walk(rows, Last(page.rows).id, limit)| < |Walk(rows, after, limit)|
      else Walk(rows, after, limit) == page.rows
  {
    PagesAddUp(rows, after, limit);
  }

  lemma {:induction false} MatchingAppends<T>(a: seq<Row<T>>, b: seq<Row<T>>)
    ensures Matching(a + b) == Matching(a) + Matching(b)
  {
    if a == [] {
      assert a + b == b;
    } else {
      var p, head := a[1..], if a[0].kept then [a[0]] else [];
      assert (a + b)[1..] == p + b && (a + b)[0] == a[0];
      MatchingAppends(p, b);
      assert Matching(a + b) == head + Matching(p + b) && Matching(a) == head + Matching(p);
      hide Matching;
      ConcatAssociates(head, Matching(p), Matching(b));
    }
  }

  lemma ReversedOneMore<T>(s: seq<T>, x: T)
    ensures Reversed(s + [x]) == [x] + Reversed(s)
  {
    assert DropLast(s + [x]) == s;
  }

  /** Walking a list backwards collects the same rows in the opposite order. */
  lemma {:induction false} DescendingIsTheReverse<T>(rows: seq<Row<T>>)
    ensures Matching(Reversed(rows)) == Reversed(Matching(rows))
  {
    if rows != [] {
      var p, x := DropLast(rows), Last(rows);
      DescendingIsTheReverse(p);
      MatchingAppends(p, [x]);
      assert rows == p + [x] && Reversed(rows) == [x] + Reversed(p);
      assert ([x] + Reversed(p))[1..] == Reversed(p) && [x][1..] == [];
      if x.kept {
        assert Matching(rows) == Matching(p) + [x];
        ReversedOneMore(Matching(p), x);
      } else {
        assert Matching(rows) == Matching(p) + [] == Matching(p);
      }
    }
  }
}
