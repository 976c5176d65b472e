/** internal/app/accounts.go `orderedLocked`: accounts in listing order, "default" first and
    then by id. The listing of a set of ids is unique, so the choice among equals is. */
module AccountOrder {
  import opened Prelude

  const DEFAULT_ACCOUNT := "default"

  /** Lexicographic order. */
  predicate Less(a: string, b: string) {
    b != [] && (a == [] || a[0] < b[0] || (a[0] == b[0] && Less(a[1..], b[1..])))
  }

  predicate Before(a: string, b: string) {
    if a == DEFAULT_ACCOUNT || b == DEFAULT_ACCOUNT then a == DEFAULT_ACCOUNT && b != DEFAULT_ACCOUNT
    else Less(a, b)
  }

  lemma {:induction false} LessIsTotal(a: string, b: string)
    ensures !(Less(a, b) && Less(b, a)) && (a == b || Less(a, b) || Less(b, a)) && !Less(a, a)
  {
    if a != [] && b != [] {
      LessIsTotal(a[1..], b[1..]);
      assert a == [a[0]] + a[1..] && b == [b[0]] + b[1..];
    }
    if a != [] {
      LessIsTotal(a[1..], a[1..]);
    }
  }

  lemma {:induction false} LessIsTransitive(a: string, b: string, c: string)
    requires Less(a, b) && Less(b, c)
    ensures Less(a, c)
  {
    if a != [] && a[0] == b[0] == c[0] {
      LessIsTransitive(a[1..], b[1..], c[1..]);
    }
  }

  /** The first place where they differ decides; a beginning comes before what it begins. */
  lemma {:induction false} LessMeans(a: string, b: string, i: nat)
    requires i <= |a| && i <= |b| && a[..i] == b[..i] && (i < |a| && i < |b| ==> a[i] != b[i])
    ensures Less(a, b) <==> i < |b| && (i == |a| || a[i] < b[i])
  {
    if i > 0 {
      assert a[0] == a[..i][0] && b[0] == b[..i][0];
      assert a[1..][..i - 1] == a[..i][1..] && b[1..][..i - 1] == b[..i][1..];
      LessMeans(a[1..], b[1..], i - 1);
    }
  }

  lemma BeforeIsTotal(a: string, b: string)
    ensures !(Before(a, b) && Before(b, a)) && (a == b || Before(a, b) || Before(b, a)) && !Before(a, a)
  {
    LessIsTotal(a, b);
  }

  lemma BeforeIsTransitive(a: string, b: string, c: string)
    requires Before(a, b) && Before(b, c)
    ensures Before(a, c)
  {
    if a != DEFAULT_ACCOUNT && b != DEFAULT_ACCOUNT && c != DEFAULT_ACCOUNT {
      LessIsTransitive(a, b, c);
    }
  }

  predicate InOrder(s: seq<string>, i: nat, j: nat)
    requires i < j < |s|
  {
    Before(s[i], s[j])
  }

  ghost predicate Sorted(s: seq<string>) {
    forall i: nat, j: nat :: i < j < |s| ==> InOrder(s, i, j)
  }

  ghost predicate IsListing(s: seq<string>, ids: set<string>) {
    Sorted(s) && forall x :: x in s <==> x in ids
  }

  lemma ListingIsDistinct(s: seq<string>)
    requires Sorted(s)
    ensures Distinct(s)
  {
    forall i, j | 0 <= i < j < |s|
      ensures s[i] != s[j]
    {
      assert InOrder(s, i, j);
      BeforeIsTotal(s[i], s[j]);
    }
  }

  lemma {:induction false} ListingIsUnique(s: seq<string>, t: seq<string>, ids: set<string>)
    requires IsListing(s, ids) && IsListing(t, ids)
    ensures s == t
  {
    assert (s == [] || s[0] in s) && (t == [] || t[0] in t);
    if s != [] && t != [] {
      var i :| 0 <= i < |t| && t[i] == s[0];
      var j :| 0 <= j < |s| && s[j] == t[0];
      assert (j > 0 ==> InOrder(s, 0, j)) && (i > 0 ==> InOrder(t, 0, i));
      BeforeIsTotal(s[0], t[0]);
      TailIsListing(s, ids);
      TailIsListing(t, ids);
      ListingIsUnique(s[1..], t[1..], ids - {s[0]});
      assert s == [s[0]] + s[1..] && t == [t[0]] + t[1..];
    }
  }

  lemma TailIsListing(s: seq<string>, ids: set<string>)
    requires IsListing(s, ids) && s != []
    ensures IsListing(s[1..], ids - {s[0]})
  {
    assert s == [s[0]] + s[1..];
    BeforeIsTotal(s[0], s[0]);
    forall x <- s[1..]
      ensures x != s[0]
    {
      var i :| 0 <= i < |s| - 1 && s[1..][i] == x;
      assert InOrder(s, 0, i + 1);
    }
    forall i: nat, j: nat | i < j < |s| - 1
      ensures InOrder(s[1..], i, j)
    {
      assert InOrder(s, i + 1, j + 1);
    }
  }

  /** A new id goes before the first that follows it. */
  method Insert(s: seq<string>, id: string, ghost ids: set<string>) returns (t: seq<string>)
    requires IsListing(s, ids) && id !in ids
    ensures IsListing(t, ids + {id})
  {
    var n := 0;
    while n < |s| && Before(s[n], id)
      invariant n <= |s| && forall i :: 0 <= i < n ==> Before(s[i], id)
    {
      n := n + 1;
    }
    t := s[..n] + [id] + s[n..];
    forall i | n <= i < |s|
      ensures Before(id, s[i])
    {
      BeforeIsTotal(s[n], id);
      assert s[n] in s;
      if i > n {
        assert InOrder(s, n, i);
        BeforeIsTransitive(id, s[n], s[i]);
      }
    }
    forall i: nat, j: nat | i < j < |t|
      ensures InOrder(t, i, j)
    {
      if j < n {
        assert InOrder(s, i, j);
      } else if i > n {
        assert InOrder(s, i - 1, j - 1);
      } else if i < n < j {
        assert InOrder(s, i, j - 1);
      }
    }
    assert forall x :: x in t <==> x in s || x == id;
  }

  method Listing(ids: set<string>) returns (s: seq<string>)
    ensures IsListing(s, ids)
  {
    s := [];
    var left := ids;
    while left != {}
      invariant left <= ids && IsListing(s, ids - left)
      decreases left
    {
      var id :| id in left;
      s := Insert(s, id, ids - left);
      left := left - {id};
      assert ids - left == ids - (left + {id}) + {id};
    }
  }
}
