/** Small shared vocabulary: optional values and sequences read from the right,
    so that a loop invariant about `s[..i]` is one unfolding away from `s[..i+1]`. */
module Prelude {

  datatype Option<+T> = None | Some(value: T)

  function Last<T>(s: seq<T>): T
    requires s != []
  {
    s[|s| - 1]
  }

  function DropLast<T>(s: seq<T>): seq<T>
    requires s != []
  {
    s[..|s| - 1]
  }

  ghost predicate Distinct<T>(s: seq<T>) {
    forall i, j :: 0 <= i < j < |s| ==> s[i] != s[j]
  }

  /** Where a name first stands in a list, or the list's length when it is not there. */
  function Find(names: seq<string>, name: string): (i: nat)
    ensures i <= |names| && (i < |names| ==> names[i] == name)
    ensures forall k :: 0 <= k < i ==> names[k] != name
  {
    if names == [] || names[0] == name then 0 else Find(names[1..], name) + 1
  }

  /** The last `n` elements, or all of them when there are fewer. */
  function LastN<T>(s: seq<T>, n: nat): seq<T> {
    if |s| <= n then s else s[|s| - n..]
  }

  /** Which stand at the end of the list, as they stood. */
  lemma LastNMeans<T>(s: seq<T>, n: nat)
    ensures |LastN(s, n)| == if |s| < n then |s| else n
    ensures forall i :: 0 <= i < |LastN(s, n)| ==> LastN(s, n)[i] == s[|s| - |LastN(s, n)| + i]
  {
  }

  lemma PrefixUnfolds<T>(s: seq<T>, i: nat)
    requires i < |s|
    ensures DropLast(s[..i + 1]) == s[..i] && Last(s[..i + 1]) == s[i]
  {
  }
}
