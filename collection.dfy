/**
  The MongoDB collection operations the routes use, over a collection held as
  a sequence of documents in natural (insertion) order. A query filter is a
  total predicate on documents.
*/
module Collection {
  import opened Wrappers

  /** `findOne(filter)`: the position of the first matching document, if any. */
  function FindFirst<T>(s: seq<T>, matches: T -> bool): (r: Option<nat>)
    ensures r.Some? ==> r.value < |s| && matches(s[r.value])
    ensures r.Some? ==> forall j :: 0 <= j < r.value ==> !matches(s[j])
    ensures r.None? <==> forall j :: 0 <= j < |s| ==> !matches(s[j])
  {
    if s == [] then None
    else if matches(s[0]) then Some(0)
    else
      match FindFirst(s[1..], matches)
      case None => None
      case Some(i) => Some(i + 1)
  }

  /** `find(filter).toArray()`: the matching documents, in collection order. */
  function Filter<T(!new)>(s: seq<T>, keep: T -> bool): (r: seq<T>)
    ensures forall x :: x in r <==> x in s && keep(x)
    ensures |r| <= |s|
  {
    if s == [] then []
    else (if keep(s[0]) then [s[0]] else []) + Filter(s[1..], keep)
  }

  /** `deleteOne(filter)`: the first matching document is removed, the others keep their order. */
  function DeleteFirst<T(!new)>(s: seq<T>, matches: T -> bool): (r: seq<T>)
    ensures FindFirst(s, matches).None? ==> r == s
    ensures FindFirst(s, matches).Some? ==>
      var i := FindFirst(s, matches).value;
      |r| == |s| - 1 &&
      (forall j :: 0 <= j < i ==> r[j] == s[j]) &&
      (forall j :: i <= j < |r| ==> r[j] == s[j + 1])
    ensures forall x :: x in s && !matches(x) ==> x in r
    ensures forall x :: x in r ==> x in s
  {
    match FindFirst(s, matches)
    case None => s
    case Some(i) => s[..i] + s[i + 1..]
  }

  /** Filtering distributes over concatenation. */
  lemma {:induction false} FilterConcat<T(!new)>(a: seq<T>, b: seq<T>, keep: T -> bool)
    ensures Filter(a + b, keep) == Filter(a, keep) + Filter(b, keep)
  {
    if a == [] {
      assert a + b == b;
    } else {
      assert (a + b)[1..] == a[1..] + b;
      FilterConcat(a[1..], b, keep);
    }
  }

  /** Removing or replacing one document outside the filter does not change what the filter returns. */
  lemma FilterSplice<T(!new)>(s: seq<T>, i: nat, y: seq<T>, keep: T -> bool)
    requires i < |s|
    requires !keep(s[i])
    requires forall x :: x in y ==> !keep(x)
    ensures Filter(s[..i] + y + s[i + 1..], keep) == Filter(s, keep)
  {
    assert s == s[..i] + [s[i]] + s[i + 1..];
    FilterConcat(s[..i] + y, s[i + 1..], keep);
    FilterConcat(s[..i], y, keep);
    FilterConcat(s[..i] + [s[i]], s[i + 1..], keep);
    FilterConcat(s[..i], [s[i]], keep);
    FilterNone(y, keep);
    FilterNone([s[i]], keep);
  }

  lemma FilterNone<T(!new)>(s: seq<T>, keep: T -> bool)
    requires forall x :: x in s ==> !keep(x)
    ensures Filter(s, keep) == []
  {
  }
}
