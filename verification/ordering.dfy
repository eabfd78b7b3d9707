/** Selection and sorting as the source obtains them from database queries:
    `where(...).order(key).first` and `order(key)`. */
module Ordering {
  import opened Wrappers

  /** The index of the first element that passes `keep` and has the least
      `key` among those that do (`where(keep).order(key).first`). */
  function FirstMinimal<T>(xs: seq<T>, keep: T -> bool, key: T -> int): (r: Option<nat>)
    ensures r.None? <==> (forall i :: 0 <= i < |xs| ==> !keep(xs[i]))
    ensures r.Some? ==> r.value < |xs| && keep(xs[r.value])
    ensures r.Some? ==> forall j :: 0 <= j < |xs| && keep(xs[j]) ==> key(xs[r.value]) <= key(xs[j])
    ensures r.Some? ==> forall j :: 0 <= j < r.value && keep(xs[j]) ==> key(xs[r.value]) < key(xs[j])
    decreases |xs|
  {
    if |xs| == 0 then None
    else
      var prev := FirstMinimal(xs[..|xs| - 1], keep, key);
      var last := xs[|xs| - 1];
      if keep(last) && (prev.None? || key(last) < key(xs[prev.value])) then Some(|xs| - 1)
      else prev
  }

  /** `le` orders all values of its type: it is total and transitive. */
  ghost predicate TotalPreorder<T(!new)>(le: (T, T) -> bool)
  {
    && (forall a, b :: le(a, b) || le(b, a))
    && (forall a, b, c :: le(a, b) && le(b, c) ==> le(a, c))
  }

  /** Every earlier element is ordered no later than every later one. */
  ghost predicate SortedBy<T>(s: seq<T>, le: (T, T) -> bool)
  {
    forall i, j :: 0 <= i < j < |s| ==> le(s[i], s[j])
  }

  function Insert<T(!new)>(x: T, s: seq<T>, le: (T, T) -> bool): (r: seq<T>)
    requires TotalPreorder(le)
    requires SortedBy(s, le)
    ensures SortedBy(r, le)
    ensures multiset(r) == multiset(s) + multiset{x}
    ensures forall i :: 0 <= i < |r| ==> r[i] == x || r[i] in s
    decreases |s|
  {
    if |s| == 0 then [x]
    else if le(x, s[0]) then [x] + s
    else
      var rest := Insert(x, s[1..], le);
      assert s == [s[0]] + s[1..];
      assert forall i :: 0 <= i < |rest| ==> le(s[0], rest[i]) by {
        forall i | 0 <= i < |rest|
          ensures le(s[0], rest[i])
        {
          if rest[i] != x {
            var k :| 1 <= k < |s| && s[k] == rest[i];
          }
        }
      }
      [s[0]] + rest
  }

  /** The elements of `xs` rearranged so that `le` holds between every
      earlier and later element (`order(key)`). */
  function SortBy<T(!new)>(xs: seq<T>, le: (T, T) -> bool): (r: seq<T>)
    requires TotalPreorder(le)
    ensures SortedBy(r, le)
    ensures multiset(r) == multiset(xs)
    decreases |xs|
  {
    if |xs| == 0 then []
    else
      assert xs == [xs[0]] + xs[1..];
      Insert(xs[0], SortBy(xs[1..], le), le)
  }
}
