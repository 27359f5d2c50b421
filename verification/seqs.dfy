/** Sequence operations that mirror the JavaScript array methods the order
    workflow relies on. */
module Seqs {

  /** `Array.prototype.filter`: the elements of `s` that `keep` accepts, in
      their original order. The callback may be partial (it may read a record
      that only exists for some elements); it must be defined on every element. */
  function Filter<T(!new)>(s: seq<T>, keep: T --> bool): (kept: seq<T>)
    requires forall x :: x in s ==> keep.requires(x)
    ensures |kept| <= |s|
    ensures forall x :: x in kept <==> x in s && keep(x)
    ensures |kept| == 0 <==> forall i :: 0 <= i < |s| ==> !keep(s[i])
  {
    if |s| == 0 then []
    else if keep(s[0]) then [s[0]] + Filter(s[1..], keep)
    else Filter(s[1..], keep)
  }

  /** `i` is the position of the first element of `s` that `keep` accepts. */
  ghost predicate FirstKeptAt<T(!new)>(s: seq<T>, keep: T --> bool, i: int)
    requires forall x :: x in s ==> keep.requires(x)
  {
    && 0 <= i < |s|
    && keep(s[i])
    && forall j :: 0 <= j < i ==> !keep(s[j])
  }

  /** `filter(...)[0]` is the element at the first accepted position. */
  lemma {:induction false} FilterStartsAtFirstKept<T(!new)>(s: seq<T>, keep: T --> bool, i: int)
    requires forall x :: x in s ==> keep.requires(x)
    requires FirstKeptAt(s, keep, i)
    ensures |Filter(s, keep)| > 0 && Filter(s, keep)[0] == s[i]
  {
    if i > 0 {
      assert !keep(s[0]);
      assert FirstKeptAt(s[1..], keep, i - 1);
      FilterStartsAtFirstKept(s[1..], keep, i - 1);
    }
  }

  /** Conversely, a non-empty `filter(...)` starts with the element at the
      first accepted position. */
  lemma {:induction false} FilterHeadIsFirstKept<T(!new)>(s: seq<T>, keep: T --> bool)
    requires forall x :: x in s ==> keep.requires(x)
    requires |Filter(s, keep)| > 0
    ensures exists i :: FirstKeptAt(s, keep, i) && Filter(s, keep)[0] == s[i]
  {
    if keep(s[0]) {
      assert FirstKeptAt(s, keep, 0);
    } else {
      FilterHeadIsFirstKept(s[1..], keep);
      var i :| FirstKeptAt(s[1..], keep, i) && Filter(s[1..], keep)[0] == s[1..][i];
      assert FirstKeptAt(s, keep, i + 1);
    }
  }
}
