/** The LINQ operators the resolution engine is written with: `Where(p).ToList()`,
    `First()` / `FirstOrDefault()` and `Where(p).First()`, over finite sequences. */
module Seqs {

  datatype Option<+T> = None | Some(value: T)

  /** `Where(p).ToList()`: the elements of `s` that satisfy `p`, in their order in `s`. */
  function Filter<T>(s: seq<T>, p: T -> bool): (r: seq<T>)
    ensures |r| <= |s|
    decreases |s|
  {
    if |s| == 0 then []
    else if p(s[0]) then [s[0]] + Filter(s[1..], p)
    else Filter(s[1..], p)
  }

  /** Every element kept satisfies the predicate. */
  lemma {:induction false} FilterSatisfies<T>(s: seq<T>, p: T -> bool)
    ensures forall k :: 0 <= k < |Filter(s, p)| ==> p(Filter(s, p)[k])
    decreases |s|
  {
    if |s| > 0 {
      FilterSatisfies(s[1..], p);
      if p(s[0]) {
        assert forall k :: 1 <= k < |Filter(s, p)| ==> Filter(s, p)[k] == Filter(s[1..], p)[k - 1];
      }
    }
  }

  /** `FirstOrDefault()` on a list of references: the head, or `None` (C#'s null). */
  function First<T>(s: seq<T>): Option<T>
  {
    if |s| == 0 then None else Some(s[0])
  }

  /** The position of the first element of `s` satisfying `p`. */
  function FirstIndex<T>(s: seq<T>, p: T -> bool): (r: Option<nat>)
    ensures r.Some? ==> r.value < |s| && p(s[r.value])
    decreases |s|
  {
    if |s| == 0 then None
    else if p(s[0]) then Some(0)
    else match FirstIndex(s[1..], p)
      case None => None
      case Some(k) => Some(k + 1)
  }

  /** The position found is the least one satisfying `p`, and there is none
      exactly when no element satisfies `p`. */
  lemma {:induction false} FirstIndexLeast<T>(s: seq<T>, p: T -> bool)
    ensures FirstIndex(s, p).Some? ==> forall k :: 0 <= k < FirstIndex(s, p).value ==> !p(s[k])
    ensures FirstIndex(s, p).None? <==> forall k :: 0 <= k < |s| ==> !p(s[k])
    decreases |s|
  {
    if |s| > 0 && !p(s[0]) {
      FirstIndexLeast(s[1..], p);
      if FirstIndex(s, p).Some? {
        forall k | 0 <= k < FirstIndex(s, p).value ensures !p(s[k]) {
          if k > 0 {
            assert s[k] == s[1..][k - 1];
          }
        }
      }
    }
  }

  /** The first position satisfying `p` is `i` exactly when `i` satisfies it and
      nothing before does. */
  lemma FirstIndexAt<T>(s: seq<T>, p: T -> bool, i: nat)
    requires i < |s| && p(s[i])
    requires forall k :: 0 <= k < i ==> !p(s[k])
    ensures FirstIndex(s, p) == Some(i)
  {
    FirstIndexLeast(s, p);
    var r := FirstIndex(s, p);
    assert r.Some?;
    assert !(r.value < i);
    assert !(i < r.value);
  }

  /** `Where(p).First()`, with `None` where LINQ throws on an empty sequence. */
  function FirstWhere<T>(s: seq<T>, p: T -> bool): (r: Option<T>)
    ensures r.Some? ==> p(r.value)
  {
    match FirstIndex(s, p)
    case None => None
    case Some(k) => Some(s[k])
  }

  /** Filtering and taking the head finds the same element as searching for the first match. */
  lemma {:induction false} FirstOfFilter<T>(s: seq<T>, p: T -> bool)
    ensures First(Filter(s, p)) == FirstWhere(s, p)
    decreases |s|
  {
    if |s| > 0 && !p(s[0]) {
      FirstOfFilter(s[1..], p);
    }
  }

  /** The element found is the first one satisfying `p`, and there is none exactly
      when no element satisfies `p`. */
  lemma FirstWhereIsFirst<T>(s: seq<T>, p: T -> bool)
    ensures FirstWhere(s, p).None? <==> forall k :: 0 <= k < |s| ==> !p(s[k])
    ensures FirstWhere(s, p).Some? ==>
      exists k :: 0 <= k < |s| && FirstWhere(s, p).value == s[k] && forall m :: 0 <= m < k ==> !p(s[m])
  {
    FirstIndexLeast(s, p);
  }

  /** Two filters in a row keep exactly what their conjunction keeps, in the same order. */
  lemma {:induction false} FilterFilter<T>(s: seq<T>, p: T -> bool, q: T -> bool, pq: T -> bool)
    requires forall x :: pq(x) == (p(x) && q(x))
    ensures Filter(Filter(s, p), q) == Filter(s, pq)
    decreases |s|
  {
    if |s| > 0 {
      FilterFilter(s[1..], p, q, pq);
      if p(s[0]) {
        assert Filter(s, p) == [s[0]] + Filter(s[1..], p);
        assert Filter(s, p)[1..] == Filter(s[1..], p);
      }
    }
  }

  /** Filters with pointwise-equal predicates keep the same elements. */
  lemma {:induction false} FilterCongruent<T>(s: seq<T>, p: T -> bool, q: T -> bool)
    requires forall x :: p(x) == q(x)
    ensures Filter(s, p) == Filter(s, q)
    decreases |s|
  {
    if |s| > 0 {
      FilterCongruent(s[1..], p, q);
    }
  }

  /** Filtering with a predicate that holds everywhere keeps everything. */
  lemma {:induction false} FilterKeepsAll<T>(s: seq<T>, p: T -> bool)
    requires forall x :: p(x)
    ensures Filter(s, p) == s
    decreases |s|
  {
    if |s| > 0 {
      FilterKeepsAll(s[1..], p);
    }
  }
}
