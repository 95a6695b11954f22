/**
 * Sequence selection as pandas performs it with a boolean mask: the rows for
 * which the mask holds, in their original order, unchanged.
 */
module Seqs {

  /** `f` applied to every element of `s`, in order. */
  function Map<A, B>(f: A -> B, s: seq<A>): (r: seq<B>)
    ensures |r| == |s|
    ensures forall i :: 0 <= i < |s| ==> r[i] == f(s[i])
  {
    seq(|s|, i requires 0 <= i < |s| => f(s[i]))
  }

  /** The elements of `s` for which `keep` holds, in their original order. */
  function Filter<T>(keep: T -> bool, s: seq<T>): (r: seq<T>)
    ensures |r| <= |s|
    ensures forall i :: 0 <= i < |r| ==> r[i] in s && keep(r[i])
    ensures forall i :: 0 <= i < |s| && keep(s[i]) ==> s[i] in r
  {
    if s == [] then []
    else
      var init := Filter(keep, s[..|s| - 1]);
      assert s == s[..|s| - 1] + [s[|s| - 1]];
      if keep(s[|s| - 1]) then init + [s[|s| - 1]] else init
  }

  /** The indices of the elements of `s` for which `keep` holds, in increasing order. */
  function Positions<T>(keep: T -> bool, s: seq<T>): (r: seq<nat>)
    ensures forall j :: 0 <= j < |r| ==> r[j] < |s| && keep(s[r[j]])
  {
    if s == [] then []
    else
      var init := Positions(keep, s[..|s| - 1]);
      if keep(s[|s| - 1]) then init + [|s| - 1] else init
  }

  lemma FilterSnoc<T>(keep: T -> bool, s: seq<T>, x: T)
    ensures Filter(keep, s + [x]) == Filter(keep, s) + (if keep(x) then [x] else [])
  {
    assert (s + [x])[..|s + [x]| - 1] == s;
  }

  lemma MapSnoc<A, B>(f: A -> B, s: seq<A>, x: A)
    ensures Map(f, s + [x]) == Map(f, s) + [f(x)]
  {
  }

  /** Filtering keeps the elements at the positions where `keep` holds, in that order. */
  lemma {:induction false} FilterAtPositions<T>(keep: T -> bool, s: seq<T>)
    ensures |Positions(keep, s)| == |Filter(keep, s)|
    ensures forall j :: 0 <= j < |Filter(keep, s)| ==> Filter(keep, s)[j] == s[Positions(keep, s)[j]]
  {
    if s != [] {
      var n := |s| - 1;
      var init := s[..n];
      FilterAtPositions(keep, init);
      var ps, fs := Positions(keep, init), Filter(keep, init);
      var ps', fs' := Positions(keep, s), Filter(keep, s);
      assert |ps'| == |fs'|;
      forall j | 0 <= j < |fs'|
        ensures fs'[j] == s[ps'[j]]
      {
        if j < |fs| {
          assert fs'[j] == fs[j] == init[ps[j]];
        }
      }
    }
  }

  /** The positions of the kept elements are strictly increasing and all below `|s|`. */
  lemma {:induction false} PositionsIncreasing<T>(keep: T -> bool, s: seq<T>)
    ensures forall j :: 0 <= j < |Positions(keep, s)| ==> Positions(keep, s)[j] < |s|
    ensures forall i, j :: 0 <= i < j < |Positions(keep, s)| ==> Positions(keep, s)[i] < Positions(keep, s)[j]
  {
    if s != [] {
      PositionsIncreasing(keep, s[..|s| - 1]);
    }
  }

  /** A position is listed exactly when `keep` holds of the element there. */
  lemma {:induction false} PositionsComplete<T>(keep: T -> bool, s: seq<T>)
    ensures forall k :: 0 <= k < |s| ==> (keep(s[k]) <==> k in Positions(keep, s))
  {
    if s != [] {
      var n := |s| - 1;
      var init := s[..n];
      PositionsComplete(keep, init);
      PositionsIncreasing(keep, init);
      var ps := Positions(keep, init);
      forall k | 0 <= k < |s|
        ensures keep(s[k]) <==> k in Positions(keep, s)
      {
        if k < n {
          assert s[k] == init[k];
        }
      }
    }
  }

  /** A mask that holds everywhere removes nothing. */
  lemma {:induction false} FilterAll<T>(keep: T -> bool, s: seq<T>)
    requires forall i :: 0 <= i < |s| ==> keep(s[i])
    ensures Filter(keep, s) == s
  {
    if s != [] {
      var n := |s| - 1;
      FilterAll(keep, s[..n]);
      assert s == s[..n] + [s[n]];
    }
  }

  /** Two masks applied one after the other select what their conjunction selects. */
  lemma {:induction false} FilterThenFilter<T>(p: T -> bool, q: T -> bool, pq: T -> bool, s: seq<T>)
    requires forall x :: pq(x) == (p(x) && q(x))
    ensures Filter(q, Filter(p, s)) == Filter(pq, s)
  {
    if s != [] {
      var n := |s| - 1;
      FilterThenFilter(p, q, pq, s[..n]);
      if p(s[n]) {
        FilterSnoc(q, Filter(p, s[..n]), s[n]);
      }
    }
  }

  /** Projecting and then masking is masking by the projected test and then projecting. */
  lemma {:induction false} FilterOfMap<A, B>(f: A -> B, keep: B -> bool, keepF: A -> bool, s: seq<A>)
    requires forall x :: keepF(x) == keep(f(x))
    ensures Filter(keep, Map(f, s)) == Map(f, Filter(keepF, s))
  {
    if s != [] {
      var n := |s| - 1;
      FilterOfMap(f, keep, keepF, s[..n]);
      assert s == s[..n] + [s[n]];
      MapSnoc(f, s[..n], s[n]);
      FilterSnoc(keep, Map(f, s[..n]), f(s[n]));
      if keepF(s[n]) {
        MapSnoc(f, Filter(keepF, s[..n]), s[n]);
      }
    }
  }

  /** Masks that agree on every element of `s` select the same elements. */
  lemma {:induction false} FilterAgrees<T>(p: T -> bool, q: T -> bool, s: seq<T>)
    requires forall i :: 0 <= i < |s| ==> p(s[i]) == q(s[i])
    ensures Filter(p, s) == Filter(q, s)
  {
    if s != [] {
      FilterAgrees(p, q, s[..|s| - 1]);
    }
  }
}
