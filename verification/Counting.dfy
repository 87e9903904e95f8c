/** Sequences without repetition fit into the sets they draw from. */
module Counting {

  ghost predicate Distinct(q: seq<nat>) {
    forall i, j | 0 <= i < j < |q| :: q[i] != q[j]
  }

  lemma {:induction false} FewDistinct(q: seq<nat>, s: set<nat>)
    requires Distinct(q) && forall x | x in q :: x in s
    ensures |q| <= |s|
  {
    if q != [] {
      var rest := q[1..];
      forall x | x in rest ensures x in s - {q[0]} {}
      FewDistinct(rest, s - {q[0]});
    }
  }

  lemma Smaller(a: set<nat>, b: set<nat>)
    requires a <= b
    ensures |a| <= |b|
  {
    assert b == a + (b - a);
  }

  /** The numbers from lo up to hi. */
  ghost function Span(lo: nat, hi: nat): (s: set<nat>)
    ensures forall x :: x in s <==> lo <= x < hi
    ensures |s| == if lo < hi then hi - lo else 0
  {
    if lo < hi then {hi - 1} + Span(lo, hi - 1) else {}
  }

  lemma FitsSpan(q: seq<nat>, lo: nat, hi: nat)
    requires Distinct(q) && (forall i | 0 <= i < |q| :: lo <= q[i] < hi)
    ensures q == [] || |q| <= hi - lo
  {
    FewDistinct(q, Span(lo, hi));
  }
}
