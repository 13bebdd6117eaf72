/**
 * Weighted sums of reals: the accumulation `sum += weight * value` of a
 * weighted average, and the bounds that make the average a convex
 * combination of its values.
 */
module Averages {
  import opened Numeric

  predicate AllPositive(ws: seq<real>) {
    forall k :: 0 <= k < |ws| ==> ws[k] > 0.0
  }

  predicate AllBetween(vs: seq<real>, lo: real, hi: real) {
    forall k :: 0 <= k < |vs| ==> lo <= vs[k] <= hi
  }

  /** `weightSum`: the weights added up in visiting order. */
  function Total(ws: seq<real>): real {
    if |ws| == 0 then 0.0 else ws[0] + Total(ws[1..])
  }

  /** `redSum`, `greenSum` or `blueSum`: each value times its weight, added up in visiting order. */
  function Dot(ws: seq<real>, vs: seq<real>): real
    requires |ws| == |vs|
  {
    if |ws| == 0 then 0.0 else ws[0] * vs[0] + Dot(ws[1..], vs[1..])
  }

  /** With positive weights, the total is at least any single weight. */
  lemma {:induction false} TotalAtLeastEach(ws: seq<real>, k: nat)
    requires AllPositive(ws) && k < |ws|
    ensures Total(ws) >= ws[k]
  {
    var rest := ws[1..];
    assert AllPositive(rest) by {
      forall i | 0 <= i < |rest| ensures rest[i] == ws[i + 1] { }
    }
    if k > 0 {
      assert rest[k - 1] == ws[k];
      TotalAtLeastEach(rest, k - 1);
    } else if |rest| > 0 {
      TotalAtLeastEach(rest, 0);
    }
  }

  /**
   * A positively weighted sum of values in `lo .. hi` lies between `lo` and
   * `hi` times the sum of the weights: the average is a convex combination.
   */
  lemma DotBounds(ws: seq<real>, vs: seq<real>, lo: real, hi: real)
    requires |ws| == |vs| && AllPositive(ws) && AllBetween(vs, lo, hi)
    ensures ScaledBetween(Dot(ws, vs), Total(ws), lo, hi)
  {
    DotAtLeast(ws, vs, lo);
    DotAtMost(ws, vs, hi);
  }

  /**
   * The truncated weighted average of values in `lo .. hi` is in `lo .. hi`,
   * for any positive weights: Java's `(int) (sum / weightSum)`.
   */
  lemma AverageBounds(ws: seq<real>, vs: seq<real>, lo: int, hi: int)
    requires |ws| == |vs| && AllPositive(ws) && Total(ws) > 0.0
    requires AllBetween(vs, lo as real, hi as real)
    requires INT_MIN <= lo && hi <= INT_MAX
    ensures lo <= TruncatedQuotient(Dot(ws, vs), Total(ws)) <= hi
  {
    DotBounds(ws, vs, lo as real, hi as real);
    TruncatedQuotientBounds(Dot(ws, vs), Total(ws), lo, hi);
  }

  lemma {:induction false} DotAtLeast(ws: seq<real>, vs: seq<real>, lo: real)
    requires |ws| == |vs| && AllPositive(ws)
    requires forall k :: 0 <= k < |vs| ==> lo <= vs[k]
    ensures lo * Total(ws) <= Dot(ws, vs)
  {
    if |ws| > 0 {
      var ws', vs' := ws[1..], vs[1..];
      assert AllPositive(ws') by {
        forall i | 0 <= i < |ws'| ensures ws'[i] == ws[i + 1] { }
      }
      assert forall i :: 0 <= i < |vs'| ==> lo <= vs'[i] by {
        forall i | 0 <= i < |vs'| ensures vs'[i] == vs[i + 1] { }
      }
      DotAtLeast(ws', vs', lo);
      var w, v, t, d := ws[0], vs[0], Total(ws'), Dot(ws', vs');
      assert Total(ws) == w + t;
      assert Dot(ws, vs) == w * v + d;
      ProductNonNegative(w, v - lo);
      assert w * (v - lo) == w * v - lo * w;
      assert lo * (w + t) == lo * w + lo * t;
    }
  }

  lemma {:induction false} DotAtMost(ws: seq<real>, vs: seq<real>, hi: real)
    requires |ws| == |vs| && AllPositive(ws)
    requires forall k :: 0 <= k < |vs| ==> vs[k] <= hi
    ensures Dot(ws, vs) <= hi * Total(ws)
  {
    if |ws| > 0 {
      var ws', vs' := ws[1..], vs[1..];
      assert AllPositive(ws') by {
        forall i | 0 <= i < |ws'| ensures ws'[i] == ws[i + 1] { }
      }
      assert forall i :: 0 <= i < |vs'| ==> vs'[i] <= hi by {
        forall i | 0 <= i < |vs'| ensures vs'[i] == vs[i + 1] { }
      }
      DotAtMost(ws', vs', hi);
      var w, v, t, d := ws[0], vs[0], Total(ws'), Dot(ws', vs');
      assert Total(ws) == w + t;
      assert Dot(ws, vs) == w * v + d;
      ProductNonNegative(w, hi - v);
      assert w * (hi - v) == hi * w - w * v;
      assert hi * (w + t) == hi * w + hi * t;
    }
  }
}
