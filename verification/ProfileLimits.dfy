/** The limits of a brain profile, and what its intensity is spread over. */
module ProfileLimits {
  import opened BrainProfile

  /** Exactly these profiles are accepted: twelve weights from 0.05 to 20, at most four factors of
      twelve coefficients of size at most 4, an intensity from 0 to 0.35, which is 0 without factors,
      and a condition bound of 500. */
  lemma {:induction false} AcceptedIff(d: Vector, u: seq<Vector>, intensity: real)
    ensures Accepted(d, u, intensity) <==>
              && |d| == 12 && (forall i :: 0 <= i < 12 ==> 0.05 <= d[i] <= 20.0)
              && |u| <= 4 && (forall k :: 0 <= k < |u| ==> |u[k]| == 12)
              && (forall k, i :: 0 <= k < |u| && 0 <= i < 12 ==> -4.0 <= u[k][i] <= 4.0)
              && 0.0 <= intensity <= 0.35 && (u == [] ==> intensity == 0.0)
              && Upper(d, u, Scale(u, intensity)) <= Mul(500.0, Least(d))
  {
    hide Upper, Mul, Quotient, Scale, Least;
    if |d| == 12 && forall i :: 0 <= i < 12 ==> 0.05 <= d[i] <= 20.0 {
      assert Least(d) > 0.0;
      QuotientBound(Upper(d, u, Scale(u, intensity)), Least(d), 500.0);
    }
  }

  /** The factors share the intensity: each gets its part, and without factors nothing is added. */
  lemma {:induction false} ScaleTells(u: seq<Vector>, intensity: real)
    ensures u == [] ==> Scale(u, intensity) == 0.0
    ensures u != [] ==> Scale(u, intensity) * (|u| as real) == intensity
  {
  }

  /** Where both squared norms are positive the score is the form of the two over the root of their
      product, or 0 if that is negative. */
  lemma {:induction false} ScoreTells(d: Vector, u: seq<Vector>, s: real, x: Vector, y: Vector, root: real)
    requires Metric(d, u, s) && |x| == |y| == |d| && NonZero(x) && NonZero(y)
    requires IsRoot(root, Form(d, u, s, x, x), Form(d, u, s, y, y))
    ensures var xx, yy, xy := Form(d, u, s, x, x), Form(d, u, s, y, y), Form(d, u, s, x, y);
            && root > 0.0 && root * root == xx * yy
            && Cosine(xx, yy, xy, root) * root == if xy > 0.0 then xy else 0.0
  {
    hide Form, Cosine, NonZero;
    ScoreIsCosine(d, u, s, x, y, root);
    var xy := Form(d, u, s, x, y);
    assert Quotient(xy, root) * root == xy;
  }
}
