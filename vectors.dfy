/**
 * Three-component vectors over the reals, standing in for three.js `Vector3`.
 * Only the operations the camera controller uses are modelled: `lerp` and
 * `distanceTo` (the latter through its square, which avoids a square root).
 */
module Vectors {

  datatype Vec3 = Vec3(x: real, y: real, z: real)

  const Origin: Vec3 := Vec3(0.0, 0.0, 0.0)

  /**
   * Products of two variable reals go through `Mul`, so that the solver works
   * with them as terms and uses the facts the lemmas below state about them.
   */
  function Mul(a: real, b: real): real
  {
    a * b
  }

  function Sub(a: Vec3, b: Vec3): Vec3
  {
    Vec3(a.x - b.x, a.y - b.y, a.z - b.z)
  }

  function Scale(k: real, v: Vec3): Vec3
  {
    Vec3(Mul(k, v.x), Mul(k, v.y), Mul(k, v.z))
  }

  function Sq(x: real): real
  {
    Mul(x, x)
  }

  /** Squared Euclidean length. */
  function Norm2(v: Vec3): (r: real)
    ensures r >= 0.0
    ensures v != Origin ==> r > 0.0
  {
    SqPos(v.x);
    SqPos(v.y);
    SqPos(v.z);
    Sq(v.x) + Sq(v.y) + Sq(v.z)
  }

  /** Squared distance: for `e >= 0`, `a.distanceTo(b) < e` holds exactly when `Dist2(a, b) < e * e`. */
  function Dist2(a: Vec3, b: Vec3): (r: real)
    ensures r >= 0.0
    ensures a != b ==> r > 0.0
  {
    assert a != b ==> Sub(a, b) != Origin;
    Norm2(Sub(a, b))
  }

  /** `p.lerp(t, s)`: each coordinate moves by the fraction `s` of its distance to `t`. */
  function Lerp(p: Vec3, t: Vec3, s: real): Vec3
  {
    Vec3(p.x + Mul(t.x - p.x, s), p.y + Mul(t.y - p.y, s), p.z + Mul(t.z - p.z, s))
  }

  /**
   * The offset that remains to `t` after a lerp is the old offset scaled by
   * `1 - s`, and the step taken is the full offset scaled by `s`.
   */
  lemma LerpOffsets(p: Vec3, t: Vec3, s: real)
    ensures Sub(Lerp(p, t, s), t) == Scale(1.0 - s, Sub(p, t))
    ensures Sub(Lerp(p, t, s), p) == Scale(s, Sub(t, p))
  {
  }

  /** `m` lies on the closed interval between `a` and `b`, whichever is smaller. */
  predicate Between(a: real, m: real, b: real)
  {
    (a <= m <= b) || (b <= m <= a)
  }

  /** `m` lies inside the axis-aligned box spanned by `a` and `b`. */
  predicate InBox(a: Vec3, m: Vec3, b: Vec3)
  {
    Between(a.x, m.x, b.x) && Between(a.y, m.y, b.y) && Between(a.z, m.z, b.z)
  }

  // ---- scalar facts ----

  lemma MulPos(a: real, b: real)
    requires a > 0.0 && b > 0.0
    ensures Mul(a, b) > 0.0
  {
  }

  lemma MulNonneg(a: real, b: real)
    requires a >= 0.0 && b >= 0.0
    ensures Mul(a, b) >= 0.0
  {
  }

  /** A square is never negative, and is zero only at zero. */
  lemma SqPos(x: real)
    ensures Sq(x) >= 0.0
    ensures x != 0.0 ==> Sq(x) > 0.0
  {
    if x > 0.0 {
      MulPos(x, x);
    } else if x < 0.0 {
      MulPos(-x, -x);
      assert Mul(-x, -x) == Mul(x, x);
    }
  }

  lemma SqScale(k: real, x: real)
    ensures Sq(Mul(k, x)) == Mul(Sq(k), Sq(x))
  {
  }

  /** `Mul(c, a) - Mul(c, b) == Mul(c, a - b)` */
  lemma MulSub(c: real, a: real, b: real)
    ensures Mul(c, a) - Mul(c, b) == Mul(c, a - b)
  {
  }

  lemma MulSum3(k: real, a: real, b: real, c: real)
    ensures Mul(k, a) + Mul(k, b) + Mul(k, c) == Mul(k, a + b + c)
  {
  }

  lemma MulAssoc(a: real, b: real, x: real)
    ensures Mul(a, Mul(b, x)) == Mul(Mul(a, b), x)
  {
  }

  lemma MulSwap(a: real, b: real, c: real)
    ensures Mul(Mul(a, b), c) == Mul(Mul(a, c), b)
  {
  }

  lemma MulZero(a: real)
    ensures Mul(a, 0.0) == 0.0 && Mul(0.0, a) == 0.0
  {
  }

  lemma MulOne(a: real)
    ensures Mul(1.0, a) == a
  {
  }

  // ---- vector facts ----

  lemma Norm2Scale(k: real, v: Vec3)
    ensures Norm2(Scale(k, v)) == Mul(Sq(k), Norm2(v))
  {
    SqScale(k, v.x);
    SqScale(k, v.y);
    SqScale(k, v.z);
    MulSum3(Sq(k), Sq(v.x), Sq(v.y), Sq(v.z));
  }

  lemma ScaleScale(a: real, b: real, v: Vec3)
    ensures Scale(a, Scale(b, v)) == Scale(Mul(a, b), v)
  {
    MulAssoc(a, b, v.x);
    MulAssoc(a, b, v.y);
    MulAssoc(a, b, v.z);
  }

  lemma ScaleOne(v: Vec3)
    ensures Scale(1.0, v) == v
  {
    MulOne(v.x);
    MulOne(v.y);
    MulOne(v.z);
  }

  lemma Dist2Self(a: Vec3)
    ensures Dist2(a, a) == 0.0
  {
    MulZero(0.0);
  }

  /** Lerp from the target stays on the target. */
  lemma LerpSelf(t: Vec3, s: real)
    ensures Lerp(t, t, s) == t
  {
    MulZero(s);
  }

  /**
   * One lerp with a fraction strictly between 0 and 1 scales the squared
   * distance to the target by (1 - s)^2, which is strictly less than 1: the
   * distance strictly decreases unless the point already sits on the target,
   * and it never reaches zero from a non-zero start.
   */
  lemma LerpDistance(p: Vec3, t: Vec3, s: real)
    requires 0.0 < s < 1.0
    ensures Dist2(Lerp(p, t, s), t) == Mul(Sq(1.0 - s), Dist2(p, t))
    ensures 0.0 < Sq(1.0 - s) < 1.0
    ensures p != t ==> 0.0 < Dist2(Lerp(p, t, s), t) < Dist2(p, t)
    ensures p == t ==> Lerp(p, t, s) == t
  {
    var q := 1.0 - s;
    var r := Lerp(p, t, s);
    LerpOffsets(p, t, s);
    Norm2Scale(q, Sub(p, t));
    SquareBelowOne(q);
    if p != t {
      ShrinkStrict(Sq(q), Dist2(p, t));
    } else {
      LerpSelf(t, s);
    }
  }

  /** Multiplying a positive quantity by a factor in (0, 1) keeps it positive and makes it smaller. */
  lemma ShrinkStrict(f: real, d: real)
    requires 0.0 < f < 1.0 && d > 0.0
    ensures 0.0 < Mul(f, d) < d
  {
    MulPos(f, d);
    MulPos(1.0 - f, d);
    MulOne(d);
    MulSub(d, 1.0, f);
    assert Mul(1.0, d) - Mul(f, d) == Mul(1.0 - f, d);
  }

  lemma SquareBelowOne(q: real)
    requires 0.0 < q < 1.0
    ensures 0.0 < Sq(q) < 1.0
  {
    MulPos(q, q);
    MulPos(1.0 - q, q);
    assert Mul(1.0, q) - Mul(q, q) == Mul(1.0 - q, q);
  }

  lemma BetweenStep(a: real, b: real, s: real)
    requires 0.0 <= s <= 1.0
    ensures Between(a, a + Mul(b - a, s), b)
  {
    MulNonneg(if a <= b then b - a else a - b, s);
    MulNonneg(if a <= b then b - a else a - b, 1.0 - s);
  }

  /** Lerp with a fraction in [0, 1] never overshoots: no coordinate passes the target's. */
  lemma LerpNoOvershoot(p: Vec3, t: Vec3, s: real)
    requires 0.0 <= s <= 1.0
    ensures InBox(p, Lerp(p, t, s), t)
  {
    BetweenStep(p.x, t.x, s);
    BetweenStep(p.y, t.y, s);
    BetweenStep(p.z, t.z, s);
  }

  /** `Pow(q, n)` is q to the n-th power; it stays in (0, 1] for q in (0, 1]. */
  function Pow(q: real, n: nat): (r: real)
    ensures 0.0 < q <= 1.0 ==> 0.0 < r <= 1.0
  {
    if n == 0 then 1.0
    else
      var rest := Pow(q, n - 1);
      PowStep(q, rest);
      Mul(rest, q)
  }

  lemma PowStep(q: real, rest: real)
    ensures 0.0 < q <= 1.0 && 0.0 < rest <= 1.0 ==> 0.0 < Mul(rest, q) <= 1.0
  {
    if 0.0 < q <= 1.0 && 0.0 < rest <= 1.0 {
      MulPos(rest, q);
      MulNonneg(rest, 1.0 - q);
      assert Mul(rest, 1.0) - Mul(rest, q) == Mul(rest, 1.0 - q);
    }
  }
}
