/** The conversion of a 64-bit integer to binary64: the nearest number that fits. */
module Doubles {
  import opened Schema

  predicate IsPower(u: int) { u == 1 || (u > 1 && u % 2 == 0 && IsPower(u / 2)) }

  /** A whole number that binary64 holds: at most 53 significant bits. */
  ghost predicate Representable(d: int) { exists m: int, u: int :: IsProduct(d, m, u) }

  predicate IsProduct(d: int, m: int, u: int) { IsPower(u) && -EXACT <= m <= EXACT && d == m * u }

  function Distance(a: int, b: int): nat { if a < b then b - a else a - b }

  function Size(i: int): nat { if i < 0 then -i else i }

  // ---- multiples -------------------------------------------------------------------------------

  lemma {:induction false} MulAtMost(a: int, b: int, u: int)
    requires a <= b && u > 0
    ensures a * u <= b * u
  {
  }

  lemma {:induction false} NearestMultiple(n: nat, u: nat, k: int)
    requires u > 0
    ensures Distance(Nearest(n, u), n) <= Distance(k * u, n)
  {
    var q, r := n / u, n % u;
    assert n == q * u + r;
    assert (q + 1) * u == q * u + u;
    if k <= q {
      MulAtMost(k, q, u);
    } else {
      MulAtMost(q + 1, k, u);
    }
    NearestIs(n, u);
    hide Nearest;
  }

  lemma {:induction false} NearestIs(n: nat, u: nat)
    requires u > 0
    ensures var q, r := n / u, n % u;
            && (Nearest(n, u) == q * u || Nearest(n, u) == (q + 1) * u)
            && Distance(Nearest(n, u), n) <= r && Distance(Nearest(n, u), n) <= u - r
  {
    var q, r := n / u, n % u;
    assert n == q * u + r && (q + 1) * u == q * u + u;
  }

  // ---- the grid that a number lies on ------------------------------------------------------------

  lemma {:induction false} SpacingIs(n: nat, unit: nat)
    requires unit > 0 && IsPower(unit)
    ensures var u := Spacing(n, unit); IsPower(u) && u >= unit && n <= EXACT * u && (u > unit ==> u % 2 == 0 && EXACT * (u / 2) < n)
    decreases n - EXACT * unit
  {
    if n > EXACT * unit {
      assert IsPower(2 * unit) by {
        assert 2 * unit / 2 == unit;
      }
      SpacingIs(n, 2 * unit);
    }
  }

  lemma {:induction false} PowerPositive(u: int)
    requires IsPower(u)
    ensures u >= 1
  {
  }

  /** Of two powers the larger is a multiple of the smaller. */
  lemma {:induction false} PowersDivide(u: int, w: int) returns (t: int)
    requires IsPower(u) && IsPower(w) && u <= w
    ensures t >= 1 && w == t * u && (u < w ==> t >= 2)
    decreases w
  {
    PowerPositive(u);
    if u == w {
      t := 1;
    } else {
      PowerBelow(u, w);
      var s := PowersDivide(u, w / 2);
      t := 2 * s;
      assert w == 2 * (s * u) == t * u;
    }
  }

  lemma {:induction false} PowerBelow(u: int, w: int)
    requires IsPower(u) && IsPower(w) && u < w
    ensures w > 1 && w % 2 == 0 && IsPower(w / 2) && u <= w / 2
    decreases u
  {
    PowerPositive(u);
    if u > 1 {
      PowerBelow(u / 2, w / 2);
    }
  }

  lemma {:induction false} HalfTimes(u: int)
    requires u % 2 == 0
    ensures EXACT / 2 * u == EXACT * (u / 2)
  {
  }

  lemma {:induction false} Regrouped(m: int, t: int, u: int)
    ensures m * t * u == m * (t * u)
  {
  }

  /** No number that fits is nearer than the nearest multiple of the spacing. */
  lemma {:induction false} NearestFits(n: nat, m: int, w: int)
    requires IsPower(w) && m <= EXACT
    ensures Distance(Nearest(n, Spacing(n, 1)), n) <= Distance(m * w, n)
  {
    var u := Spacing(n, 1);
    SpacingIs(n, 1);
    PowerPositive(w);
    hide Nearest, Spacing, IsPower;
    if u <= w {
      var t := PowersDivide(u, w);
      NearestMultiple(n, u, m * t);
      Regrouped(m, t, u);
    } else {
      FinerFits(n, m, w, u);
    }
  }

  lemma {:induction false} FinerFits(n: nat, m: int, w: int, u: int)
    requires IsPower(w) && IsPower(u) && 1 <= w < u && u % 2 == 0 && m <= EXACT && EXACT * (u / 2) < n
    ensures Distance(Nearest(n, u), n) <= Distance(m * w, n)
  {
    hide Nearest, IsPower;
    PowerBelow(w, u);
    NearestMultiple(n, u, EXACT / 2);
    HalfTimes(u);
    FinerIsBelow(m, w, u / 2);
  }

  lemma {:induction false} FinerIsBelow(m: int, w: int, v: int)
    requires 1 <= w <= v && m <= EXACT
    ensures m * w <= EXACT * v
  {
    MulAtMost(m, EXACT, w);
    assert EXACT * w <= EXACT * v;
  }

  lemma {:induction false} QuotientBound(n: nat, u: int, e: nat)
    requires u > 0 && n <= e * u
    ensures n / u <= e && (n / u == e ==> n % u == 0)
  {
    var q, r := n / u, n % u;
    assert n == q * u + r;
    if q > e {
      MulAtMost(e + 1, q, u);
    }
  }

  lemma {:induction false} NearestProduct(n: nat) returns (k: int, u: int)
    ensures k >= 0 && IsProduct(Nearest(n, Spacing(n, 1)), k, u)
  {
    u := Spacing(n, 1);
    SpacingIs(n, 1);
    NearestIs(n, u);
    QuotientBound(n, u, EXACT);
    hide Nearest, Spacing, IsPower;
    k := if Nearest(n, u) == n / u * u then n / u else n / u + 1;
    if n % u == 0 {
      ExactMultiple(n, u);
    }
  }

  lemma {:induction false} ExactMultiple(n: nat, u: int)
    requires u > 0 && n % u == 0
    ensures Nearest(n, u) == n / u * u
  {
  }

  lemma {:induction false} Negated(m: int, u: int)
    ensures -m * u == -(m * u)
  {
  }

  /** A converted integer fits, and nothing that fits is nearer to the integer. */
  lemma {:induction false} AsDoubleNearest(i: int, d: int)
    ensures Representable(AsDouble(i))
    ensures Representable(d) ==> Distance(AsDouble(i), i) <= Distance(d, i)
  {
    var n := Size(i);
    var k, u := NearestProduct(n);
    hide Nearest, Spacing, IsPower;
    Negated(k, u);
    assert IsProduct(AsDouble(i), if i < 0 then -k else k, u);
    if Representable(d) {
      var m: int, w: int :| IsProduct(d, m, w);
      NearestFits(n, m, w);
      NearestFits(n, -m, w);
      Negated(m, w);
    }
  }
}
