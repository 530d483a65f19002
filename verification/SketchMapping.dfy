/** A logarithmic mapping exists for every factor above one: the contract of the sketch can be met. */
module SketchMapping {
  import opened Sketch

  function Power(gamma: real, i: int): real
    requires 1.0 < gamma
    decreases if i < 0 then -i else i
  {
    if i == 0 then 1.0 else if i > 0 then gamma * Power(gamma, i - 1) else Power(gamma, i + 1) / gamma
  }

  lemma {:induction false} PowerStep(gamma: real, i: int)
    requires 1.0 < gamma
    ensures 0.0 < Power(gamma, i)
    ensures Power(gamma, i + 1) == gamma * Power(gamma, i)
    decreases if i < 0 then -i else i
  {
    if i > 0 {
      PowerStep(gamma, i - 1);
      MulPositive(gamma, Power(gamma, i - 1));
    } else if i < 0 {
      PowerStep(gamma, i + 1);
      DivBack(Power(gamma, i + 1), gamma);
    }
  }

  lemma MulPositive(a: real, b: real)
    requires 0.0 < a && 0.0 < b
    ensures 0.0 < a * b
  {
  }

  lemma DivBack(a: real, b: real)
    requires 0.0 < a && 0.0 < b
    ensures 0.0 < a / b && b * (a / b) == a
  {
    var q := a / b;
    assert q * b == a;
    if q <= 0.0 {
      ScaleMonotone(b, q, 0.0);
    }
  }

  lemma {:induction false} Bernoulli(gamma: real, n: nat)
    requires 1.0 < gamma
    ensures 1.0 + n as real * (gamma - 1.0) <= Power(gamma, n)
  {
    if n > 0 {
      Bernoulli(gamma, n - 1);
      BernoulliStep(gamma, gamma - 1.0, (n - 1) as real, Power(gamma, n - 1));
      assert n as real == (n - 1) as real + 1.0;
    }
  }

  lemma BernoulliStep(gamma: real, d: real, y: real, power: real)
    requires 0.0 < d && gamma == 1.0 + d && 0.0 <= y && 1.0 + y * d <= power
    ensures 1.0 + (y + 1.0) * d <= gamma * power
  {
    var x := y * d;
    ScaleMonotone(d, 0.0, y);
    ScaleMonotone(gamma, 1.0 + x, power);
    ScaleMonotone(d, 1.0, 1.0 + x);
    assert gamma * (1.0 + x) == (1.0 + x) + d * (1.0 + x);
    assert (y + 1.0) * d == x + d;
  }

  /** Some power exceeds any given value. */
  lemma Exceeds(gamma: real, p: real) returns (n: nat)
    requires 1.0 < gamma && 0.0 < p
    ensures p < Power(gamma, n)
  {
    hide Power;
    var d := gamma - 1.0;
    DivBack(p, d);
    var q := p / d;
    n := q.Floor + 1;
    Bernoulli(gamma, n);
    var x := n as real;
    ScaleMonotone(d, q, x);
    assert d * q == p && x * d == d * x && 1.0 + x * d <= Power(gamma, n);
  }

  lemma {:induction false} PowerInverse(gamma: real, n: nat)
    requires 1.0 < gamma
    ensures Power(gamma, n) * Power(gamma, 0 - n) == 1.0
  {
    if n > 0 {
      PowerInverse(gamma, n - 1);
      PowerStep(gamma, 1 - n);
      InverseStep(gamma, Power(gamma, n - 1), Power(gamma, 1 - n), Power(gamma, 1 - n) / gamma);
    }
  }

  lemma InverseStep(gamma: real, a: real, b: real, q: real)
    requires 1.0 < gamma && 0.0 < b && a * b == 1.0 && q == b / gamma
    ensures (gamma * a) * q == 1.0
  {
    DivBack(b, gamma);
    assert (gamma * a) * q == a * (gamma * q);
  }

  /** Some power is at or below any given positive value. */
  lemma FallsBelow(gamma: real, p: real) returns (n: nat)
    requires 1.0 < gamma && 0.0 < p
    ensures Power(gamma, 0 - n) <= p
  {
    DivBack(1.0, p);
    var r := 1.0 / p;
    n := Exceeds(gamma, r);
    PowerInverse(gamma, n);
    PowerStep(gamma, 0 - n);
    Reciprocal(p, r, Power(gamma, n), Power(gamma, 0 - n));
  }

  lemma Reciprocal(p: real, r: real, hi: real, lo: real)
    requires 0.0 < p && 0.0 < lo && p * r == 1.0 && r < hi && hi * lo == 1.0
    ensures lo <= p
  {
    ScaleMonotone(lo, r, hi);
    ScaleMonotone(p, lo * r, 1.0);
    assert p * (lo * r) == lo * (p * r) == lo;
  }

  lemma {:induction false} Between(gamma: real, p: real, lo: int, hi: int) returns (i: int)
    requires 1.0 < gamma && lo < hi && Power(gamma, lo) <= p < Power(gamma, hi)
    ensures Power(gamma, i) <= p < Power(gamma, i + 1)
    decreases hi - lo
  {
    if lo + 1 == hi {
      i := lo;
    } else if Power(gamma, lo + 1) <= p {
      i := Between(gamma, p, lo + 1, hi);
    } else {
      i := lo;
    }
  }

  lemma HasBin(gamma: real, p: real)
    requires 1.0 < gamma && 0.0 < p
    ensures exists i :: InBin(gamma, p, i)
  {
    var m := FallsBelow(gamma, p);
    var n := Exceeds(gamma, p);
    if n == 0 && m == 0 {
      assert false;
    }
    var k: int := m;
    var i := Between(gamma, p, -k, n);
    assert InBin(gamma, p, i);
  }

  ghost predicate InBin(gamma: real, p: real, i: int)
    requires 1.0 < gamma
  {
    Power(gamma, i) <= p < Power(gamma, i + 1)
  }

  ghost function Bin(gamma: real, p: real): (i: int)
    requires 1.0 < gamma
    ensures 0.0 < p ==> InBin(gamma, p, i)
  {
    if p <= 0.0 then 0
    else
      HasBin(gamma, p);
      var i :| InBin(gamma, p, i);
      i
  }

  lemma ScaledBin(scale: real, lo: real, p: real, q: real, hi: real)
    requires 0.0 < scale && q == p / scale && lo <= q < hi
    ensures scale * lo <= p < scale * hi
  {
    assert scale * q == p;
    ScaleMonotone(scale, lo, q);
    assert scale * hi - scale * q == scale * (hi - q);
    MulPositive(scale, hi - q);
  }

  ghost function Bound(gamma: real, scale: real, i: int): real
    requires 1.0 < gamma
  {
    scale * Power(gamma, i)
  }

  lemma BoundScales(gamma: real, scale: real, i: int)
    requires 1.0 < gamma && 0.0 < scale
    ensures 0.0 < Bound(gamma, scale, i) && Bound(gamma, scale, i + 1) == gamma * Bound(gamma, scale, i)
  {
    PowerStep(gamma, i);
    var power, next := Power(gamma, i), Power(gamma, i + 1);
    hide Power;
    MulPositive(scale, power);
    assert scale * (gamma * power) == gamma * (scale * power);
  }

  ghost function Index(gamma: real, scale: real, p: real): int
    requires 1.0 < gamma && 0.0 < scale
  {
    Bin(gamma, p / scale)
  }

  lemma IndexFits(gamma: real, scale: real, p: real)
    requires 1.0 < gamma && 0.0 < scale && 0.0 < p
    ensures var i := Index(gamma, scale, p); Bound(gamma, scale, i) <= p < Bound(gamma, scale, i + 1)
  {
    hide Power;
    DivBack(p, scale);
    var i := Bin(gamma, p / scale);
    assert InBin(gamma, p / scale, i);
    ScaledBin(scale, Power(gamma, i), p, p / scale, Power(gamma, i + 1));
  }

  lemma BoundAtZero(gamma: real, scale: real)
    requires 1.0 < gamma
    ensures Bound(gamma, scale, 0) == scale
  {
  }

  lemma ScalesHolds(m: LogMapping, i: int)
    requires m.bound(i + 1) == m.gamma * m.bound(i)
    ensures m.Scales(i)
  {
  }

  /** The mapping whose bounds are the powers of `gamma`, moved by any index offset: bin 0 starts at `scale`. */
  lemma PowersMap(gamma: real, scale: real, min: real) returns (m: LogMapping)
    requires 1.0 < gamma && 0.0 < scale && 0.0 < min
    ensures m.Valid() && m.gamma == gamma && m.bound(0) == scale && m.minIndexable == min
  {
    hide Bound, Index, Power, LogMapping.Scales;
    BoundAtZero(gamma, scale);
    m := LogMapping(gamma, i => Bound(gamma, scale, i), p => Index(gamma, scale, p), min);
    forall i ensures 0.0 < m.bound(i) && m.Scales(i) {
      BoundScales(gamma, scale, i);
      ScalesHolds(m, i);
    }
    forall p | min <= p ensures m.bound(m.index(p)) <= p < m.bound(m.index(p) + 1) {
      IndexFits(gamma, scale, p);
    }
  }
}
