/** The arithmetic of changing the supply, over unbounded integers. */
module Supply {
  const SCALE: nat := 1_000_000_000_000_000_000
  const MAX_SUPPLY: nat := 0xFFFF_FFFF_FFFF_FFFF_FFFF_FFFF_FFFF_FFFF

  function DivPrecisely(x: nat, y: nat): nat
    requires y > 0
  {
    x * SCALE / y
  }

  /** Rebasing credits per token for a new total supply `t`, of which `nr` does not rebase. */
  function CreditsPerToken(t: nat, nr: nat, rc: nat): nat
    requires nr < t
  {
    DivPrecisely(rc, t - nr)
  }

  /** The supply that the stored credits per token stand for. */
  function Recomputed(t: nat, nr: nat, rc: nat): nat
    requires nr < t && CreditsPerToken(t, nr, rc) > 0
  {
    DivPrecisely(rc, CreditsPerToken(t, nr, rc)) + nr
  }

  /** What the first division cuts off. */
  function Remainder(t: nat, nr: nat, rc: nat): nat
    requires nr < t
  {
    rc * SCALE % (t - nr)
  }

  lemma DivideTwice(n: nat, d: nat)
    requires d > 0 && n / d > 0
    ensures n / (n / d) == d + n % d / (n / d)
  {
    var r, m := n / d, n % d;
    assert n == r * d + m;
    var q := m / r;
    assert m == q * r + m % r;
    assert n == r * (d + q) + m % r by {
      assert r * (d + q) == r * d + r * q;
    }
    Quotient(n, r, d + q, m % r);
  }

  lemma MulMonotone(r: nat, a: int, b: int)
    ensures a <= b ==> r * a <= r * b
  {
  }

  lemma Quotient(n: nat, r: nat, q: nat, m: nat)
    requires r > 0 && m < r && n == r * q + m
    ensures n / r == q
  {
    var d := n / r;
    assert n == r * d + n % r;
    MulMonotone(r, d + 1, q);
    MulMonotone(r, q + 1, d);
  }

  lemma DivMonotone(x: nat, y: nat, r: nat)
    requires r > 0 && x <= y
    ensures x / r <= y / r
  {
    var d, e := x / r, y / r;
    assert x == r * d + x % r && y == r * e + y % r;
    MulMonotone(r, e + 1, d);
  }

  lemma TwiceBounds(n: nat, d: nat)
    requires d > 0 && n / d > 0
    ensures d <= n / (n / d) <= d + (d - 1) / (n / d)
  {
    DivideTwice(n, d);
    DivMonotone(n % d, d - 1, n / d);
  }

  lemma TwiceExceeds(n: nat, d: nat)
    requires d > 0 && n / d > 0
    ensures n / (n / d) <= d <==> n % d < n / d
  {
    DivideTwice(n, d);
    QuotientBound(n % d, n / d, 0);
  }

  /** The recomputed supply is the new supply and the share of the remainder, to the unit. */
  lemma RecomputedExactly(t: nat, nr: nat, rc: nat)
    requires nr < t && CreditsPerToken(t, nr, rc) > 0
    ensures Recomputed(t, nr, rc) == t + Remainder(t, nr, rc) / CreditsPerToken(t, nr, rc)
  {
    DivideTwice(rc * SCALE, t - nr);
  }

  /** It never shrinks, and overshoots by at most (t - nr - 1) / rcpt. */
  lemma Overshoot(t: nat, nr: nat, rc: nat)
    requires nr < t && CreditsPerToken(t, nr, rc) > 0
    ensures t <= Recomputed(t, nr, rc) <= t + (t - nr - 1) / CreditsPerToken(t, nr, rc)
  {
    TwiceBounds(rc * SCALE, t - nr);
  }

  /**
   The goal of the second rule, T2 <= T or T2 == NR, is met exactly when the remainder is below the
   credits per token.
   */
  lemma GoalExactly(t: nat, nr: nat, rc: nat)
    requires nr < t && CreditsPerToken(t, nr, rc) > 0
    ensures Recomputed(t, nr, rc) <= t || Recomputed(t, nr, rc) == nr <==>
            Remainder(t, nr, rc) < CreditsPerToken(t, nr, rc)
  {
    TwiceExceeds(rc * SCALE, t - nr);
    TwiceBounds(rc * SCALE, t - nr);
  }

  /** The bound of the first rule is met exactly when the overshoot leaves room below it. */
  lemma BoundExactly(t: nat, nr: nat, rc: nat)
    requires nr < t <= MAX_SUPPLY && CreditsPerToken(t, nr, rc) > 0
    ensures Recomputed(t, nr, rc) <= MAX_SUPPLY <==>
            Remainder(t, nr, rc) < (MAX_SUPPLY - t + 1) * CreditsPerToken(t, nr, rc)
  {
    RecomputedExactly(t, nr, rc);
    assert Recomputed(t, nr, rc) <= MAX_SUPPLY <==> Remainder(t, nr, rc) / CreditsPerToken(t, nr, rc) <= MAX_SUPPLY - t;
    QuotientBound(Remainder(t, nr, rc), CreditsPerToken(t, nr, rc), MAX_SUPPLY - t);
  }

  lemma QuotientBound(m: nat, r: nat, room: nat)
    requires r > 0
    ensures m / r <= room <==> m < (room + 1) * r
  {
    var q := m / r;
    assert m == r * q + m % r;
    MulMonotone(r, q + 1, room + 1);
    MulMonotone(r, room + 1, q);
  }

  /**
   Both goals can be missed: one credit over 0.7 rebasing tokens overshoots by 0.3, and the bound gives
   way at the top.
   */
  lemma GoalsCanFail()
    ensures var t := 700_000_000_000_000_001;
            CreditsPerToken(t, 1, 1) > 0 && Recomputed(t, 1, 1) == t + 300_000_000_000_000_000
    ensures var nr := MAX_SUPPLY - 700_000_000_000_000_000;
            CreditsPerToken(MAX_SUPPLY, nr, 1) > 0 && Recomputed(MAX_SUPPLY, nr, 1) > MAX_SUPPLY
  {
  }

  /** The formulas with their numbers: 18 decimal places, and a largest supply of 2^128 - 1. */
  lemma InNumbers(t: nat, nr: nat, rc: nat)
    requires nr < t && rc * 1_000_000_000_000_000_000 / (t - nr) > 0
    ensures CreditsPerToken(t, nr, rc) == rc * 1_000_000_000_000_000_000 / (t - nr)
    ensures Remainder(t, nr, rc) == rc * 1_000_000_000_000_000_000 % (t - nr)
    ensures Recomputed(t, nr, rc) ==
            rc * 1_000_000_000_000_000_000 / (rc * 1_000_000_000_000_000_000 / (t - nr)) + nr
    ensures MAX_SUPPLY == 340_282_366_920_938_463_463_374_607_431_768_211_455
  {
  }
}
