/** How much of a stake is shown as vested, over real numbers of milliseconds, with the clock as a parameter. */
module Vesting {
  const MINUTES_3: real := 180000.0
  const HOURS_2: real := 7200000.0
  const MIN_DISPLAYED: real := 0.000001

  datatype Enriched = Enriched(
    end: real, durationLeft: real, hasVested: bool, percentageVested: real,
    interestAccrued: real, interestRemaining: real)

  function Max(x: real, y: real): real {
    if x < y then y else x
  }

  function Min(x: real, y: real): real {
    if x < y then x else y
  }

  function Abs(x: real): real {
    if x < 0.0 then -x else x
  }

  /** The share of the duration that has passed, between none and all of it. */
  function Elapsed(end: real, duration: real, now: real): real
    requires duration > 0.0
  {
    Max(Min(1.0, (now - (end - duration)) / duration), 0.0)
  }

  /** Whether the browser's clock disagrees with the chain's in the way that the shift makes up for. */
  predicate Shifts(end: real, duration: real, now: real) {
    var timeFromStart := end - now - duration;
    || (timeFromStart > 0.0 && timeFromStart < MINUTES_3)
    || (timeFromStart < 0.0 && Abs(timeFromStart) < HOURS_2)
  }

  /** The share that is shown as vested. */
  function Share(end: real, duration: real, now: real): real
    requires duration > 0.0
  {
    if end < now then 1.0
    else Elapsed(if Shifts(end, duration, now) then end - MINUTES_3 else end, duration, now)
  }

  /** When the shift applies, in milliseconds before and after the start. */
  lemma ShiftsExactly(end: real, duration: real, now: real)
    ensures var start := end - duration;
            Shifts(end, duration, now) <==> start - 180000.0 < now < start + 7200000.0 && now != start
  {
  }

  /** The share is that of the time between the shown start and the shown end, clamped. */
  lemma ElapsedExactly(end: real, duration: real, now: real)
    requires duration > 0.0
    ensures var passed := now - (end - duration);
            Elapsed(end, duration, now) ==
            if passed <= 0.0 then 0.0 else if passed >= duration then 1.0 else passed / duration
  {
    var passed := now - (end - duration);
    Compares(passed, 0.0, duration);
    Compares(0.0, passed, duration);
    Compares(passed, duration, duration);
    Compares(duration, passed, duration);
    assert 0.0 / duration == 0.0 && duration / duration == 1.0;
  }

  method EnrichStakeData(stakeEnd: real, duration: real, interest: real, now: real) returns (r: Enriched)
    requires duration > 0.0 && interest >= 0.0
    ensures r.percentageVested == Share(stakeEnd, duration, now) && 0.0 <= r.percentageVested <= 1.0
    ensures r.hasVested <==> stakeEnd < now
    ensures !Shifts(stakeEnd, duration, now) || stakeEnd < now ==>
              r.percentageVested == Elapsed(stakeEnd, duration, now)
    ensures r.percentageVested == if stakeEnd < now then 1.0 else Elapsed(r.end, duration, now)
    ensures var start := stakeEnd - duration;
            r.end == if now <= stakeEnd && start - 180000.0 < now < start + 7200000.0 && now != start
                     then stakeEnd - 180000.0 else stakeEnd
    ensures r.durationLeft == if stakeEnd < now then 0.0 else r.end - now
    ensures interest * r.percentageVested < 0.000001 ==> r.interestAccrued == 0.0
    ensures interest * r.percentageVested >= 0.000001 ==> r.interestAccrued == interest * r.percentageVested
    ensures interest * (1.0 - r.percentageVested) < 0.000001 ==> r.interestRemaining == 0.0
    ensures interest * (1.0 - r.percentageVested) >= 0.000001 ==>
              r.interestRemaining == interest * (1.0 - r.percentageVested)
    ensures 0.0 <= r.percentageVested - Elapsed(stakeEnd, duration, now) <= MINUTES_3 / duration
    ensures Abs(r.interestAccrued + r.interestRemaining - interest) < 2.0 * MIN_DISPLAYED
    ensures 0.0 <= r.interestAccrued <= interest && 0.0 <= r.interestRemaining <= interest
  {
    var end, durationLeft, hasVested, percentageVested := VestedShare(stakeEnd, duration, now);
    ShiftsExactly(stakeEnd, duration, now);
    ShiftedElapsed(stakeEnd, duration, now);
    if stakeEnd < now {
      PastEnd(stakeEnd, duration, now);
    }
    r := WithInterest(end, durationLeft, hasVested, percentageVested, interest);
    DisplayedExactly(interest * r.percentageVested);
    DisplayedExactly(interest * (1.0 - r.percentageVested));
  }

  /** The part that deals with the time. */
  method VestedShare(stakeEnd: real, duration: real, now: real)
    returns (end: real, durationLeft: real, hasVested: bool, percentageVested: real)
    requires duration > 0.0
    ensures percentageVested == Share(stakeEnd, duration, now) && 0.0 <= percentageVested <= 1.0
    ensures hasVested <==> stakeEnd < now
    ensures percentageVested == if stakeEnd < now then 1.0 else Elapsed(end, duration, now)
    ensures end == if now <= stakeEnd && Shifts(stakeEnd, duration, now) then stakeEnd - MINUTES_3 else stakeEnd
    ensures durationLeft == if stakeEnd < now then 0.0 else end - now
  {
    end := stakeEnd;
    durationLeft := end - now;
    hasVested := end < now;
    if !hasVested {
      var timeFromStart := durationLeft - duration;
      if (timeFromStart > 0.0 && timeFromStart < MINUTES_3) || (timeFromStart < 0.0 && Abs(timeFromStart) < HOURS_2) {
        end := end - MINUTES_3;
        durationLeft := end - now;
      }
    }
    percentageVested := 1.0;
    if !hasVested {
      percentageVested := Max(Min(1.0, (duration - durationLeft) / duration), 0.0);
      assert duration - durationLeft == now - (end - duration);
    } else {
      durationLeft := 0.0;
    }
  }

  /** The part that deals with the interest. */
  method WithInterest(end: real, durationLeft: real, hasVested: bool, percentageVested: real, interest: real)
    returns (r: Enriched)
    requires interest >= 0.0 && 0.0 <= percentageVested <= 1.0
    ensures r.end == end && r.durationLeft == durationLeft && r.hasVested == hasVested
    ensures r.percentageVested == percentageVested
    ensures r.interestAccrued == Displayed(interest * r.percentageVested)
    ensures r.interestRemaining == Displayed(interest * (1.0 - r.percentageVested))
    ensures Abs(r.interestAccrued + r.interestRemaining - interest) < 2.0 * MIN_DISPLAYED
    ensures 0.0 <= r.interestAccrued <= interest && 0.0 <= r.interestRemaining <= interest
  {
    var accrued := interest * percentageVested;
    var remaining := interest * (1.0 - percentageVested);
    InterestBounds(interest, percentageVested, accrued, remaining);
    if accrued < MIN_DISPLAYED {
      accrued := 0.0;
    }
    if remaining < MIN_DISPLAYED {
      remaining := 0.0;
    }
    r := Enriched(end, durationLeft, hasVested, percentageVested, accrued, remaining);
    SameDisplayed(interest * percentageVested, interest * r.percentageVested);
    SameDisplayed(interest * (1.0 - percentageVested), interest * (1.0 - r.percentageVested));
  }

  lemma SameDisplayed(x: real, y: real)
    requires x == y
    ensures Displayed(x) == Displayed(y)
  {
  }

  /** Amounts below a millionth are shown as nothing. */
  function Displayed(amount: real): real {
    if amount < 0.000001 then 0.0 else amount
  }

  lemma DisplayedExactly(amount: real)
    ensures amount < 0.000001 ==> Displayed(amount) == 0.0
    ensures amount >= 0.000001 ==> Displayed(amount) == amount
  {
  }

  lemma InterestBounds(interest: real, p: real, accrued: real, remaining: real)
    requires interest >= 0.0 && 0.0 <= p <= 1.0 && accrued == interest * p && remaining == interest * (1.0 - p)
    ensures Abs(Displayed(accrued) + Displayed(remaining) - interest) < 2.0 * MIN_DISPLAYED
    ensures 0.0 <= Displayed(accrued) <= interest && 0.0 <= Displayed(remaining) <= interest
  {
    Shares(interest, p);
  }

  lemma Product(x: real, d: real)
    requires d > 0.0
    ensures x > 0.0 <==> x * d > 0.0
  {
  }

  lemma DivideMonotone(x: real, y: real, d: real)
    requires d > 0.0 && x <= y
    ensures x / d <= y / d
  {
    var p, q := x / d, y / d;
    assert p * d == x && q * d == y;
    Product(p - q, d);
    assert (p - q) * d == p * d - q * d;
  }

  lemma PastEnd(end: real, duration: real, now: real)
    requires duration > 0.0 && end < now
    ensures Elapsed(end, duration, now) == 1.0
  {
    DivideMonotone(duration, now - (end - duration), duration);
  }

  lemma ShiftedElapsed(end: real, duration: real, now: real)
    requires duration > 0.0
    ensures 0.0 <= Elapsed(end - MINUTES_3, duration, now) - Elapsed(end, duration, now) <= MINUTES_3 / duration
  {
    var x := now - (end - duration);
    assert (x + MINUTES_3) / duration == x / duration + MINUTES_3 / duration;
    assert now - (end - MINUTES_3 - duration) == x + MINUTES_3;
    DivideMonotone(0.0, MINUTES_3, duration);
  }

  lemma Shares(interest: real, p: real)
    requires interest >= 0.0 && 0.0 <= p <= 1.0
    ensures 0.0 <= interest * p <= interest && 0.0 <= interest * (1.0 - p) <= interest
    ensures interest * p + interest * (1.0 - p) == interest
  {
  }

  /** Two clamped shares compare as their numerators do, unless the clamps make them equal. */
  lemma ElapsedOrder(end1: real, now1: real, end2: real, now2: real, duration: real)
    requires duration > 0.0
    ensures var x1, x2 := now1 - (end1 - duration), now2 - (end2 - duration);
            Elapsed(end2, duration, now2) < Elapsed(end1, duration, now1) <==> x2 < x1 && 0.0 < x1 && x2 < duration
  {
    var x1, x2 := now1 - (end1 - duration), now2 - (end2 - duration);
    Compares(x2, x1, duration);
    Compares(0.0, x1, duration);
    Compares(x2, duration, duration);
    Compares(duration, x1, duration);
    Compares(0.0, duration, duration);
    assert duration / duration == 1.0 && 0.0 / duration == 0.0;
  }

  lemma Compares(x: real, y: real, d: real)
    requires d > 0.0
    ensures x < y <==> x / d < y / d
  {
    var p, q := x / d, y / d;
    assert p * d == x && q * d == y;
    Product(q - p, d);
    assert (q - p) * d == q * d - p * d;
  }

  /**
   The share falls from one instant to a later one exactly when the shift ends in between, the two are less
   than three minutes apart, and the stake has not ended by the later one.
   */
  lemma FallsExactly(end: real, duration: real, t1: real, t2: real)
    requires duration > 0.0 && t1 < t2
    ensures Share(end, duration, t2) < Share(end, duration, t1) <==>
            Shifts(end, duration, t1) && !Shifts(end, duration, t2) && t2 - t1 < MINUTES_3 && t2 < end
  {
    var end1 := if Shifts(end, duration, t1) then end - MINUTES_3 else end;
    var end2 := if Shifts(end, duration, t2) then end - MINUTES_3 else end;
    if t2 <= end {
      ElapsedOrder(end1, t1, end2, t2, duration);
    } else {
      ShareAtMostOne(end, duration, t1);
    }
  }

  lemma ShareAtMostOne(end: real, duration: real, now: real)
    requires duration > 0.0
    ensures 0.0 <= Share(end, duration, now) <= 1.0
  {
  }

  /** It falls to nothing at the instant at which the stake starts, whatever the duration. */
  lemma FallsAtTheStart(end: real, duration: real, before: real)
    requires duration > 0.0 && end - duration - MINUTES_3 < before < end - duration
    ensures Share(end, duration, end - duration) == 0.0 < Share(end, duration, before)
  {
    FallsExactly(end, duration, before, end - duration);
    assert 0.0 / duration == 0.0;
  }

  /** It falls two hours after the start, when the duration is longer. */
  lemma FallsAfterTwoHours(end: real, duration: real, before: real)
    requires duration > HOURS_2
    requires end - duration + HOURS_2 - MINUTES_3 < before < end - duration + HOURS_2
    ensures Share(end, duration, end - duration + HOURS_2) < Share(end, duration, before)
  {
    FallsExactly(end, duration, before, end - duration + HOURS_2);
  }

  /** At no other time is it less than before: only at the start, and for three minutes after two hours. */
  lemma FallsOnlyThen(end: real, duration: real, t1: real, t2: real)
    requires duration > 0.0 && t1 < t2 && Share(end, duration, t2) < Share(end, duration, t1)
    ensures var start := end - duration;
            t2 == start || (start + HOURS_2 <= t2 < start + HOURS_2 + MINUTES_3 && HOURS_2 < duration)
  {
    FallsExactly(end, duration, t1, t2);
  }
}
