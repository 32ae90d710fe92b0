/**
 The power quantum engine: events recorded during a quantum are charged to tenants when it ends,
 and the shares of power are rescaled.

 Shares are exact reals and the cost of an event is a parameter.
 */
module Power {
  import opened Scan
  import opened Registry

  // ----- Sums -----

  function Sum(s: seq<real>): real {
    if |s| == 0 then 0.0 else Sum(s[..|s| - 1]) + s[|s| - 1]
  }

  lemma {:induction false} SumScaled(s: seq<real>, t: seq<real>, c: real)
    requires |s| == |t| && forall i :: 0 <= i < |s| ==> t[i] == s[i] * c
    ensures Sum(t) == Sum(s) * c
  {
    if |s| > 0 {
      var n := |s| - 1;
      SumScaled(s[..n], t[..n], c);
      assert t[n] == s[n] * c;
    }
  }

  lemma {:induction false} SumPositive(s: seq<real>)
    requires forall i :: 0 <= i < |s| ==> s[i] > 0.0
    ensures |s| > 0 ==> Sum(s) > 0.0
    ensures Sum(s) >= 0.0
  {
    if |s| > 0 {
      SumPositive(s[..|s| - 1]);
    }
  }

  lemma {:induction false} SumBelow(s: seq<real>, t: seq<real>)
    requires |s| == |t| && forall i :: 0 <= i < |s| ==> s[i] < t[i]
    ensures |s| > 0 ==> Sum(s) < Sum(t)
    ensures Sum(s) <= Sum(t)
  {
    if |s| > 0 {
      var n := |s| - 1;
      SumBelow(s[..n], t[..n]);
      assert s[n] < t[n];
    }
  }

  lemma {:induction false} SumConstant(s: seq<real>, c: real)
    requires forall i :: 0 <= i < |s| ==> s[i] == c
    ensures Sum(s) == |s| as real * c
  {
    if |s| > 0 {
      SumConstant(s[..|s| - 1], c);
      assert (|s| - 1) as real * c + c == |s| as real * c;
    }
  }

  // ----- Accounting -----

  /** `device` is absent for a CPU usage digest. */
  datatype PowerEvent = PowerEvent(tenant: nat, device: Option<nat>)

  ghost predicate Owned(evs: seq<PowerEvent>) {
    forall i :: 0 <= i < |evs| ==> evs[i].tenant < MAX_TENANTS
  }

  function TotalOf(evs: seq<PowerEvent>, t: nat, cost: PowerEvent -> real): real {
    if |evs| == 0 then 0.0
    else
      var e := evs[|evs| - 1];
      TotalOf(evs[..|evs| - 1], t, cost) + if e.tenant == t then cost(e) else 0.0
  }

  function Totals(evs: seq<PowerEvent>, cost: PowerEvent -> real): (r: seq<real>)
    ensures |r| == MAX_TENANTS
  {
    seq(MAX_TENANTS, t requires 0 <= t => TotalOf(evs, t, cost))
  }

  function TotalCost(evs: seq<PowerEvent>, cost: PowerEvent -> real): real {
    if |evs| == 0 then 0.0 else TotalCost(evs[..|evs| - 1], cost) + cost(evs[|evs| - 1])
  }

  /** The events of one tenant, in order. */
  function EventsOf(evs: seq<PowerEvent>, t: nat): (r: seq<PowerEvent>)
    ensures forall i :: 0 <= i < |r| ==> r[i].tenant == t
    ensures forall e: PowerEvent :: e.tenant == t ==> multiset(r)[e] == multiset(evs)[e]
  {
    if |evs| == 0 then []
    else
      var init, e := evs[..|evs| - 1], evs[|evs| - 1];
      assert evs == init + [e];
      EventsOf(init, t) + if e.tenant == t then [e] else []
  }

  /** The cost of a list of events is the sum of their costs. */
  lemma {:induction false} TotalCostIsSum(evs: seq<PowerEvent>, costs: seq<real>, cost: PowerEvent -> real)
    requires |costs| == |evs| && forall i :: 0 <= i < |evs| ==> costs[i] == cost(evs[i])
    ensures TotalCost(evs, cost) == Sum(costs)
  {
    if |evs| > 0 {
      var n := |evs| - 1;
      TotalCostIsSum(evs[..n], costs[..n], cost);
      assert costs[n] == cost(evs[n]);
    }
  }

  lemma {:induction false} TotalOfOwnEvents(evs: seq<PowerEvent>, t: nat, cost: PowerEvent -> real)
    ensures TotalOf(evs, t, cost) == TotalCost(EventsOf(evs, t), cost)
  {
    if |evs| > 0 {
      var init, e := evs[..|evs| - 1], evs[|evs| - 1];
      TotalOfOwnEvents(init, t, cost);
      var own := EventsOf(init, t);
      if e.tenant == t {
        assert (own + [e])[..|own|] == own;
      } else {
        assert own + [] == own;
      }
    }
  }

  /** Every tenant is charged the cost of its own events and of no others, so a tenant without
      events is charged nothing. */
  lemma ChargedToOwner(evs: seq<PowerEvent>, t: nat, cost: PowerEvent -> real)
    requires t < 4
    ensures |Totals(evs, cost)| == 4
    ensures Totals(evs, cost)[t] == TotalCost(EventsOf(evs, t), cost)
    ensures (forall i :: 0 <= i < |evs| ==> evs[i].tenant != t) ==> Totals(evs, cost)[t] == 0.0
  {
    TotalOfOwnEvents(evs, t, cost);
    if forall i :: 0 <= i < |evs| ==> evs[i].tenant != t {
      NoOwnEvents(evs, t);
    }
  }

  lemma {:induction false} NoOwnEvents(evs: seq<PowerEvent>, t: nat)
    requires forall i :: 0 <= i < |evs| ==> evs[i].tenant != t
    ensures EventsOf(evs, t) == []
  {
    if |evs| > 0 {
      NoOwnEvents(evs[..|evs| - 1], t);
    }
  }

  lemma {:induction false} SumBump(s: seq<real>, t: seq<real>, k: nat, c: real)
    requires k < |s| == |t| && forall i :: 0 <= i < |s| ==> t[i] == if i == k then s[i] + c else s[i]
    ensures Sum(t) == Sum(s) + c
  {
    var n := |s| - 1;
    if k < n {
      SumBump(s[..n], t[..n], k, c);
      assert t[n] == s[n];
    } else {
      assert t[..n] == s[..n];
    }
  }

  /** The totals charged to the tenants add up to the cost of all events: nothing is lost and
      nothing is charged twice. */
  lemma {:induction false} TotalsConserveCost(evs: seq<PowerEvent>, cost: PowerEvent -> real)
    requires Owned(evs)
    ensures Sum(Totals(evs, cost)) == TotalCost(evs, cost)
  {
    if |evs| == 0 {
      SumConstant(Totals(evs, cost), 0.0);
    } else {
      var n := |evs| - 1;
      TotalsConserveCost(evs[..n], cost);
      SumBump(Totals(evs[..n], cost), Totals(evs, cost), evs[n].tenant, cost(evs[n]));
    }
  }

  // ----- Shares -----

  function Budget(power: int, share: real): real {
    power as real * share
  }

  /** No division by zero in the loop over the tenants. */
  predicate Divisible(shares: seq<real>, power: int) {
    forall i :: 0 <= i < |shares| ==> Budget(power, shares[i]) != 0.0
  }

  function Unused(consumed: seq<real>, shares: seq<real>, power: int): (u: seq<real>)
    requires |consumed| == |shares| && Divisible(shares, power)
    ensures |u| == |shares|
    ensures forall i :: 0 <= i < |u| ==> u[i] == 1.0 - consumed[i] / Budget(power, shares[i])
  {
    seq(|shares|, i requires 0 <= i < |shares| => 1.0 - consumed[i] / Budget(power, shares[i]))
  }

  function Scaled(u: seq<real>, factor: real): (r: seq<real>)
    ensures |r| == |u| && forall i :: 0 <= i < |u| ==> r[i] == u[i] * factor
  {
    seq(|u|, i requires 0 <= i < |u| => u[i] * factor)
  }

  /** The shares after a quantum; `None` when a division by zero makes some share not a number. */
  function Rescale(consumed: seq<real>, shares: seq<real>, power: int): (r: Option<seq<real>>)
    requires |consumed| == |shares|
    ensures r.Some? ==> |r.value| == |shares|
  {
    if !Divisible(shares, power) then None
    else
      var u := Unused(consumed, shares, power);
      if Sum(u) == 0.0 then None
      else Some(Scaled(u, 1.0 / Sum(u)))
  }

  ghost predicate Fair(shares: seq<real>) {
    |shares| == MAX_TENANTS && Sum(shares) == 1.0 && forall i :: 0 <= i < |shares| ==> shares[i] > 0.0
  }

  ghost predicate WithinBudget(consumed: seq<real>, shares: seq<real>, power: int) {
    |consumed| == |shares| && forall i :: 0 <= i < |shares| ==> consumed[i] < power as real * shares[i]
  }

  ghost predicate OverBudget(consumed: seq<real>, shares: seq<real>, power: int) {
    |consumed| == |shares| && forall i :: 0 <= i < |shares| ==> consumed[i] > power as real * shares[i]
  }

  lemma FractionSign(c: real, b: real)
    requires b > 0.0
    ensures 1.0 - c / b > 0.0 <==> c < b
    ensures 1.0 - c / b < 0.0 <==> c > b
  {
    var f := c / b;
    assert f * b == c;
    if f >= 1.0 {
      assert f * b >= 1.0 * b;
    }
    if f <= 1.0 {
      assert f * b <= 1.0 * b;
    }
  }

  /** Whenever the new shares are numbers they add up to exactly 1. */
  lemma RescaledSharesSumToOne(consumed: seq<real>, shares: seq<real>, power: int)
    requires |consumed| == |shares|
    ensures var r := Rescale(consumed, shares, power); r.Some? ==> Sum(r.value) == 1.0
  {
    var r := Rescale(consumed, shares, power);
    if r.Some? {
      var u := Unused(consumed, shares, power);
      var c := 1.0 / Sum(u);
      SumScaled(u, r.value, c);
      assert Sum(u) * c == 1.0;
    }
  }

  lemma ProductSign(u: real, c: real)
    ensures c > 0.0 ==> (u * c > 0.0 <==> u > 0.0)
    ensures c < 0.0 ==> (u * c > 0.0 <==> u < 0.0)
  {
  }

  lemma {:induction false} SumNegative(s: seq<real>)
    requires forall i :: 0 <= i < |s| ==> s[i] < 0.0
    ensures |s| > 0 ==> Sum(s) < 0.0
    ensures Sum(s) <= 0.0
  {
    if |s| > 0 {
      SumNegative(s[..|s| - 1]);
    }
  }

  lemma NewShare(consumed: seq<real>, shares: seq<real>, power: int, i: nat)
    requires |consumed| == |shares| && i < |shares| && Rescale(consumed, shares, power).Some?
    ensures Rescale(consumed, shares, power).value[i] ==
            Unused(consumed, shares, power)[i] * (1.0 / Sum(Unused(consumed, shares, power)))
  {
  }

  /** In plain arithmetic: the unused fraction of what a tenant was given is what it was given less
      what it consumed. */
  lemma UnusedOfGiven(consumed: seq<real>, shares: seq<real>, power: int, i: nat)
    requires |consumed| == |shares| && i < |shares| && Divisible(shares, power)
    ensures var given := power as real * shares[i];
            Unused(consumed, shares, power)[i] * given == given - consumed[i]
  {
    FractionOfGiven(consumed[i], power as real * shares[i]);
  }

  lemma FractionOfGiven(c: real, given: real)
    requires given != 0.0
    ensures (1.0 - c / given) * given == given - c
  {
    var f := c / given;
    assert f * given == c;
    assert (1.0 - f) * given == given - f * given;
  }

  /** When the new shares are numbers, a tenant is left without a share exactly when it consumed
      all it was given. */
  lemma ShareLostExactly(consumed: seq<real>, shares: seq<real>, power: int, i: nat)
    requires |consumed| == |shares| && i < |shares| && Rescale(consumed, shares, power).Some?
    ensures Rescale(consumed, shares, power).value[i] == 0.0 <==> consumed[i] == power as real * shares[i]
  {
    var u := Unused(consumed, shares, power);
    NewShare(consumed, shares, power, i);
    UnusedOfGiven(consumed, shares, power, i);
    ReciprocalNonzero(Sum(u));
    ProductZero(u[i], 1.0 / Sum(u));
    ProductZero(u[i], power as real * shares[i]);
  }

  lemma ReciprocalNonzero(x: real)
    requires x != 0.0
    ensures 1.0 / x != 0.0
  {
    assert 1.0 / x * x == 1.0;
  }

  lemma ReciprocalSign(x: real)
    requires x != 0.0
    ensures (1.0 / x > 0.0 <==> x > 0.0) && (1.0 / x < 0.0 <==> x < 0.0)
  {
    assert (1.0 / x) * x == 1.0;
  }

  lemma BudgetPositive(power: int, share: real)
    requires power > 0 && share > 0.0
    ensures Budget(power, share) > 0.0
  {
  }

  /**
   From positive shares, the new shares are positive exactly when every tenant stayed below its
   budget, or every tenant exceeded it.
   */
  lemma PositiveExactly(consumed: seq<real>, shares: seq<real>, power: int)
    requires |consumed| == |shares| > 0 && power > 0 && forall i :: 0 <= i < |shares| ==> shares[i] > 0.0
    ensures var r := Rescale(consumed, shares, power);
            r.Some? && (forall i :: 0 <= i < |shares| ==> r.value[i] > 0.0) <==>
            WithinBudget(consumed, shares, power) || OverBudget(consumed, shares, power)
  {
    forall i | 0 <= i < |shares| ensures Budget(power, shares[i]) > 0.0 {
      BudgetPositive(power, shares[i]);
    }
    var u := Unused(consumed, shares, power);
    forall i | 0 <= i < |shares|
      ensures u[i] > 0.0 <==> consumed[i] < Budget(power, shares[i])
      ensures u[i] < 0.0 <==> consumed[i] > Budget(power, shares[i])
    {
      FractionSign(consumed[i], Budget(power, shares[i]));
    }
    if WithinBudget(consumed, shares, power) {
      SumPositive(u);
    } else if OverBudget(consumed, shares, power) {
      SumNegative(u);
    }
    var r := Rescale(consumed, shares, power);
    if r.Some? {
      ReciprocalSign(Sum(u));
      forall i | 0 <= i < |shares|
        ensures Sum(u) > 0.0 ==> (r.value[i] > 0.0 <==> u[i] > 0.0)
        ensures Sum(u) < 0.0 ==> (r.value[i] > 0.0 <==> u[i] < 0.0)
      {
        NewShare(consumed, shares, power, i);
        ProductSign(u[i], 1.0 / Sum(u));
      }
    }
  }

  /** One quantum in which nobody exceeds its budget keeps the shares positive and adding up to
      1, and the tenants together use less than the power present. */
  lemma QuantumKeepsFair(consumed: seq<real>, shares: seq<real>, power: int)
    requires Fair(shares) && power > 0 && WithinBudget(consumed, shares, power)
    ensures var r := Rescale(consumed, shares, power); r.Some? && Fair(r.value)
    ensures Sum(consumed) < power as real
  {
    PositiveExactly(consumed, shares, power);
    RescaledSharesSumToOne(consumed, shares, power);
    BudgetsBound(consumed, shares, power);
  }

  lemma BudgetsBound(consumed: seq<real>, shares: seq<real>, power: int)
    requires |shares| > 0 && Sum(shares) == 1.0 && WithinBudget(consumed, shares, power)
    ensures Sum(consumed) < power as real
  {
    var budgets := seq(|shares|, i requires 0 <= i < |shares| => Budget(power, shares[i]));
    SumScaled(shares, budgets, power as real);
    SumBelow(consumed, budgets);
  }

  /**
   Whenever the new shares are numbers, whatever the old shares and the consumption were, they
   stand in the ratio of the unused fractions of the old budgets; and a larger unused fraction is
   rewarded with a larger share exactly when the tenants together left something unused.
   */
  lemma SharesInRatio(consumed: seq<real>, shares: seq<real>, power: int, i: nat, j: nat)
    requires |consumed| == |shares| && i < |shares| && j < |shares| && Rescale(consumed, shares, power).Some?
    ensures var r, u := Rescale(consumed, shares, power).value, Unused(consumed, shares, power);
            && r[i] * u[j] == r[j] * u[i]
            && (u[i] == u[j] ==> r[i] == r[j])
            && (u[i] > u[j] ==> (r[i] > r[j] <==> Sum(u) > 0.0))
  {
    var r, u := Rescale(consumed, shares, power).value, Unused(consumed, shares, power);
    NewShare(consumed, shares, power, i);
    NewShare(consumed, shares, power, j);
    ReciprocalSign(Sum(u));
    ScaledPair(u[i], u[j], r[i], r[j], 1.0 / Sum(u));
  }

  lemma ScaledPair(ui: real, uj: real, ri: real, rj: real, c: real)
    requires ri == ui * c && rj == uj * c
    ensures ri * uj == rj * ui
    ensures ui == uj ==> ri == rj
    ensures c > 0.0 && ui > uj ==> ri > rj
    ensures c < 0.0 && ui > uj ==> ri < rj
  {
    CrossRatio(ui, uj, c);
    if c > 0.0 && ui > uj {
      assert (ui - uj) * c > 0.0;
    } else if c < 0.0 && ui > uj {
      assert (ui - uj) * (-c) > 0.0;
    }
  }

  lemma UnusedAt(consumed: seq<real>, shares: seq<real>, power: int, i: nat)
    requires |consumed| == |shares| && i < |shares| && Divisible(shares, power)
    ensures Budget(power, shares[i]) != 0.0
    ensures Unused(consumed, shares, power)[i] == 1.0 - consumed[i] / Budget(power, shares[i])
  {
  }

  /** While everybody stays within budget, new shares stand in the ratio of the unused fractions,
      and a tenant that used a smaller fraction never gets a smaller share. */
  lemma SharesFollowThrift(consumed: seq<real>, shares: seq<real>, power: int, i: nat, j: nat)
    requires Fair(shares) && power > 0 && WithinBudget(consumed, shares, power) && i < |shares| && j < |shares|
    ensures var r := Rescale(consumed, shares, power);
            && r.Some? && Divisible(shares, power)
            && r.value[i] * Unused(consumed, shares, power)[j] == r.value[j] * Unused(consumed, shares, power)[i]
            && (consumed[i] / Budget(power, shares[i]) <= consumed[j] / Budget(power, shares[j])
                ==> r.value[i] >= r.value[j])
  {
    UnusedPositive(consumed, shares, power);
    SharesInRatio(consumed, shares, power, i, j);
    UnusedAt(consumed, shares, power, i);
    UnusedAt(consumed, shares, power, j);
    var u, r := Unused(consumed, shares, power), Rescale(consumed, shares, power).value;
    ThriftOrder(consumed[i] / Budget(power, shares[i]), consumed[j] / Budget(power, shares[j]), u[i], u[j], r[i], r[j]);
  }

  lemma ThriftOrder(fi: real, fj: real, ui: real, uj: real, ri: real, rj: real)
    requires ui == 1.0 - fi && uj == 1.0 - fj
    requires (ui == uj ==> ri == rj) && (ui > uj ==> ri > rj)
    ensures fi <= fj ==> ri >= rj
  {
  }

  lemma UnusedPositive(consumed: seq<real>, shares: seq<real>, power: int)
    requires Fair(shares) && power > 0 && WithinBudget(consumed, shares, power)
    ensures Divisible(shares, power)
    ensures Sum(Unused(consumed, shares, power)) > 0.0 && 1.0 / Sum(Unused(consumed, shares, power)) > 0.0
    ensures Rescale(consumed, shares, power).Some?
  {
    forall k | 0 <= k < |shares| ensures Budget(power, shares[k]) > 0.0 {
      BudgetPositive(power, shares[k]);
    }
    var u := Unused(consumed, shares, power);
    forall k | 0 <= k < |u| ensures u[k] > 0.0 {
      FractionSign(consumed[k], Budget(power, shares[k]));
    }
    SumPositive(u);
    ReciprocalSign(Sum(u));
  }

  lemma CrossRatio(a: real, b: real, c: real)
    ensures (a * c) * b == (b * c) * a
  {
  }

  /** With no consumption at all the shares become uniform. */
  lemma IdleQuantumEqualises(consumed: seq<real>, shares: seq<real>, power: int)
    requires |consumed| == |shares| == MAX_TENANTS && Divisible(shares, power)
    requires forall i :: 0 <= i < |consumed| ==> consumed[i] == 0.0
    ensures var r := Rescale(consumed, shares, power);
            r.Some? && forall i :: 0 <= i < MAX_TENANTS ==> r.value[i] == 0.25
  {
    var u := Unused(consumed, shares, power);
    SumConstant(u, 1.0);
  }

  // ----- Runs of quanta -----

  datatype Quantum = Quantum(power: int, evs: seq<PowerEvent>)

  function SharesAfter(shares: seq<real>, quanta: seq<Quantum>, cost: PowerEvent -> real): (r: Option<seq<real>>)
    requires |shares| == MAX_TENANTS
    ensures r.Some? ==> |r.value| == MAX_TENANTS
  {
    if |quanta| == 0 then Some(shares)
    else
      var q := quanta[|quanta| - 1];
      match SharesAfter(shares, quanta[..|quanta| - 1], cost)
      case None => None
      case Some(sh) => Rescale(Totals(q.evs, cost), sh, q.power)
  }

  /** In every quantum there is power and each tenant stays below the budget its share gives it. */
  ghost predicate Thrifty(shares: seq<real>, quanta: seq<Quantum>, cost: PowerEvent -> real)
    requires |shares| == MAX_TENANTS
  {
    |quanta| > 0 ==>
      var init, q := quanta[..|quanta| - 1], quanta[|quanta| - 1];
      && Thrifty(shares, init, cost) && q.power > 0 && Owned(q.evs)
      && (SharesAfter(shares, init, cost).Some? ==>
            WithinBudget(Totals(q.evs, cost), SharesAfter(shares, init, cost).value, q.power))
  }

  /** The shares of power always add up to 1: from positive shares adding up to 1, every run of
      quanta within budget keeps them so, and every quantum costs less than the power present. */
  lemma {:induction false} FairForever(shares: seq<real>, quanta: seq<Quantum>, cost: PowerEvent -> real)
    requires Fair(shares) && Thrifty(shares, quanta, cost)
    ensures SharesAfter(shares, quanta, cost).Some? && Fair(SharesAfter(shares, quanta, cost).value)
    ensures forall i :: 0 <= i < |quanta| ==> TotalCost(quanta[i].evs, cost) < quanta[i].power as real
  {
    if |quanta| > 0 {
      var n := |quanta| - 1;
      var q := quanta[n];
      FairForever(shares, quanta[..n], cost);
      QuantumKeepsFair(Totals(q.evs, cost), SharesAfter(shares, quanta[..n], cost).value, q.power);
      TotalsConserveCost(q.evs, cost);
      assert forall i :: 0 <= i < n ==> quanta[..n][i] == quanta[i];
    }
  }

  /** The shares are numbers, positive, and add up to 1. */
  ghost predicate FairNow(shares: Option<seq<real>>) {
    shares.Some? && Fair(shares.value)
  }

  /** All tenants stay below the budgets these shares give them, or all exceed them. */
  ghost predicate OneSided(shares: Option<seq<real>>, q: Quantum, cost: PowerEvent -> real) {
    shares.Some? && (|| WithinBudget(Totals(q.evs, cost), shares.value, q.power)
                     || OverBudget(Totals(q.evs, cost), shares.value, q.power))
  }

  lemma QuantumFairExactly(shares: seq<real>, q: Quantum, cost: PowerEvent -> real)
    requires Fair(shares) && q.power > 0
    ensures FairNow(Rescale(Totals(q.evs, cost), shares, q.power)) <==> OneSided(Some(shares), q, cost)
  {
    PositiveExactly(Totals(q.evs, cost), shares, q.power);
    RescaledSharesSumToOne(Totals(q.evs, cost), shares, q.power);
  }

  lemma FairStep(shares: seq<real>, quanta: seq<Quantum>, cost: PowerEvent -> real, n: nat)
    requires |shares| == MAX_TENANTS && n < |quanta| && quanta[n].power > 0
    requires FairNow(SharesAfter(shares, quanta[..n], cost))
    ensures FairNow(SharesAfter(shares, quanta[..n + 1], cost)) <==>
            OneSided(SharesAfter(shares, quanta[..n], cost), quanta[n], cost)
  {
    assert quanta[..n + 1][..n] == quanta[..n];
    QuantumFairExactly(SharesAfter(shares, quanta[..n], cost).value, quanta[n], cost);
  }

  lemma {:induction false} FairUpTo(shares: seq<real>, quanta: seq<Quantum>, cost: PowerEvent -> real, n: nat)
    requires Fair(shares) && n <= |quanta| && forall i :: 0 <= i < n ==> quanta[i].power > 0
    requires forall i :: 0 <= i < n ==> OneSided(SharesAfter(shares, quanta[..i], cost), quanta[i], cost)
    ensures FairNow(SharesAfter(shares, quanta[..n], cost))
  {
    if n > 0 {
      FairUpTo(shares, quanta, cost, n - 1);
      FairStep(shares, quanta, cost, n - 1);
    }
  }

  /**
   From fair shares and with power present, the shares are fair after every quantum of a run if and
   only if every quantum left all tenants below their budgets or all above.
   */
  lemma FairThroughoutExactly(shares: seq<real>, quanta: seq<Quantum>, cost: PowerEvent -> real)
    requires Fair(shares) && forall i :: 0 <= i < |quanta| ==> quanta[i].power > 0
    ensures (forall n :: 0 <= n <= |quanta| ==> FairNow(SharesAfter(shares, quanta[..n], cost))) <==>
            (forall n :: 0 <= n < |quanta| ==>
               OneSided(SharesAfter(shares, quanta[..n], cost), quanta[n], cost))
  {
    if forall n :: 0 <= n <= |quanta| ==> FairNow(SharesAfter(shares, quanta[..n], cost)) {
      forall n | 0 <= n < |quanta| ensures OneSided(SharesAfter(shares, quanta[..n], cost), quanta[n], cost) {
        assert FairNow(SharesAfter(shares, quanta[..n + 1], cost));
        FairStep(shares, quanta, cost, n);
      }
    }
    if forall n :: 0 <= n < |quanta| ==> OneSided(SharesAfter(shares, quanta[..n], cost), quanta[n], cost) {
      forall n | 0 <= n <= |quanta| ensures FairNow(SharesAfter(shares, quanta[..n], cost)) {
        FairUpTo(shares, quanta, cost, n);
      }
    }
  }

  /** What the daemon charges for every event at present. */
  function NoCost(e: PowerEvent): real {
    0.0
  }

  lemma {:induction false} FreeTotals(evs: seq<PowerEvent>, t: nat)
    ensures TotalOf(evs, t, NoCost) == 0.0
  {
    if |evs| > 0 {
      FreeTotals(evs[..|evs| - 1], t);
    }
  }

  /** With the zero costs the daemon charges at present, any nonzero shares are uniform after one
      quantum and stay uniform forever, as long as some power is present. */
  lemma {:induction false} FreeQuantaEqualise(shares: seq<real>, quanta: seq<Quantum>)
    requires |shares| == MAX_TENANTS && |quanta| > 0
    requires forall i :: 0 <= i < |shares| ==> shares[i] != 0.0
    requires forall i :: 0 <= i < |quanta| ==> quanta[i].power != 0
    ensures var r := SharesAfter(shares, quanta, NoCost);
            r.Some? && forall i :: 0 <= i < MAX_TENANTS ==> r.value[i] == 0.25
  {
    var n := |quanta| - 1;
    var q := quanta[n];
    if n > 0 {
      FreeQuantaEqualise(shares, quanta[..n]);
    }
    var before := SharesAfter(shares, quanta[..n], NoCost).value;
    var totals := Totals(q.evs, NoCost);
    forall t | 0 <= t < |totals| ensures totals[t] == 0.0 {
      FreeTotals(q.evs, t);
    }
    assert Divisible(before, q.power);
    IdleQuantumEqualises(totals, before, q.power);
  }

  /** The shares after at least one quantum are numbers only if every share was nonzero and every
      quantum had power, whatever the costs. */
  lemma {:induction false} NumbersNeedSharesAndPower(shares: seq<real>, quanta: seq<Quantum>, cost: PowerEvent -> real)
    requires |shares| == MAX_TENANTS && |quanta| > 0 && SharesAfter(shares, quanta, cost).Some?
    ensures forall i :: 0 <= i < |shares| ==> shares[i] != 0.0
    ensures forall i :: 0 <= i < |quanta| ==> quanta[i].power != 0
  {
    var n := |quanta| - 1;
    var before := SharesAfter(shares, quanta[..n], cost).value;
    assert Divisible(before, quanta[n].power);
    DivisibleExactly(before, quanta[n].power);
    if n > 0 {
      NumbersNeedSharesAndPower(shares, quanta[..n], cost);
      assert forall i :: 0 <= i < n ==> quanta[..n][i] == quanta[i];
    }
  }

  /** With the zero costs the daemon charges at present, the shares stay numbers through a nonempty
      run if and only if every share was nonzero and every quantum had power. */
  lemma FreeNumbersExactly(shares: seq<real>, quanta: seq<Quantum>)
    requires |shares| == MAX_TENANTS && |quanta| > 0
    ensures SharesAfter(shares, quanta, NoCost).Some? <==>
            && (forall i :: 0 <= i < |shares| ==> shares[i] != 0.0)
            && (forall i :: 0 <= i < |quanta| ==> quanta[i].power != 0)
  {
    if SharesAfter(shares, quanta, NoCost).Some? {
      NumbersNeedSharesAndPower(shares, quanta, NoCost);
    } else if (forall i :: 0 <= i < |shares| ==> shares[i] != 0.0)
              && forall i :: 0 <= i < |quanta| ==> quanta[i].power != 0 {
      FreeQuantaEqualise(shares, quanta);
    }
  }

  // ----- One quantum from arbitrary shares -----

  lemma DivisibleExactly(shares: seq<real>, power: int)
    requires |shares| > 0
    ensures Divisible(shares, power) <==> power != 0 && forall i :: 0 <= i < |shares| ==> shares[i] != 0.0
  {
    forall i | 0 <= i < |shares| ensures Budget(power, shares[i]) != 0.0 <==> power != 0 && shares[i] != 0.0 {
      ProductZero(power as real, shares[i]);
    }
    assert Divisible(shares, power) ==> Budget(power, shares[0]) != 0.0;
  }

  lemma ProductZero(a: real, b: real)
    ensures a * b == 0.0 <==> a == 0.0 || b == 0.0
  {
  }

  /** The fraction of its budget that each tenant used. */
  function Used(consumed: seq<real>, shares: seq<real>, power: int): (u: seq<real>)
    requires |consumed| == |shares| && Divisible(shares, power)
    ensures |u| == |shares|
    ensures forall i :: 0 <= i < |u| ==> u[i] * (power as real * shares[i]) == consumed[i]
  {
    seq(|shares|, i requires 0 <= i < |shares| => consumed[i] / Budget(power, shares[i]))
  }

  lemma {:induction false} SumComplement(u: seq<real>, f: seq<real>)
    requires |u| == |f| && forall i :: 0 <= i < |u| ==> u[i] == 1.0 - f[i]
    ensures Sum(u) == |u| as real - Sum(f)
  {
    if |u| > 0 {
      var n := |u| - 1;
      SumComplement(u[..n], f[..n]);
      assert u[n] == 1.0 - f[n];
    }
  }

  /**
   From arbitrary shares and for arbitrary costs, one quantum leaves numbers adding up to 1 if and
   only if there is power, no share is zero, and the used fractions do not add up to the number of
   tenants.
   */
  lemma SumToOneExactly(consumed: seq<real>, shares: seq<real>, power: int)
    requires |consumed| == |shares| > 0
    ensures Divisible(shares, power) <==> power != 0 && forall i :: 0 <= i < |shares| ==> shares[i] != 0.0
    ensures var r := Rescale(consumed, shares, power);
            r.Some? && Sum(r.value) == 1.0 <==>
            Divisible(shares, power) && Sum(Used(consumed, shares, power)) != |shares| as real
  {
    DivisibleExactly(shares, power);
    RescaledSharesSumToOne(consumed, shares, power);
    if Divisible(shares, power) {
      SumComplement(Unused(consumed, shares, power), Used(consumed, shares, power));
    }
  }
}
