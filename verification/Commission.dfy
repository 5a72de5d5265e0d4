// Payment splits in paisa, with rates and rupee amounts as exact reals.
module Commission {
  import opened Wrappers

  // math.Round: half away from zero.
  function Round(x: real): int {
    if x >= 0.0 then (x + 0.5).Floor else -((-x + 0.5).Floor)
  }

  datatype Split = Split(
    orderTotal: int, deliveryFee: int, adminRevenue: int, vendorEscrow: int, deliveryEscrow: int, commissionRate: real)

  // Fees come off the total until it is used up.
  function SplitOf(total: int, admin: int, delivery: int, rate: real): Split {
    if admin + delivery > total then
      if delivery >= total then Split(total, total, 0, 0, total, rate)
      else Split(total, delivery, total - delivery, 0, delivery, rate)
    else Split(total, delivery, admin, total - admin - delivery, delivery, rate)
  }

  // The store's rate, or the configured default without a store row.
  function RateOf(storeRate: Option<real>, defaultRate: real): real {
    match storeRate
    case Some(rate) => rate
    case None => defaultRate
  }

  // The gig's fee in rupees, or none without a gig.
  function FeePaisa(feeRupees: Option<real>): int {
    match feeRupees
    case Some(fee) => Round(fee * 100.0)
    case None => 0
  }

  function Share(total: int, rate: real): real {
    total as real * rate / 100.0
  }

  function CalculateSplit(total: int, storeRate: Option<real>, defaultRate: real, feeRupees: Option<real>): Split {
    var rate := RateOf(storeRate, defaultRate);
    SplitOf(total, Round(Share(total, rate)), FeePaisa(feeRupees), rate)
  }

  function CalculateCODSplit(
    total: int, storeRate: Option<real>, defaultRate: real, surcharge: real, feeRupees: Option<real>): Split
  {
    var rate := RateOf(storeRate, defaultRate);
    SplitOf(total, Round(Share(total, rate + surcharge)), FeePaisa(feeRupees), rate)
  }

  function Parts(s: Split): int {
    s.adminRevenue + s.vendorEscrow + s.deliveryEscrow
  }

  // Both splits hand out exactly the total, whatever the rates, fees and signs.
  lemma {:induction false} SplitsSumToTotal(
      total: int, storeRate: Option<real>, defaultRate: real, surcharge: real, feeRupees: Option<real>)
    ensures Parts(CalculateSplit(total, storeRate, defaultRate, feeRupees)) == total
    ensures Parts(CalculateCODSplit(total, storeRate, defaultRate, surcharge, feeRupees)) == total
  {
  }

  function Min(a: int, b: int): int {
    if a < b then a else b
  }

  // The rider is served first, then the platform, then the vendor, each from what is left.
  ghost predicate Waterfall(s: Split, total: int, admin: int, fee: int) {
    && s.deliveryEscrow == s.deliveryFee == Min(fee, total)
    && s.adminRevenue == Min(admin, total - s.deliveryEscrow)
    && s.vendorEscrow == total - s.deliveryEscrow - s.adminRevenue
    && s.deliveryEscrow >= 0 && s.adminRevenue >= 0 && s.vendorEscrow >= 0
  }

  lemma {:induction false} SplitIsWaterfall(total: int, admin: int, fee: int, rate: real)
    requires total >= 0 && admin >= 0 && fee >= 0
    ensures Waterfall(SplitOf(total, admin, fee, rate), total, admin, fee)
  {
  }

  // Rounding is off by at most a half, never crosses zero and keeps order.
  lemma {:induction false} RoundIsNearest(x: real)
    ensures -0.5 <= x - Round(x) as real <= 0.5
    ensures x >= 0.0 ==> Round(x) >= 0
    ensures x <= 0.0 ==> Round(x) <= 0
  {
  }

  lemma {:induction false} RoundReaches(x: real, n: int)
    requires n > 0
    ensures Round(x) >= n <==> x >= n as real - 0.5
  {
  }

  lemma {:induction false} RoundKeepsOrder(x: real, y: real)
    requires x <= y
    ensures Round(x) <= Round(y)
  {
    if y >= 0.0 && x < 0.0 {
      RoundIsNearest(x);
      RoundIsNearest(y);
    }
  }

  lemma {:induction false} ShareKeepsOrder(total: int, rate: real, more: real)
    requires total >= 0 && rate <= more
    ensures Share(total, rate) <= Share(total, more)
  {
    assert total as real * (more - rate) >= 0.0;
    assert total as real * (more - rate) == total as real * more - total as real * rate;
  }

  lemma {:induction false} ShareIsNonNegative(total: int, rate: real)
    requires total >= 0 && rate >= 0.0
    ensures Share(total, rate) >= 0.0 && Round(Share(total, rate)) >= 0
  {
    assert total as real * rate >= 0.0;
    RoundIsNearest(Share(total, rate));
  }

  lemma {:induction false} FeeIsNonNegative(feeRupees: Option<real>)
    requires feeRupees.Some? ==> feeRupees.value >= 0.0
    ensures FeePaisa(feeRupees) >= 0
  {
    if feeRupees.Some? {
      RoundIsNearest(feeRupees.value * 100.0);
    }
  }

  // With a nonnegative total, fee and rate - no upper bound on the rate is needed - the split is a
  // waterfall of the rounded share, so no part is negative.
  lemma {:induction false} SplitIsFair(total: int, storeRate: Option<real>, defaultRate: real, feeRupees: Option<real>)
    requires total >= 0 && RateOf(storeRate, defaultRate) >= 0.0
    requires feeRupees.Some? ==> feeRupees.value >= 0.0
    ensures Waterfall(CalculateSplit(total, storeRate, defaultRate, feeRupees), total,
                      Round(Share(total, RateOf(storeRate, defaultRate))), FeePaisa(feeRupees))
  {
    var rate := RateOf(storeRate, defaultRate);
    ShareIsNonNegative(total, rate);
    FeeIsNonNegative(feeRupees);
    SplitIsWaterfall(total, Round(Share(total, rate)), FeePaisa(feeRupees), rate);
  }

  lemma {:induction false} CODSplitIsFair(
      total: int, storeRate: Option<real>, defaultRate: real, surcharge: real, feeRupees: Option<real>)
    requires total >= 0 && RateOf(storeRate, defaultRate) + surcharge >= 0.0
    requires feeRupees.Some? ==> feeRupees.value >= 0.0
    ensures Waterfall(CalculateCODSplit(total, storeRate, defaultRate, surcharge, feeRupees), total,
                      Round(Share(total, RateOf(storeRate, defaultRate) + surcharge)), FeePaisa(feeRupees))
  {
    var rate := RateOf(storeRate, defaultRate) + surcharge;
    ShareIsNonNegative(total, rate);
    FeeIsNonNegative(feeRupees);
    SplitIsWaterfall(total, Round(Share(total, rate)), FeePaisa(feeRupees), RateOf(storeRate, defaultRate));
  }

  // Settling in cash never lowers the platform's part or raises the vendor's, and leaves the rider's.
  lemma {:induction false} CashFavoursThePlatform(
      total: int, storeRate: Option<real>, defaultRate: real, surcharge: real, feeRupees: Option<real>)
    requires total >= 0 && RateOf(storeRate, defaultRate) >= 0.0 && surcharge >= 0.0
    requires feeRupees.Some? ==> feeRupees.value >= 0.0
    ensures var online, cash := CalculateSplit(total, storeRate, defaultRate, feeRupees),
                                CalculateCODSplit(total, storeRate, defaultRate, surcharge, feeRupees);
      && cash.deliveryEscrow == online.deliveryEscrow
      && cash.adminRevenue >= online.adminRevenue
      && cash.vendorEscrow <= online.vendorEscrow
  {
    var rate := RateOf(storeRate, defaultRate);
    SplitIsFair(total, storeRate, defaultRate, feeRupees);
    CODSplitIsFair(total, storeRate, defaultRate, surcharge, feeRupees);
    ShareKeepsOrder(total, rate, rate + surcharge);
    RoundKeepsOrder(Share(total, rate), Share(total, rate + surcharge));
  }

  // A negative rate makes a negative part exactly when its share rounds below zero and the fee
  // leaves room for it.
  lemma {:induction false} NegativePartExactly(total: int, admin: int, fee: int, rate: real)
    requires total >= 0 && fee >= 0
    ensures var s := SplitOf(total, admin, fee, rate);
      s.adminRevenue < 0 || s.vendorEscrow < 0 || s.deliveryEscrow < 0 <==> admin < 0 && fee <= total - admin
  {
  }

  // The rounded number is the one integer within a half, and of two such the one further from zero.
  lemma {:induction false} RoundExactly(x: real, n: int)
    ensures n == Round(x) <==>
      if x < 0.0 then n as real - 0.5 < x <= n as real + 0.5 else n as real - 0.5 <= x < n as real + 0.5
  {
  }

  // The split of a rate in percent and a fee in rupees: the platform's share is within half a paisa of
  // that percentage of the total, the fee within half a paisa of the rupees, and none without a gig.
  ghost predicate SplitsBy(s: Split, total: int, percent: real, feeRupees: Option<real>) {
    exists admin: int, fee: int ::
      && -50.0 <= 100.0 * admin as real - total as real * percent <= 50.0
      && (feeRupees.None? ==> fee == 0)
      && (feeRupees.Some? ==> -0.5 <= fee as real - 100.0 * feeRupees.value <= 0.5)
      && Waterfall(s, total, admin, fee)
  }

  lemma {:induction false} WaterfallSplitsBy(s: Split, total: int, percent: real, feeRupees: Option<real>)
    requires Waterfall(s, total, Round(Share(total, percent)), FeePaisa(feeRupees))
    ensures SplitsBy(s, total, percent, feeRupees)
  {
    var admin, fee := Round(Share(total, percent)), FeePaisa(feeRupees);
    RoundIsNearest(total as real * percent / 100.0);
    assert 100.0 * (total as real * percent / 100.0) == total as real * percent;
    if feeRupees.Some? {
      RoundIsNearest(feeRupees.value * 100.0);
    }
    assert Waterfall(s, total, admin, fee);
  }

  // An online payment is split by the store's rate, or the default without a store; cash by that rate
  // and the surcharge together. Both report the rate without the surcharge.
  lemma {:induction false} SplitsInPercent(
      total: int, storeRate: Option<real>, defaultRate: real, surcharge: real, feeRupees: Option<real>)
    requires total >= 0 && (storeRate.Some? ==> storeRate.value >= 0.0) && defaultRate >= 0.0 && surcharge >= 0.0
    requires feeRupees.Some? ==> feeRupees.value >= 0.0
    ensures var rate := if storeRate.Some? then storeRate.value else defaultRate;
      var online, cash := CalculateSplit(total, storeRate, defaultRate, feeRupees),
                          CalculateCODSplit(total, storeRate, defaultRate, surcharge, feeRupees);
      && SplitsBy(online, total, rate, feeRupees) && SplitsBy(cash, total, rate + surcharge, feeRupees)
      && online.orderTotal == cash.orderTotal == total && online.commissionRate == cash.commissionRate == rate
  {
    OnlineInPercent(total, storeRate, defaultRate, feeRupees);
    CashInPercent(total, storeRate, defaultRate, surcharge, feeRupees);
  }

  lemma {:induction false} OnlineInPercent(total: int, storeRate: Option<real>, defaultRate: real, feeRupees: Option<real>)
    requires total >= 0 && (storeRate.Some? ==> storeRate.value >= 0.0) && defaultRate >= 0.0
    requires feeRupees.Some? ==> feeRupees.value >= 0.0
    ensures SplitsBy(CalculateSplit(total, storeRate, defaultRate, feeRupees), total,
                     if storeRate.Some? then storeRate.value else defaultRate, feeRupees)
  {
    SplitIsFair(total, storeRate, defaultRate, feeRupees);
    WaterfallSplitsBy(CalculateSplit(total, storeRate, defaultRate, feeRupees), total, RateOf(storeRate, defaultRate), feeRupees);
  }

  lemma {:induction false} CashInPercent(
      total: int, storeRate: Option<real>, defaultRate: real, surcharge: real, feeRupees: Option<real>)
    requires total >= 0 && (storeRate.Some? ==> storeRate.value >= 0.0) && defaultRate >= 0.0 && surcharge >= 0.0
    requires feeRupees.Some? ==> feeRupees.value >= 0.0
    ensures SplitsBy(CalculateCODSplit(total, storeRate, defaultRate, surcharge, feeRupees), total,
                     (if storeRate.Some? then storeRate.value else defaultRate) + surcharge, feeRupees)
  {
    CODSplitIsFair(total, storeRate, defaultRate, surcharge, feeRupees);
    WaterfallSplitsBy(CalculateCODSplit(total, storeRate, defaultRate, surcharge, feeRupees), total,
                      RateOf(storeRate, defaultRate) + surcharge, feeRupees);
  }
}
