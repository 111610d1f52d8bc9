/**
  Feature building: the day bucket of each step, the per-account aggregates of
  `amount` joined back onto every row, the per-row z-score, the daily velocity
  count and the ledger residual `errorBalanceOrig`.
*/
module FeatureBuilder {
  import opened Wrappers
  import opened Seqs
  import opened Stats
  import opened Frames

  /** `ceil(step / 24)`: the day of a step counted in hours. */
  function Day(step: int): (d: int)
    ensures 24 * (d - 1) < step <= 24 * d
  {
    (step + 23) / 24
  }

  lemma DayExamples()
    ensures Day(0) == 0 && Day(1) == 1 && Day(24) == 1 && Day(25) == 2 && Day(48) == 2 && Day(49) == 3
  {
  }

  /** Steps in the same 24-hour window share a day, and later steps never get an earlier day. */
  lemma DayMonotone(s: int, t: int)
    requires s <= t
    ensures Day(s) <= Day(t)
  {
  }

  function DayColumn(txns: seq<Txn>): (days: seq<int>)
    ensures |days| == |txns|
    ensures forall i :: 0 <= i < |txns| ==> days[i] == Day(txns[i].step)
  {
    seq(|txns|, i requires 0 <= i < |txns| => Day(txns[i].step))
  }

  function Names(txns: seq<Txn>): (names: seq<string>)
    ensures |names| == |txns|
    ensures forall i :: 0 <= i < |txns| ==> names[i] == txns[i].nameOrig
  {
    seq(|txns|, i requires 0 <= i < |txns| => txns[i].nameOrig)
  }

  function Amounts(txns: seq<Txn>): (amounts: seq<real>)
    ensures |amounts| == |txns|
    ensures forall i :: 0 <= i < |txns| ==> amounts[i] == txns[i].amount
  {
    seq(|txns|, i requires 0 <= i < |txns| => txns[i].amount)
  }

  /** The amounts of account `name`, in frame order. */
  function AccountAmounts(txns: seq<Txn>, name: string): seq<real> {
    Where(Names(txns), Amounts(txns), name)
  }

  /** `agg(['count', 'sum', 'mean', 'max', 'std'])` over one account's amounts. */
  function Aggregate(amounts: seq<real>, root: real -> real): AccountStats
    requires |amounts| > 0
  {
    AccountStats(|amounts|, Sum(amounts), Average(amounts), Max(amounts), SampleStd(amounts, root))
  }

  /**
    `groupby("nameOrig")["amount"].agg(...)` joined back on `nameOrig`: the
    aggregate row of each transaction's account, one per transaction, in frame
    order.
  */
  function JoinStats(txns: seq<Txn>, root: real -> real): (col: seq<AccountStats>)
    ensures |col| == |txns|
    ensures forall i :: 0 <= i < |txns| ==>
      |AccountAmounts(txns, txns[i].nameOrig)| > 0 &&
      col[i] == Aggregate(AccountAmounts(txns, txns[i].nameOrig), root)
  {
    var groups := GroupBy(Names(txns), Amounts(txns));
    assert forall i :: 0 <= i < |txns| ==> txns[i].nameOrig in groups by {
      forall i | 0 <= i < |txns| ensures txns[i].nameOrig in groups {
        assert Names(txns)[i] == txns[i].nameOrig;
      }
    }
    seq(|txns|, i requires 0 <= i < |txns| => Aggregate(groups[txns[i].nameOrig], root))
  }

  /** Rows of the same account carry identical aggregate columns. */
  lemma SameAccountSameStats(txns: seq<Txn>, root: real -> real, i: nat, j: nat)
    requires i < |txns| && j < |txns| && txns[i].nameOrig == txns[j].nameOrig
    ensures JoinStats(txns, root)[i] == JoinStats(txns, root)[j]
  {
  }

  /**
    For each row: `count_transaction` is the number of rows of its account (at
    least one), `total_amount` their sum, `avg_amount` the total over the
    count, and `max_amount` is one of the amounts and at least the mean.
  */
  lemma AggregateFacts(txns: seq<Txn>, root: real -> real, i: nat)
    requires i < |txns|
    ensures var s := JoinStats(txns, root)[i];
      && s.countTransaction == multiset(Names(txns))[txns[i].nameOrig]
      && s.countTransaction >= 1
      && s.totalAmount == Sum(AccountAmounts(txns, txns[i].nameOrig))
      && s.avgAmount == s.totalAmount / (s.countTransaction as real)
      && s.maxAmount in AccountAmounts(txns, txns[i].nameOrig)
      && s.maxAmount >= s.avgAmount
  {
    var amounts := AccountAmounts(txns, txns[i].nameOrig);
    WhereCount(Names(txns), Amounts(txns), txns[i].nameOrig);
    AggregateOf(amounts, root);
  }

  lemma AggregateOf(amounts: seq<real>, root: real -> real)
    requires |amounts| > 0
    ensures Aggregate(amounts, root).countTransaction == |amounts|
    ensures Aggregate(amounts, root).totalAmount == Sum(amounts)
    ensures Aggregate(amounts, root).avgAmount ==
      Aggregate(amounts, root).totalAmount / (Aggregate(amounts, root).countTransaction as real)
    ensures Aggregate(amounts, root).maxAmount in amounts
    ensures Aggregate(amounts, root).maxAmount >= Aggregate(amounts, root).avgAmount
  {
    AverageAtMostMax(amounts);
  }

  /**
    `std_amount` (sample std, divisor n - 1) is NaN exactly for single-row
    accounts; otherwise it is non-negative and zero exactly when the account's
    amounts are all equal.
  */
  lemma StdFacts(txns: seq<Txn>, root: real -> real, i: nat)
    requires IsSqrt(root) && i < |txns|
    ensures var s := JoinStats(txns, root)[i];
      && (s.stdAmount.Some? <==> s.countTransaction >= 2)
      && (s.stdAmount.Some? ==> s.stdAmount.value >= 0.0)
      && (s.stdAmount.Some? ==>
            (s.stdAmount.value == 0.0 <==> Constant(AccountAmounts(txns, txns[i].nameOrig))))
  {
    var amounts := AccountAmounts(txns, txns[i].nameOrig);
    if |amounts| >= 2 {
      StdZeroIffConstant(amounts, root);
    }
  }

  /** `(amount - avg_amount) / std_amount.replace(0, NaN)`: undefined for a zero or NaN std. */
  function ZScore(amount: real, s: AccountStats): (z: Option<real>)
    ensures z.Some? <==> s.stdAmount.Some? && s.stdAmount.value != 0.0
    ensures z.Some? ==> z.value * s.stdAmount.value == amount - s.avgAmount
  {
    if s.stdAmount.None? || s.stdAmount.value == 0.0 then None
    else Some((amount - s.avgAmount) / s.stdAmount.value)
  }

  function ZScoreColumn(txns: seq<Txn>, stats: seq<AccountStats>): (z: seq<Option<real>>)
    requires |stats| == |txns|
    ensures |z| == |txns|
  {
    seq(|txns|, i requires 0 <= i < |txns| => ZScore(txns[i].amount, stats[i]))
  }

  /** A row's z-score is defined exactly when its account has two or more amounts that are not all equal. */
  lemma ZScoreDefinedIff(txns: seq<Txn>, root: real -> real, i: nat)
    requires IsSqrt(root) && i < |txns|
    ensures ZScoreColumn(txns, JoinStats(txns, root))[i].Some? <==>
      JoinStats(txns, root)[i].countTransaction >= 2 && !Constant(AccountAmounts(txns, txns[i].nameOrig))
  {
    StdFacts(txns, root, i);
  }

  /** The `(nameOrig, day)` key of each row. */
  function NameDays(txns: seq<Txn>, days: seq<int>): (keys: seq<(string, int)>)
    requires |days| == |txns|
    ensures |keys| == |txns|
    ensures forall i :: 0 <= i < |txns| ==> keys[i] == (txns[i].nameOrig, days[i])
  {
    seq(|txns|, i requires 0 <= i < |txns| => (txns[i].nameOrig, days[i]))
  }

  /** `groupby(['nameOrig', 'day'])['amount'].transform('count')`. */
  function VelocityColumn(txns: seq<Txn>, days: seq<int>): (v: seq<nat>)
    requires |days| == |txns|
    ensures |v| == |txns|
  {
    var keys := NameDays(txns, days);
    var groups := GroupBy(keys, Amounts(txns));
    assert forall i :: 0 <= i < |txns| ==> keys[i] in groups by {
      forall i | 0 <= i < |txns| ensures keys[i] in groups {
        assert keys[i] in keys;
      }
    }
    seq(|txns|, i requires 0 <= i < |txns| => |groups[keys[i]]|)
  }

  /**
    `daily_velocity_count` is the number of rows with the same account and day,
    so it lies between 1 and the account's `count_transaction`.
  */
  lemma VelocityFacts(txns: seq<Txn>, root: real -> real, i: nat)
    requires i < |txns|
    ensures var keys := NameDays(txns, DayColumn(txns));
      var v := VelocityColumn(txns, DayColumn(txns))[i];
      && v == multiset(keys)[keys[i]]
      && 1 <= v <= JoinStats(txns, root)[i].countTransaction
  {
    var days := DayColumn(txns);
    var keys := NameDays(txns, days);
    WhereCount(keys, Amounts(txns), keys[i]);
    CountRefines(keys, Names(txns), keys[i], txns[i].nameOrig);
    AggregateFacts(txns, root, i);
  }

  /** The ledger residual `newbalanceOrig + amount - oldbalanceOrg`: zero when the debit is booked exactly. */
  function ErrorBalance(t: Txn): (e: real)
    ensures e == 0.0 <==> t.newbalanceOrig == t.oldbalanceOrg - t.amount
  {
    t.newbalanceOrig + t.amount - t.oldbalanceOrg
  }

  function ErrorBalanceColumn(txns: seq<Txn>): (col: seq<real>)
    ensures |col| == |txns|
    ensures forall i :: 0 <= i < |txns| ==> col[i] == ErrorBalance(txns[i])
  {
    seq(|txns|, i requires 0 <= i < |txns| => ErrorBalance(txns[i]))
  }

  lemma ErrorBalanceExamples()
    ensures ErrorBalance(Txn(1, 200.0, "C1", 1000.0, 800.0)) == 0.0
    ensures ErrorBalance(Txn(1, 200.0, "C1", 1000.0, 1000.0)) == 200.0
  {
  }

  /** The joined frame has every column of `data` plus the four feature columns. */
  ghost predicate Joined(joined: Frame, data: Frame, root: real -> real)
    reads joined, data
    requires data.Valid() && data.day == Some(DayColumn(data.txns))
  {
    && joined.Valid()
    && joined.txns == data.txns && joined.day == data.day
    && joined.stats == Some(JoinStats(data.txns, root))
    && joined.zScore == Some(ZScoreColumn(data.txns, JoinStats(data.txns, root)))
    && joined.dailyVelocityCount == Some(VelocityColumn(data.txns, DayColumn(data.txns)))
    && joined.errorBalanceOrig == Some(ErrorBalanceColumn(data.txns))
    && joined.scores == data.scores
    && joined.finalRiskScore == data.finalRiskScore && joined.riskBand == data.riskBand
  }

  /** `data.join(agg_stats, on="nameOrig")` followed by the three column assignments on the joined frame. */
  method JoinFeatures(data: Frame, root: real -> real) returns (joined: Frame)
    requires data.Valid() && data.day == Some(DayColumn(data.txns))
    ensures fresh(joined) && Joined(joined, data, root)
  {
    var txns := data.txns;
    var stats := JoinStats(txns, root);
    joined := new Frame.Join(data, stats, ZScoreColumn(txns, stats), VelocityColumn(txns, data.day.value), ErrorBalanceColumn(txns));
  }

  /**
    `built_feature`. A missing or empty frame raises before anything changes.
    Otherwise `day` is written into the caller's frame; the join then either
    fails because the frame already carries the aggregate columns, or yields a
    new frame with the aggregates, z-score, velocity and residual columns and
    every other column of the caller's frame.
  */
  method BuiltFeature(data: Frame?, root: real -> real) returns (r: Result<Frame, FrameError>)
    requires data != null ==> data.Valid()
    modifies data
    ensures data == null ==> r == Failure(EmptyOrNone)
    ensures data != null && |old(data.txns)| == 0 ==> r == Failure(EmptyOrNone) && unchanged(data)
    ensures data != null && |old(data.txns)| > 0 ==>
      && data.Valid()
      && data.day == Some(DayColumn(data.txns))
      && data.txns == old(data.txns) && data.stats == old(data.stats) && data.zScore == old(data.zScore)
      && data.dailyVelocityCount == old(data.dailyVelocityCount)
      && data.errorBalanceOrig == old(data.errorBalanceOrig) && data.scores == old(data.scores)
      && data.finalRiskScore == old(data.finalRiskScore) && data.riskBand == old(data.riskBand)
    ensures data != null && |old(data.txns)| > 0 && old(data.stats).Some? ==> r == Failure(OverlappingColumns)
    ensures data != null && |old(data.txns)| > 0 && old(data.stats).None? ==>
      r.Success? && fresh(r.value) && Joined(r.value, data, root)
  {
    if data == null || |data.txns| == 0 {
      return Failure(EmptyOrNone);
    }
    data.day := Some(DayColumn(data.txns));
    if data.stats.Some? {
      return Failure(OverlappingColumns);
    }
    var joined := JoinFeatures(data, root);
    return Success(joined);
  }
}
