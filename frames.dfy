/**
  The transaction data frame that flows through the pipeline: the raw columns
  of each transaction, and the columns that feature building and scoring add
  to it. A column group the frame does not have yet is `None`; assigning a
  column replaces the field.
*/
module Frames {
  import opened Wrappers

  /** The raw columns of one transaction that the pipeline reads. */
  datatype Txn = Txn(step: int, amount: real, nameOrig: string, oldbalanceOrg: real, newbalanceOrig: real)

  /**
    The per-account aggregates of `amount` that feature building joins onto
    every row: `count_transaction`, `total_amount`, `avg_amount`,
    `max_amount` and `std_amount` (`None` where pandas gives NaN).
  */
  datatype AccountStats = AccountStats(
    countTransaction: nat,
    totalAmount: real,
    avgAmount: real,
    maxAmount: real,
    stdAmount: Option<real>)

  /** The six numeric columns that scoring normalises. */
  datatype Feature = CountTransaction | AvgAmount | TotalAmount | MaxAmount | DailyVelocityCount | ErrorBalanceOrig

  /** `numeric_cols`, in the order the scorer walks them. */
  const NumericCols: seq<Feature> :=
    [CountTransaction, AvgAmount, TotalAmount, MaxAmount, DailyVelocityCount, ErrorBalanceOrig]

  /** The four risk bands, ordered from least to most risky by `Rank`. */
  datatype Band = LowRisk | MediumRisk | HighRisk | CriticalRisk
  {
    function Rank(): nat {
      match this
      case LowRisk => 0
      case MediumRisk => 1
      case HighRisk => 2
      case CriticalRisk => 3
    }
  }

  /** The exceptions the pipeline raises. */
  datatype FrameError =
    | EmptyOrNone                    // ValueError("Dataframe is empty or None!")
    | MissingColumn(column: Feature) // KeyError on a numeric column the frame lacks
    | OverlappingColumns             // the join would duplicate the aggregate columns

  /** One of the four numeric aggregate columns, as reals. */
  function StatsColumn(stats: seq<AccountStats>, c: Feature): (col: seq<real>)
    requires c != DailyVelocityCount && c != ErrorBalanceOrig
    ensures |col| == |stats|
  {
    seq(|stats|, i requires 0 <= i < |stats| =>
      match c
      case CountTransaction => stats[i].countTransaction as real
      case AvgAmount => stats[i].avgAmount
      case TotalAmount => stats[i].totalAmount
      case MaxAmount => stats[i].maxAmount)
  }

  class Frame {
    var txns: seq<Txn>
    var day: Option<seq<int>>
    var stats: Option<seq<AccountStats>>
    var zScore: Option<seq<Option<real>>>
    var dailyVelocityCount: Option<seq<nat>>
    var errorBalanceOrig: Option<seq<real>>
    /** The `<col>_zscore` columns written so far. */
    var scores: map<Feature, seq<Option<real>>>
    var finalRiskScore: Option<seq<Option<real>>>
    var riskBand: Option<seq<Band>>

    /** The numeric columns that scoring reads have one cell per row. */
    ghost predicate InputsValid()
      reads this`txns, this`stats, this`dailyVelocityCount, this`errorBalanceOrig
    {
      var n := |txns|;
      && (stats.Some? ==> |stats.value| == n)
      && (dailyVelocityCount.Some? ==> |dailyVelocityCount.value| == n)
      && (errorBalanceOrig.Some? ==> |errorBalanceOrig.value| == n)
    }

    /** Every column present has one cell per row. */
    ghost predicate Valid()
      reads this
    {
      var n := |txns|;
      && InputsValid()
      && (day.Some? ==> |day.value| == n)
      && (zScore.Some? ==> |zScore.value| == n)
      && (forall f :: f in scores ==> |scores[f]| == n)
      && (finalRiskScore.Some? ==> |finalRiskScore.value| == n)
      && (riskBand.Some? ==> |riskBand.value| == n)
    }

    /** A frame of raw transactions, as loading gives it. */
    constructor (txns: seq<Txn>)
      ensures Valid() && this.txns == txns
      ensures day.None? && stats.None? && zScore.None?
      ensures dailyVelocityCount.None? && errorBalanceOrig.None?
      ensures scores == map[] && finalRiskScore.None? && riskBand.None?
    {
      this.txns := txns;
      day := None;
      stats := None;
      zScore := None;
      dailyVelocityCount := None;
      errorBalanceOrig := None;
      scores := map[];
      finalRiskScore := None;
      riskBand := None;
    }

    /**
      `other.join(agg, on="nameOrig")` followed by the assignment of the
      z-score, velocity and residual columns: a new frame with the columns of
      `other` and the four feature column groups.
    */
    constructor Join(other: Frame, agg: seq<AccountStats>, z: seq<Option<real>>, velocity: seq<nat>, error: seq<real>)
      requires other.Valid()
      requires |agg| == |other.txns| && |z| == |other.txns| && |velocity| == |other.txns| && |error| == |other.txns|
      ensures Valid()
      ensures txns == other.txns && day == other.day && stats == Some(agg)
      ensures zScore == Some(z) && dailyVelocityCount == Some(velocity) && errorBalanceOrig == Some(error)
      ensures scores == other.scores && finalRiskScore == other.finalRiskScore && riskBand == other.riskBand
    {
      txns := other.txns;
      day := other.day;
      stats := Some(agg);
      zScore := Some(z);
      dailyVelocityCount := Some(velocity);
      errorBalanceOrig := Some(error);
      scores := other.scores;
      finalRiskScore := other.finalRiskScore;
      riskBand := other.riskBand;
    }

    /** `data[c]` for a numeric column, as reals, when the frame has it. */
    function Column(c: Feature): (col: Option<seq<real>>)
      reads this`txns, this`stats, this`dailyVelocityCount, this`errorBalanceOrig
      requires InputsValid()
      ensures col.Some? ==> |col.value| == |txns|
      ensures col.Some? <==> match c
        case DailyVelocityCount => dailyVelocityCount.Some?
        case ErrorBalanceOrig => errorBalanceOrig.Some?
        case _ => stats.Some?
    {
      var n := |txns|;
      match c
      case DailyVelocityCount =>
        if dailyVelocityCount.None? then None
        else
          var v := dailyVelocityCount.value;
          Some(seq(n, i requires 0 <= i < n => v[i] as real))
      case ErrorBalanceOrig =>
        errorBalanceOrig
      case CountTransaction | AvgAmount | TotalAmount | MaxAmount =>
        if stats.None? then None else Some(StatsColumn(stats.value, c))
    }

    /** The position in `NumericCols` of the first column the frame lacks (6 when it has them all). */
    function FirstMissing(): (k: nat)
      reads this`txns, this`stats, this`dailyVelocityCount, this`errorBalanceOrig
      requires InputsValid()
      ensures k <= |NumericCols|
      ensures forall j :: 0 <= j < k ==> Column(NumericCols[j]).Some?
      ensures k < |NumericCols| ==> Column(NumericCols[k]).None?
    {
      if stats.None? then 0
      else if dailyVelocityCount.None? then 4
      else if errorBalanceOrig.None? then 5
      else 6
    }
  }
}
