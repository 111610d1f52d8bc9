/**
  Risk scoring: each of the six numeric columns is normalised into a score in
  [0, 1] through the standard normal CDF of its z-value, the six scores of a
  row are averaged into `final_risk_score` (times 100), and the final score is
  banded.
*/
module RiskScore {
  import opened Wrappers
  import opened Seqs
  import opened Stats
  import opened Frames

  /** `score_band`: the four bands partition the real line at 40, 70 and 90. */
  function ScoreBand(risk: real): (b: Band)
    ensures b == LowRisk <==> risk < 40.0
    ensures b == MediumRisk <==> 40.0 <= risk < 70.0
    ensures b == HighRisk <==> 70.0 <= risk < 90.0
    ensures b == CriticalRisk <==> 90.0 <= risk
  {
    if risk < 40.0 then LowRisk
    else if 40.0 <= risk < 70.0 then MediumRisk
    else if 70.0 <= risk < 90.0 then HighRisk
    else CriticalRisk
  }

  /** A boundary value belongs to the band above it. */
  lemma ScoreBandBoundaries()
    ensures ScoreBand(39.99) == LowRisk && ScoreBand(40.0) == MediumRisk
    ensures ScoreBand(69.99) == MediumRisk && ScoreBand(70.0) == HighRisk
    ensures ScoreBand(89.99) == HighRisk && ScoreBand(90.0) == CriticalRisk
  {
  }

  /** A larger score never gets a lower band. */
  lemma ScoreBandMonotone(a: real, b: real)
    requires a <= b
    ensures ScoreBand(a).Rank() <= ScoreBand(b).Rank()
  {
  }

  /** `x < c` on a cell that may be NaN: false when the cell is NaN. */
  predicate Below(x: Option<real>, c: real) {
    x.Some? && x.value < c
  }

  /** `c <= x` on a cell that may be NaN: false when the cell is NaN. */
  predicate AtLeast(c: real, x: Option<real>) {
    x.Some? && c <= x.value
  }

  /**
    `score_band` applied to a cell of `final_risk_score`, with the same chain
    of comparisons: each is false on NaN, so an undefined score falls through
    to the last branch.
  */
  function BandOf(score: Option<real>): (b: Band)
    ensures score.None? ==> b == CriticalRisk
    ensures score.Some? ==> b == ScoreBand(score.value)
  {
    if Below(score, 40.0) then LowRisk
    else if AtLeast(40.0, score) && Below(score, 70.0) then MediumRisk
    else if AtLeast(70.0, score) && Below(score, 90.0) then HighRisk
    else CriticalRisk
  }

  function BandColumn(scores: seq<Option<real>>): (bands: seq<Band>)
    ensures |bands| == |scores|
    ensures forall i :: 0 <= i < |scores| ==> bands[i] == BandOf(scores[i])
  {
    seq(|scores|, i requires 0 <= i < |scores| => BandOf(scores[i]))
  }

  /**
    The `<col>_zscore` column of one numeric column: 0 everywhere when its std
    is 0, `phi((x - mean) / std)` otherwise. A column of fewer than two rows
    has a NaN std, which is not 0, so every cell is NaN.
  */
  function ScoreColumn(xs: seq<real>, phi: real -> real, root: real -> real): (col: seq<Option<real>>)
    ensures |col| == |xs|
  {
    var std := SampleStd(xs, root);
    if std == Some(0.0) then Fill(Some(0.0), |xs|)
    else if std.None? then Fill(None, |xs|)
    else
      var mean := Average(xs);
      seq(|xs|, i requires 0 <= i < |xs| => Some(phi((xs[i] - mean) / std.value)))
  }

  /** A constant column scores exactly 0 in every row. */
  lemma ScoreOfConstant(xs: seq<real>, phi: real -> real, root: real -> real)
    requires IsSqrt(root) && |xs| >= 2 && Constant(xs)
    ensures forall i :: 0 <= i < |xs| ==> ScoreColumn(xs, phi, root)[i] == Some(0.0)
  {
    StdZeroIffConstant(xs, root);
  }

  /** A column that is not constant scores `phi` of each row's z-value, over a positive std. */
  lemma ScoreOfVarying(xs: seq<real>, phi: real -> real, root: real -> real)
    requires IsSqrt(root) && |xs| >= 2 && !Constant(xs)
    ensures SampleStd(xs, root).Some? && SampleStd(xs, root).value > 0.0
    ensures forall i :: 0 <= i < |xs| ==>
      ScoreColumn(xs, phi, root)[i] == Some(phi((xs[i] - Average(xs)) / SampleStd(xs, root).value))
  {
    StdZeroIffConstant(xs, root);
  }

  /** A column of fewer than two rows has no defined score. */
  lemma ScoreOfShort(xs: seq<real>, phi: real -> real, root: real -> real)
    requires |xs| < 2
    ensures forall i :: 0 <= i < |xs| ==> ScoreColumn(xs, phi, root)[i].None?
  {
  }

  /** Every defined score lies in [0, 1]. */
  lemma ScoreBounded(xs: seq<real>, phi: real -> real, root: real -> real, i: nat)
    requires IsCdf(phi) && i < |xs| && ScoreColumn(xs, phi, root)[i].Some?
    ensures 0.0 <= ScoreColumn(xs, phi, root)[i].value <= 1.0
  {
  }

  /** Within one column, a larger value never gets a smaller score. */
  lemma ScoreMonotone(xs: seq<real>, phi: real -> real, root: real -> real, i: nat, j: nat)
    requires IsCdf(phi) && IsSqrt(root)
    requires i < |xs| && j < |xs| && xs[i] <= xs[j]
    ensures ScoreColumn(xs, phi, root)[i].Some? <==> ScoreColumn(xs, phi, root)[j].Some?
    ensures ScoreColumn(xs, phi, root)[i].Some? ==>
      ScoreColumn(xs, phi, root)[i].value <= ScoreColumn(xs, phi, root)[j].value
  {
    if |xs| < 2 {
      ScoreOfShort(xs, phi, root);
    } else if Constant(xs) {
      ScoreOfConstant(xs, phi, root);
    } else {
      ScoreMonotoneVarying(xs, phi, root, i, j);
    }
  }

  lemma ScoreMonotoneVarying(xs: seq<real>, phi: real -> real, root: real -> real, i: nat, j: nat)
    requires IsCdf(phi) && IsSqrt(root) && |xs| >= 2 && !Constant(xs)
    requires i < |xs| && j < |xs| && xs[i] <= xs[j]
    ensures ScoreColumn(xs, phi, root)[i].Some? && ScoreColumn(xs, phi, root)[j].Some?
    ensures ScoreColumn(xs, phi, root)[i].value <= ScoreColumn(xs, phi, root)[j].value
  {
    var col := ScoreColumn(xs, phi, root);
    var mean, std := Average(xs), SampleStd(xs, root);
    ScoreOfVaryingAt(xs, phi, root, i);
    ScoreOfVaryingAt(xs, phi, root, j);
    assert col[i] == Some(phi((xs[i] - mean) / std.value));
    assert col[j] == Some(phi((xs[j] - mean) / std.value));
    CdfOfOrdered(phi, xs[i], xs[j], mean, std.value);
  }

  lemma ScoreOfVaryingAt(xs: seq<real>, phi: real -> real, root: real -> real, i: nat)
    requires IsSqrt(root) && |xs| >= 2 && !Constant(xs) && i < |xs|
    ensures SampleStd(xs, root).Some? && SampleStd(xs, root).value > 0.0
    ensures ScoreColumn(xs, phi, root)[i] == Some(phi((xs[i] - Average(xs)) / SampleStd(xs, root).value))
  {
    ScoreOfVarying(xs, phi, root);
  }

  /** A CDF of z-values over a positive std keeps the order of the values. */
  lemma CdfOfOrdered(phi: real -> real, x: real, y: real, mean: real, std: real)
    requires IsCdf(phi) && std > 0.0 && x <= y
    ensures phi((x - mean) / std) <= phi((y - mean) / std)
  {
    DivideKeepsOrder(x - mean, y - mean, std);
  }

  /** The defined cells of a row, in column order (pandas `mean` skips NaN). */
  function Defined(cells: seq<Option<real>>): (vals: seq<real>)
    ensures |vals| <= |cells|
    ensures forall x :: x in vals <==> Some(x) in cells
  {
    if cells == [] then []
    else
      var rest := Defined(cells[1..]);
      assert forall c :: c in cells <==> c == cells[0] || c in cells[1..];
      if cells[0].Some? then [cells[0].value] + rest else rest
  }

  lemma {:induction false} DefinedOfAllSome(cells: seq<Option<real>>)
    requires forall i :: 0 <= i < |cells| ==> cells[i].Some?
    ensures Defined(cells) == seq(|cells|, i requires 0 <= i < |cells| => cells[i].value)
  {
    if cells != [] {
      DefinedOfAllSome(cells[1..]);
    }
  }

  /** `mean(axis=1) * 100` of one row: undefined when no cell of the row is. */
  function RowScore(cells: seq<Option<real>>): Option<real> {
    var vals := Defined(cells);
    if vals == [] then None else Some(Average(vals) * 100.0)
  }

  /** The cells of row `i` across the score columns. */
  function RowCells(cols: seq<seq<Option<real>>>, i: nat): (cells: seq<Option<real>>)
    requires forall j :: 0 <= j < |cols| ==> i < |cols[j]|
    ensures |cells| == |cols|
    ensures forall j :: 0 <= j < |cols| ==> cells[j] == cols[j][i]
  {
    seq(|cols|, j requires 0 <= j < |cols| => cols[j][i])
  }

  /** `data[z_score_cols].mean(axis=1) * 100`. */
  function FinalColumn(cols: seq<seq<Option<real>>>, n: nat): (final: seq<Option<real>>)
    requires forall j :: 0 <= j < |cols| ==> |cols[j]| == n
    ensures |final| == n
    ensures forall i :: 0 <= i < n ==> final[i] == RowScore(RowCells(cols, i))
  {
    seq(n, i requires 0 <= i < n => RowScore(RowCells(cols, i)))
  }

  /** The six score columns of the six numeric columns, in `numeric_cols` order. */
  function Scores(vals: seq<seq<real>>, phi: real -> real, root: real -> real): (cols: seq<seq<Option<real>>>)
    ensures |cols| == |vals|
    ensures forall j :: 0 <= j < |vals| ==> cols[j] == ScoreColumn(vals[j], phi, root)
  {
    seq(|vals|, j requires 0 <= j < |vals| => ScoreColumn(vals[j], phi, root))
  }

  /** A row mean of scores in [0, 1] lies in [0, 100]. */
  lemma RowScoreBounded(cells: seq<Option<real>>)
    requires forall i :: 0 <= i < |cells| && cells[i].Some? ==> 0.0 <= cells[i].value <= 1.0
    ensures RowScore(cells).Some? ==> 0.0 <= RowScore(cells).value <= 100.0
  {
    var vals := Defined(cells);
    if vals != [] {
      forall x | x in vals ensures 0.0 <= x <= 1.0 {
        assert Some(x) in cells;
      }
      AverageBetween(vals, 0.0, 1.0);
    }
  }

  /** Given a CDF, every defined `final_risk_score` lies in [0, 100]. */
  lemma FinalBounded(vals: seq<seq<real>>, n: nat, phi: real -> real, root: real -> real, i: nat)
    requires IsCdf(phi)
    requires forall j :: 0 <= j < |vals| ==> |vals[j]| == n
    requires i < n
    ensures FinalColumn(Scores(vals, phi, root), n)[i].Some? ==>
      0.0 <= FinalColumn(Scores(vals, phi, root), n)[i].value <= 100.0
  {
    var cols := Scores(vals, phi, root);
    var cells := RowCells(cols, i);
    forall j | 0 <= j < |cells| && cells[j].Some? ensures 0.0 <= cells[j].value <= 1.0 {
      ScoreBounded(vals[j], phi, root, i);
    }
    RowScoreBounded(cells);
  }

  /** A score cell is defined exactly when its column has two or more rows. */
  lemma ScoreDefinedIff(xs: seq<real>, phi: real -> real, root: real -> real, i: nat)
    requires i < |xs|
    ensures ScoreColumn(xs, phi, root)[i].Some? <==> |xs| >= 2
  {
  }

  lemma {:induction false} DefinedOfAllNone(cells: seq<Option<real>>)
    requires forall i :: 0 <= i < |cells| ==> cells[i].None?
    ensures Defined(cells) == []
  {
    if cells != [] {
      DefinedOfAllNone(cells[1..]);
    }
  }

  lemma RowScoreOfNone(cells: seq<Option<real>>)
    requires forall i :: 0 <= i < |cells| ==> cells[i].None?
    ensures RowScore(cells).None?
  {
    DefinedOfAllNone(cells);
  }

  lemma RowScoreOfSome(cells: seq<Option<real>>)
    requires |cells| > 0 && forall i :: 0 <= i < |cells| ==> cells[i].Some?
    ensures RowScore(cells) ==
      Some(Average(seq(|cells|, i requires 0 <= i < |cells| => cells[i].value)) * 100.0)
  {
    DefinedOfAllSome(cells);
  }

  /** The values of row `i` across columns where that row is defined. */
  function RowValues(cols: seq<seq<Option<real>>>, i: nat): (vals: seq<real>)
    requires forall j :: 0 <= j < |cols| ==> i < |cols[j]| && cols[j][i].Some?
    ensures |vals| == |cols|
    ensures forall j :: 0 <= j < |cols| ==> vals[j] == cols[j][i].value
  {
    seq(|cols|, j requires 0 <= j < |cols| => cols[j][i].value)
  }

  /** A row defined in every column scores 100 times the mean of its cells. */
  lemma FinalOfDefinedRow(cols: seq<seq<Option<real>>>, n: nat, i: nat)
    requires |cols| > 0 && i < n
    requires forall j :: 0 <= j < |cols| ==> |cols[j]| == n && cols[j][i].Some?
    ensures FinalColumn(cols, n)[i] == Some(Average(RowValues(cols, i)) * 100.0)
  {
    var cells := RowCells(cols, i);
    RowScoreOfSome(cells);
    assert seq(|cells|, j requires 0 <= j < |cells| => cells[j].value) == RowValues(cols, i);
  }

  /** A row undefined in every column has no score. */
  lemma FinalOfUndefinedRow(cols: seq<seq<Option<real>>>, n: nat, i: nat)
    requires i < n
    requires forall j :: 0 <= j < |cols| ==> |cols[j]| == n && cols[j][i].None?
    ensures FinalColumn(cols, n)[i].None?
  {
    RowScoreOfNone(RowCells(cols, i));
  }

  /**
    With the six numeric columns of `n` rows, `final_risk_score` is defined
    exactly when `n >= 2`, and then it is 100 times the mean of the row's six
    scores, taken in `numeric_cols` order.
  */
  lemma FinalIsMeanOfScores(vals: seq<seq<real>>, n: nat, phi: real -> real, root: real -> real, i: nat)
    requires |vals| == |NumericCols|
    requires forall j :: 0 <= j < |vals| ==> |vals[j]| == n
    requires i < n
    ensures FinalColumn(Scores(vals, phi, root), n)[i].Some? <==> n >= 2
    ensures n >= 2 ==>
      && (forall j :: 0 <= j < |vals| ==> Scores(vals, phi, root)[j][i].Some?)
      && FinalColumn(Scores(vals, phi, root), n)[i] == Some(Average(RowValues(Scores(vals, phi, root), i)) * 100.0)
  {
    var cols := Scores(vals, phi, root);
    CellsDefinedIff(vals, n, phi, root, i);
    if n >= 2 {
      FinalOfDefinedRow(cols, n, i);
    } else {
      FinalOfUndefinedRow(cols, n, i);
    }
  }

  lemma CellsDefinedIff(vals: seq<seq<real>>, n: nat, phi: real -> real, root: real -> real, i: nat)
    requires forall j :: 0 <= j < |vals| ==> |vals[j]| == n
    requires i < n
    ensures forall j :: 0 <= j < |vals| ==> (RowCells(Scores(vals, phi, root), i)[j].Some? <==> n >= 2)
  {
    var cols := Scores(vals, phi, root);
    forall j | 0 <= j < |vals| ensures RowCells(cols, i)[j].Some? <==> n >= 2 {
      ScoreDefinedIff(vals[j], phi, root, i);
    }
  }

  /** The numeric columns of frame `f`, each as `data[col]` when present. */
  function Inputs(f: Frame): (cols: seq<Option<seq<real>>>)
    reads f`txns, f`stats, f`dailyVelocityCount, f`errorBalanceOrig
    requires f.InputsValid()
    ensures |cols| == |NumericCols|
    ensures forall j :: 0 <= j < |NumericCols| ==> cols[j] == f.Column(NumericCols[j])
  {
    [ f.Column(CountTransaction), f.Column(AvgAmount), f.Column(TotalAmount),
      f.Column(MaxAmount), f.Column(DailyVelocityCount), f.Column(ErrorBalanceOrig) ]
  }

  /**
    `scores` holds the score column of each of the first `k` numeric columns,
    and the entries of the other numeric columns as `before` had them.
  */
  predicate ScoresWritten(scores: map<Feature, seq<Option<real>>>, before: map<Feature, seq<Option<real>>>,
                          cols: seq<Option<seq<real>>>, k: nat, phi: real -> real, root: real -> real)
    requires k <= |cols| == |NumericCols|
    requires forall j :: 0 <= j < k ==> cols[j].Some?
  {
    forall j :: 0 <= j < |NumericCols| ==>
      if j < k then
        NumericCols[j] in scores && scores[NumericCols[j]] == ScoreColumn(cols[j].value, phi, root)
      else
        (NumericCols[j] in scores <==> NumericCols[j] in before) &&
        (NumericCols[j] in before ==> scores[NumericCols[j]] == before[NumericCols[j]])
  }

  lemma ScoresWrittenStart(scores: map<Feature, seq<Option<real>>>, cols: seq<Option<seq<real>>>, phi: real -> real, root: real -> real)
    requires |cols| == |NumericCols|
    ensures ScoresWritten(scores, scores, cols, 0, phi, root)
  {
  }

  /** Writing the score column of numeric column `k` extends what is written by one column. */
  lemma ScoresWrittenStep(scores: map<Feature, seq<Option<real>>>, before: map<Feature, seq<Option<real>>>,
                          cols: seq<Option<seq<real>>>, k: nat, phi: real -> real, root: real -> real)
    requires k < |cols| == |NumericCols|
    requires forall j :: 0 <= j <= k ==> cols[j].Some?
    requires ScoresWritten(scores, before, cols, k, phi, root)
    ensures ScoresWritten(scores[NumericCols[k] := ScoreColumn(cols[k].value, phi, root)], before, cols, k + 1, phi, root)
  {
    var next := scores[NumericCols[k] := ScoreColumn(cols[k].value, phi, root)];
    forall j | 0 <= j < |NumericCols| && j != k ensures NumericCols[j] != NumericCols[k] {
    }
  }

  /** Once all six are written, the score columns in `numeric_cols` order are `Scores` of the inputs. */
  lemma ScoresWrittenAll(scores: map<Feature, seq<Option<real>>>, before: map<Feature, seq<Option<real>>>,
                         cols: seq<Option<seq<real>>>, phi: real -> real, root: real -> real)
    requires |cols| == |NumericCols|
    requires forall j :: 0 <= j < |cols| ==> cols[j].Some?
    requires ScoresWritten(scores, before, cols, |NumericCols|, phi, root)
    ensures forall j :: 0 <= j < |NumericCols| ==>
      NumericCols[j] in scores && scores[NumericCols[j]] == Scores(Values(cols), phi, root)[j]
  {
  }

  /** The values of present columns. */
  function Values(cols: seq<Option<seq<real>>>): (vals: seq<seq<real>>)
    requires forall j :: 0 <= j < |cols| ==> cols[j].Some?
    ensures |vals| == |cols|
    ensures forall j :: 0 <= j < |cols| ==> vals[j] == cols[j].value
  {
    seq(|cols|, j requires 0 <= j < |cols| => cols[j].value)
  }

  /** `data[z_col] = ...`: the score column of `xs` replaces the entry of `col`. */
  method WriteScoreColumn(data: Frame, col: Feature, xs: seq<real>, phi: real -> real, root: real -> real)
    requires data.Valid() && |xs| == |data.txns|
    modifies data`scores
    ensures data.Valid()
    ensures data.scores == old(data.scores)[col := ScoreColumn(xs, phi, root)]
  {
    data.scores := data.scores[col := ScoreColumn(xs, phi, root)];
  }

  /**
    The loop of `compute_scores` over `numeric_cols`: it writes one score
    column per numeric column, in order, and stops at the first numeric column
    the frame lacks (pandas raises a KeyError there), after the score columns
    before it were written. It returns the column it stopped at. No other
    column changes.
  */
  method ScoreNumericColumns(data: Frame, phi: real -> real, root: real -> real) returns (missing: Option<Feature>)
    requires data.Valid()
    modifies data`scores
    ensures data.Valid()
    ensures missing.Some? <==> data.FirstMissing() < |NumericCols|
    ensures missing.Some? ==> missing.value == NumericCols[data.FirstMissing()]
    ensures ScoresWritten(data.scores, old(data.scores), Inputs(data), data.FirstMissing(), phi, root)
  {
    ghost var inputs := Inputs(data);
    ScoresWrittenStart(data.scores, inputs, phi, root);
    for i := 0 to |NumericCols|
      invariant data.Valid()
      invariant i <= data.FirstMissing()
      invariant inputs == Inputs(data)
      invariant ScoresWritten(data.scores, old(data.scores), inputs, i, phi, root)
    {
      var col := NumericCols[i];
      var xs := data.Column(col);
      assert xs == inputs[i];
      if xs.None? {
        assert data.FirstMissing() == i;
        return Some(col);
      }
      ScoresWrittenStep(data.scores, old(data.scores), inputs, i, phi, root);
      WriteScoreColumn(data, col, xs.value, phi, root);
    }
    return None;
  }

  /**
    `compute_scores`. `None` raises. Otherwise the score columns are written
    as `ScoreNumericColumns` says; when all six numeric columns are present,
    `final_risk_score` (from the six score columns, in `numeric_cols` order)
    and `risk_band` are written and the same frame is returned. No input
    column changes.
  */
  method ComputeScores(data: Frame?, phi: real -> real, root: real -> real) returns (r: Result<Frame, FrameError>)
    requires data != null ==> data.Valid()
    modifies data
    ensures data == null ==> r == Failure(EmptyOrNone)
    ensures data != null ==>
      && data.Valid()
      && data.txns == old(data.txns) && data.day == old(data.day) && data.stats == old(data.stats)
      && data.zScore == old(data.zScore) && data.dailyVelocityCount == old(data.dailyVelocityCount)
      && data.errorBalanceOrig == old(data.errorBalanceOrig)
      && ScoresWritten(data.scores, old(data.scores), Inputs(data), data.FirstMissing(), phi, root)
    ensures data != null && data.FirstMissing() < |NumericCols| ==>
      && r == Failure(MissingColumn(NumericCols[data.FirstMissing()]))
      && data.finalRiskScore == old(data.finalRiskScore) && data.riskBand == old(data.riskBand)
    ensures data != null && data.FirstMissing() == |NumericCols| ==>
      && r == Success(data)
      && data.finalRiskScore == Some(FinalColumn(Scores(Values(Inputs(data)), phi, root), |data.txns|))
      && data.riskBand == Some(BandColumn(data.finalRiskScore.value))
  {
    if data == null {
      return Failure(EmptyOrNone);
    }
    var missing := ScoreNumericColumns(data, phi, root);
    if missing.Some? {
      return Failure(MissingColumn(missing.value));
    }
    FinishScores(data, old(data.scores), phi, root);
    return Success(data);
  }

  /**
    The last two assignments of `compute_scores`, once all six score columns
    are written: `final_risk_score` is the row mean of the score columns times
    100, and `risk_band` its band. The source's `z_score_cols` list is the
    score columns in `numeric_cols` order once all six are written, so it is
    `NumericCols` here.
  */
  method FinishScores(data: Frame, ghost before: map<Feature, seq<Option<real>>>, phi: real -> real, root: real -> real)
    requires data.Valid() && data.FirstMissing() == |NumericCols|
    requires ScoresWritten(data.scores, before, Inputs(data), |NumericCols|, phi, root)
    modifies data`finalRiskScore, data`riskBand
    ensures data.Valid()
    ensures data.finalRiskScore == Some(FinalColumn(Scores(Values(Inputs(data)), phi, root), |data.txns|))
    ensures data.riskBand == Some(BandColumn(data.finalRiskScore.value))
  {
    var scores := data.scores;
    ScoresWrittenAll(scores, before, Inputs(data), phi, root);
    var zs := seq(|NumericCols|, j requires 0 <= j < |NumericCols| => scores[NumericCols[j]]);
    assert zs == Scores(Values(Inputs(data)), phi, root);
    var final := FinalColumn(zs, |data.txns|);
    data.finalRiskScore := Some(final);
    data.riskBand := Some(BandColumn(final));
  }

  /**
    Scoring a scored frame again reproduces its scores and bands: the second
    run reads only columns the first one left unchanged.
  */
  method Rescore(data: Frame, phi: real -> real, root: real -> real)
    returns (firstFinal: Option<seq<Option<real>>>, secondFinal: Option<seq<Option<real>>>,
             firstBand: Option<seq<Band>>, secondBand: Option<seq<Band>>)
    requires data.Valid() && data.FirstMissing() == |NumericCols|
    modifies data
    ensures data.Valid() && data.FirstMissing() == |NumericCols|
    ensures firstFinal == secondFinal && firstBand == secondBand
    ensures firstFinal == Some(FinalColumn(Scores(Values(Inputs(data)), phi, root), |data.txns|))
  {
    var first := ComputeScores(data, phi, root);
    firstFinal, firstBand := data.finalRiskScore, data.riskBand;
    var second := ComputeScores(data, phi, root);
    secondFinal, secondBand := data.finalRiskScore, data.riskBand;
  }
}
