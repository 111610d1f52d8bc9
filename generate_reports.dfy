/**
  The data behind the report files: the flagged-transaction extract, the
  per-customer risk summary and the text-report figures. Writing the CSV,
  text and PDF files is not modelled.
*/
module GenerateReports {
  import opened Wrappers
  import opened Seqs
  import opened Stats
  import opened Frames
  import opened Report

  /** One line of the customer summary: the account's highest score and its last band. */
  datatype Summary = Summary(finalRiskScore: real, riskBand: Band)

  /** The test that selects the rows of one account. */
  function OfAccount(account: string): ScoredRow -> bool {
    (r: ScoredRow) => r.nameOrig == account
  }

  /** The rows of one account, in frame order. */
  function AccountRows(rows: seq<ScoredRow>, account: string): (rs: seq<ScoredRow>)
    ensures forall r :: r in rs <==> r in rows && r.nameOrig == account
  {
    Filter(rows, OfAccount(account))
  }

  function RowScores(rs: seq<ScoredRow>): (ss: seq<real>)
    ensures |ss| == |rs|
    ensures forall i :: 0 <= i < |rs| ==> ss[i] == rs[i].finalRiskScore
  {
    seq(|rs|, i requires 0 <= i < |rs| => rs[i].finalRiskScore)
  }

  /** The summary line of an account that has rows: `max` of the scores, `last` of the bands. */
  function SummaryOf(rs: seq<ScoredRow>): Summary
    requires |rs| > 0
  {
    Summary(Max(RowScores(rs)), rs[|rs| - 1].riskBand)
  }

  /** `data.groupby("nameOrig").agg({"final_risk_score": "max", "risk_band": "last"})`. */
  function CustomerSummary(rows: seq<ScoredRow>): (summary: map<string, Summary>)
    ensures forall a :: a in summary <==> a in Accounts(rows)
  {
    var names := Accounts(rows);
    assert forall a :: a in names ==> |AccountRows(rows, a)| > 0 by {
      forall a | a in names ensures |AccountRows(rows, a)| > 0 {
        var i :| 0 <= i < |names| && names[i] == a;
        assert rows[i] in AccountRows(rows, a);
      }
    }
    map a | a in names :: SummaryOf(AccountRows(rows, a))
  }

  /** An account that has rows gets the summary line of exactly those rows. */
  lemma SummaryLine(rows: seq<ScoredRow>, account: string)
    requires account in Accounts(rows)
    ensures account in CustomerSummary(rows) && |AccountRows(rows, account)| > 0
    ensures CustomerSummary(rows)[account] == SummaryOf(AccountRows(rows, account))
  {
  }

  /** The summary score of an account is at least every score of its rows, and is the score of one of them. */
  lemma SummaryScoreIsMax(rows: seq<ScoredRow>, account: string)
    requires account in Accounts(rows)
    ensures account in CustomerSummary(rows)
    ensures forall i :: 0 <= i < |rows| && rows[i].nameOrig == account ==>
      rows[i].finalRiskScore <= CustomerSummary(rows)[account].finalRiskScore
    ensures exists i :: (0 <= i < |rows| && rows[i].nameOrig == account &&
      rows[i].finalRiskScore == CustomerSummary(rows)[account].finalRiskScore)
  {
    SummaryLine(rows, account);
    MaxOfAccount(rows, account);
  }

  lemma MaxOfAccount(rows: seq<ScoredRow>, account: string)
    requires |AccountRows(rows, account)| > 0
    ensures forall i :: 0 <= i < |rows| && rows[i].nameOrig == account ==>
      rows[i].finalRiskScore <= SummaryOf(AccountRows(rows, account)).finalRiskScore
    ensures exists i :: (0 <= i < |rows| && rows[i].nameOrig == account &&
      rows[i].finalRiskScore == SummaryOf(AccountRows(rows, account)).finalRiskScore)
  {
    var rs := AccountRows(rows, account);
    var m := Max(RowScores(rs));
    forall i | 0 <= i < |rows| && rows[i].nameOrig == account
      ensures rows[i].finalRiskScore <= m
    {
      assert rows[i] in rs;
      var j :| 0 <= j < |rs| && rs[j] == rows[i];
      assert RowScores(rs)[j] in RowScores(rs);
    }
    var j :| 0 <= j < |RowScores(rs)| && RowScores(rs)[j] == m;
    assert rs[j] in rows;
    var i :| 0 <= i < |rows| && rows[i] == rs[j];
    assert rows[i].finalRiskScore == m;
  }

  /** `i` is the position of the account's last row. */
  predicate IsLastRow(rows: seq<ScoredRow>, account: string, i: nat) {
    && i < |rows| && rows[i].nameOrig == account
    && forall j :: i < j < |rows| ==> rows[j].nameOrig != account
  }

  /** The summary band of an account is the band of its last row in frame order. */
  lemma SummaryBandIsLast(rows: seq<ScoredRow>, account: string, i: nat)
    requires IsLastRow(rows, account, i)
    ensures account in CustomerSummary(rows)
    ensures CustomerSummary(rows)[account].riskBand == rows[i].riskBand
  {
    assert Accounts(rows)[i] == account;
    SummaryLine(rows, account);
    AccountRowsLast(rows, account, i);
  }

  lemma AccountRowsLast(rows: seq<ScoredRow>, account: string, i: nat)
    requires IsLastRow(rows, account, i)
    ensures |AccountRows(rows, account)| > 0
    ensures AccountRows(rows, account)[|AccountRows(rows, account)| - 1] == rows[i]
  {
    var p := OfAccount(account);
    assert p(rows[i]);
    assert forall j :: i < j < |rows| ==> !p(rows[j]);
    FilterLast(rows, p, i);
    var f := Filter(rows, p);
    assert AccountRows(rows, account) == f;
    assert f[|f| - 1] == rows[i];
  }

  /**
    The summary pairs the highest score with the band of the last row, so
    when the highest-scoring row comes earlier with another band, the
    summary band is not the band of the highest score.
  */
  lemma SummaryBandNotOfMaxScore(rows: seq<ScoredRow>, account: string, top: nat, last: nat)
    requires IsLastRow(rows, account, last)
    requires top < last && rows[top].nameOrig == account
    requires forall j :: 0 <= j < |rows| && rows[j].nameOrig == account ==> rows[j].finalRiskScore <= rows[top].finalRiskScore
    requires rows[top].riskBand != rows[last].riskBand
    ensures account in CustomerSummary(rows)
    ensures CustomerSummary(rows)[account] == Summary(rows[top].finalRiskScore, rows[last].riskBand)
    ensures CustomerSummary(rows)[account].riskBand != rows[top].riskBand
  {
    assert Accounts(rows)[top] == account;
    SummaryScoreIsMax(rows, account);
    SummaryBandIsLast(rows, account, last);
  }

  /** What `generate_reports` produces from a frame. */
  datatype Outputs = Outputs(flagged: seq<ScoredRow>, summary: map<string, Summary>, metrics: Metrics)

  /** `generate_reports`: nothing, and no exception, when there is no frame. */
  function GenerateReports(data: Option<seq<ScoredRow>>): (out: Option<Outputs>)
    ensures data.None? <==> out.None?
    ensures out.Some? ==> out.value.flagged == Flagged(data.value)
    ensures out.Some? ==> forall a :: a in out.value.summary <==> a in Accounts(data.value)
    ensures out.Some? ==> out.value.metrics.totalFlagged == |out.value.flagged|
    ensures out.Some? ==> out.value.summary == CustomerSummary(data.value)
    ensures out.Some? ==> out.value.metrics == ReportMetrics(data.value)
  {
    match data
    case None => None
    case Some(rows) => Some(Outputs(Flagged(rows), CustomerSummary(rows), ReportMetrics(rows)))
  }
}
