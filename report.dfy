/**
  The figures of the text report over a scored frame: the flagged rows, the
  flagged percentage and the risk status it implies, the risk-band
  distribution with its histogram bars, the five accounts with the most
  flagged rows and the five highest-scoring rows. Writing the report file is
  not modelled.
*/
module Report {
  import opened Seqs
  import opened Stats
  import opened Frames

  /** The columns of a scored row that the reports read. */
  datatype ScoredRow = ScoredRow(nameOrig: string, finalRiskScore: real, riskBand: Band, isSuspicious: bool)

  predicate IsSuspicious(row: ScoredRow) {
    row.isSuspicious
  }

  function Score(row: ScoredRow): real {
    row.finalRiskScore
  }

  function Accounts(rows: seq<ScoredRow>): (ns: seq<string>)
    ensures |ns| == |rows|
    ensures forall i :: 0 <= i < |rows| ==> ns[i] == rows[i].nameOrig
  {
    seq(|rows|, i requires 0 <= i < |rows| => rows[i].nameOrig)
  }

  function Bands(rows: seq<ScoredRow>): (bs: seq<Band>)
    ensures |bs| == |rows|
    ensures forall i :: 0 <= i < |rows| ==> bs[i] == rows[i].riskBand
  {
    seq(|rows|, i requires 0 <= i < |rows| => rows[i].riskBand)
  }

  /** `data[data["is_suspicious"] == True]`: every suspicious row, as often as it occurs, and no other. */
  function Flagged(rows: seq<ScoredRow>): (f: seq<ScoredRow>)
    ensures |f| <= |rows|
    ensures forall r :: r in f <==> r in rows && r.isSuspicious
    ensures forall r :: multiset(f)[r] == if r.isSuspicious then multiset(rows)[r] else 0
  {
    var f := Filter(rows, IsSuspicious);
    assert forall r :: multiset(f)[r] == if r.isSuspicious then multiset(rows)[r] else 0 by {
      forall r ensures multiset(f)[r] == if r.isSuspicious then multiset(rows)[r] else 0 {
        FilterCount(rows, IsSuspicious, r);
      }
    }
    f
  }

  /** The flagged rows keep the frame's order. */
  lemma FlaggedInOrder(rows: seq<ScoredRow>)
    ensures IsSubsequence(Flagged(rows), rows)
  {
    FilterIsSubsequence(rows, IsSuspicious);
  }

  /** `part / whole * 100`, and 0 for an empty frame. */
  function Percentage(part: nat, whole: nat): (p: real)
    ensures whole == 0 ==> p == 0.0
    ensures 0.0 <= p
    ensures 0 < part && 0 < whole ==> 0.0 < p
    ensures part <= whole ==> p <= 100.0
  {
    if whole == 0 then 0.0
    else
      var q := (part as real) / (whole as real);
      FractionBounds(part, whole);
      q * 100.0
  }

  /** For a non-empty frame the percentage is part / whole × 100, stated without division. */
  lemma PercentageValue(part: nat, whole: nat)
    requires whole > 0
    ensures Percentage(part, whole) * (whole as real) == (part as real) * 100.0
  {
    var q := (part as real) / (whole as real);
    assert q * (whole as real) == part as real;
  }

  lemma FractionBounds(part: nat, whole: nat)
    requires whole > 0
    ensures 0.0 <= (part as real) / (whole as real)
    ensures 0 < part ==> 0.0 < (part as real) / (whole as real)
    ensures part <= whole ==> (part as real) / (whole as real) <= 1.0
  {
    if part > 0 {
      DividePositive(part as real, whole as real);
    }
    if part <= whole {
      DivideKeepsOrder(part as real, whole as real, whole as real);
    }
  }

  /** The risk status line of the executive summary. */
  datatype Status = Low | Medium | High
  {
    function Rank(): nat {
      match this
      case Low => 0
      case Medium => 1
      case High => 2
    }
  }

  /** HIGH above 5 percent flagged, MEDIUM above 2 percent, LOW otherwise. */
  function RiskStatus(flaggedPercentage: real): (s: Status)
    ensures s == High <==> flaggedPercentage > 5.0
    ensures s == Medium <==> 2.0 < flaggedPercentage <= 5.0
    ensures s == Low <==> flaggedPercentage <= 2.0
  {
    if flaggedPercentage > 5.0 then High
    else if flaggedPercentage > 2.0 then Medium
    else Low
  }

  /** The comparisons are strict: exactly 5 percent is MEDIUM and exactly 2 percent is LOW. */
  lemma RiskStatusBoundaries()
    ensures RiskStatus(5.0) == Medium && RiskStatus(2.0) == Low
  {
  }

  /** A larger flagged percentage never gives a lower status. */
  lemma RiskStatusMonotone(p: real, q: real)
    requires p <= q
    ensures RiskStatus(p).Rank() <= RiskStatus(q).Rank()
  {
  }

  function CountKey<T>(entry: (T, nat)): real {
    entry.1 as real
  }

  /**
    pandas `value_counts()`: each distinct value once, with the number of its
    occurrences, most frequent first.
  */
  function ValueCounts<T(==,!new)>(xs: seq<T>): (vc: seq<(T, nat)>)
    ensures NonIncreasing(vc, CountKey)
    ensures forall x :: x in Keys(vc) <==> x in xs
    ensures NoDuplicates(Keys(vc))
    ensures forall i :: 0 <= i < |vc| ==> vc[i].1 == multiset(xs)[vc[i].0] >= 1
  {
    var keys := DropDuplicates(xs);
    var tally := seq(|keys|, i requires 0 <= i < |keys| => (keys[i], multiset(xs)[keys[i]]));
    var vc := SortDesc(tally, CountKey);
    TallySorted(xs, keys, tally, vc);
    vc
  }

  lemma TallySorted<T(!new)>(xs: seq<T>, keys: seq<T>, tally: seq<(T, nat)>, vc: seq<(T, nat)>)
    requires keys == DropDuplicates(xs)
    requires |tally| == |keys|
    requires forall i :: 0 <= i < |keys| ==> tally[i] == (keys[i], multiset(xs)[keys[i]])
    requires multiset(vc) == multiset(tally)
    ensures forall x :: x in Keys(vc) <==> x in xs
    ensures NoDuplicates(Keys(vc))
    ensures forall i :: 0 <= i < |vc| ==> vc[i].1 == multiset(xs)[vc[i].0] >= 1
  {
    assert forall e :: e in vc <==> e in tally by {
      forall e ensures e in vc <==> e in tally {
        assert e in vc <==> e in multiset(vc);
        assert e in tally <==> e in multiset(tally);
      }
    }
    forall i | 0 <= i < |vc| ensures vc[i].0 in xs && vc[i].1 == multiset(xs)[vc[i].0] >= 1 {
      assert vc[i] in tally;
      var j :| 0 <= j < |tally| && tally[j] == vc[i];
      assert keys[j] in keys;
    }
    forall x ensures x in Keys(vc) <==> x in xs {
      if x in xs {
        assert x in keys;
        var j :| 0 <= j < |keys| && keys[j] == x;
        assert tally[j] in vc;
        var i :| 0 <= i < |vc| && vc[i] == tally[j];
        assert Keys(vc)[i] == x;
      }
      if x in Keys(vc) {
        var i :| 0 <= i < |vc| && Keys(vc)[i] == x;
        assert vc[i].0 == x;
      }
    }
    assert NoDuplicates(tally) by {
      forall i, j | 0 <= i < j < |tally| ensures tally[i] != tally[j] {
        assert keys[i] != keys[j];
      }
    }
    PermutationNoDuplicates(tally, vc);
    forall i, j | 0 <= i < j < |vc| ensures Keys(vc)[i] != Keys(vc)[j] {
      assert vc[i] != vc[j];
    }
  }

  /** The count `value_counts` lists for `k`, 0 when `k` is not listed. */
  function CountOf<T(==)>(vc: seq<(T, nat)>, k: T): nat {
    if vc == [] then 0
    else if vc[0].0 == k then vc[0].1
    else CountOf(vc[1..], k)
  }

  lemma {:induction false} CountOfAt<T(!new)>(vc: seq<(T, nat)>, k: T, i: nat)
    requires NoDuplicates(Keys(vc)) && i < |vc| && vc[i].0 == k
    ensures CountOf(vc, k) == vc[i].1
  {
    if i > 0 {
      assert Keys(vc)[0] != Keys(vc)[i];
      assert Keys(vc[1..]) == Keys(vc)[1..];
      CountOfAt(vc[1..], k, i - 1);
    }
  }

  lemma {:induction false} CountOfAbsent<T(!new)>(vc: seq<(T, nat)>, k: T)
    requires k !in Keys(vc)
    ensures CountOf(vc, k) == 0
  {
    if vc != [] {
      assert Keys(vc)[0] == vc[0].0;
      assert Keys(vc[1..]) == Keys(vc)[1..];
      CountOfAbsent(vc[1..], k);
    }
  }

  /** Looking a value up in `value_counts` gives the number of its occurrences. */
  lemma ValueCountsLookup<T(!new)>(xs: seq<T>, k: T)
    ensures CountOf(ValueCounts(xs), k) == multiset(xs)[k]
  {
    var vc := ValueCounts(xs);
    if k in xs {
      assert k in Keys(vc);
      var i :| 0 <= i < |vc| && Keys(vc)[i] == k;
      CountOfAt(vc, k, i);
    } else {
      CountOfAbsent(vc, k);
    }
  }

  function SumCounts<T>(vc: seq<(T, nat)>): nat {
    if vc == [] then 0 else vc[0].1 + SumCounts(vc[1..])
  }

  /** `data['risk_band'].value_counts()`. */
  function RiskDistribution(rows: seq<ScoredRow>): (dist: seq<(Band, nat)>)
    ensures forall b :: b in Keys(dist) <==> exists i :: 0 <= i < |rows| && rows[i].riskBand == b
    ensures forall i :: 0 <= i < |dist| ==> dist[i].1 == multiset(Bands(rows))[dist[i].0] >= 1
    ensures NoDuplicates(Keys(dist))
    ensures NonIncreasing(dist, CountKey)
  {
    var bs := Bands(rows);
    var dist := ValueCounts(bs);
    assert forall b :: b in bs <==> exists i :: 0 <= i < |rows| && rows[i].riskBand == b by {
      forall b ensures b in bs <==> exists i :: 0 <= i < |rows| && rows[i].riskBand == b {
        if b in bs {
          var i :| 0 <= i < |bs| && bs[i] == b;
          assert rows[i].riskBand == b;
        }
      }
    }
    dist
  }

  lemma {:induction false} BandMultisetTotal(bs: seq<Band>)
    ensures multiset(bs)[LowRisk] + multiset(bs)[MediumRisk] + multiset(bs)[HighRisk] + multiset(bs)[CriticalRisk] == |bs|
  {
    if bs != [] {
      assert bs == [bs[0]] + bs[1..];
      assert multiset(bs) == multiset{bs[0]} + multiset(bs[1..]);
      BandMultisetTotal(bs[1..]);
      match bs[0]
      case LowRisk =>
      case MediumRisk =>
      case HighRisk =>
      case CriticalRisk =>
    }
  }

  lemma {:induction false} SumCountsByBand(vc: seq<(Band, nat)>)
    requires NoDuplicates(Keys(vc))
    ensures SumCounts(vc) == CountOf(vc, LowRisk) + CountOf(vc, MediumRisk) + CountOf(vc, HighRisk) + CountOf(vc, CriticalRisk)
  {
    if vc != [] {
      var rest := vc[1..];
      assert Keys(rest) == Keys(vc)[1..];
      assert vc[0].0 !in Keys(rest) by {
        forall j | 0 <= j < |rest| ensures Keys(rest)[j] != vc[0].0 {
          assert Keys(vc)[0] != Keys(vc)[j + 1];
        }
      }
      CountOfAbsent(rest, vc[0].0);
      SumCountsByBand(rest);
      match vc[0].0
      case LowRisk =>
      case MediumRisk =>
      case HighRisk =>
      case CriticalRisk =>
    }
  }

  /** The band counts add up to the number of transactions. */
  lemma DistributionCoversRows(rows: seq<ScoredRow>)
    ensures SumCounts(RiskDistribution(rows)) == |rows|
  {
    var bs := Bands(rows);
    var dist := RiskDistribution(rows);
    SumCountsByBand(dist);
    ValueCountsLookup(bs, LowRisk);
    ValueCountsLookup(bs, MediumRisk);
    ValueCountsLookup(bs, HighRisk);
    ValueCountsLookup(bs, CriticalRisk);
    BandMultisetTotal(bs);
  }

  /** `int(percent // 2)`: one `#` per two whole percent. */
  function BarLength(percent: real): (bar: int)
    ensures (2 * bar) as real <= percent < (2 * bar + 2) as real
    ensures 0.0 <= percent ==> 0 <= bar
    ensures percent <= 100.0 ==> bar <= 50
  {
    (percent / 2.0).Floor
  }

  /** One histogram line: band, bar length, count and percentage of all transactions. */
  datatype BarLine = BarLine(band: Band, bar: int, count: nat, percent: real)

  /** The line printed for one `value_counts` entry out of `total` transactions. */
  function LineOf(entry: (Band, nat), total: nat): (line: BarLine)
    ensures line.band == entry.0 && line.count == entry.1
    ensures line.percent == Percentage(line.count, total) && line.bar == BarLength(line.percent)
    ensures 0 < entry.1 <= total ==> 0.0 < line.percent <= 100.0 && 0 <= line.bar <= 50
  {
    var percent := Percentage(entry.1, total);
    BarLine(entry.0, BarLength(percent), entry.1, percent)
  }

  /** No band occurs more often than there are transactions. */
  lemma BandCountAtMostTotal(bs: seq<Band>, b: Band)
    ensures multiset(bs)[b] <= |bs|
  {
    BandMultisetTotal(bs);
  }

  /** The histogram lines of the band distribution, in `value_counts` order. */
  method DistributionLines(rows: seq<ScoredRow>) returns (lines: seq<BarLine>)
    ensures |lines| == |RiskDistribution(rows)|
    ensures forall i :: 0 <= i < |lines| ==>
      && lines[i].band == RiskDistribution(rows)[i].0
      && lines[i].count == RiskDistribution(rows)[i].1
      && lines[i].percent == Percentage(lines[i].count, |rows|)
      && lines[i].bar == BarLength(lines[i].percent)
    ensures forall i :: 0 <= i < |lines| ==> 0.0 < lines[i].percent <= 100.0 && 0 <= lines[i].bar <= 50
  {
    var dist := RiskDistribution(rows);
    forall j | 0 <= j < |dist| ensures 0 < dist[j].1 <= |rows| {
      BandCountAtMostTotal(Bands(rows), dist[j].0);
    }
    lines := Lines(dist, |rows|);
  }

  /** The printing loop over the `value_counts` entries: one line per entry, in order. */
  method Lines(dist: seq<(Band, nat)>, total: nat) returns (lines: seq<BarLine>)
    ensures |lines| == |dist|
    ensures forall j :: 0 <= j < |dist| ==> lines[j] == LineOf(dist[j], total)
  {
    lines := [];
    for i := 0 to |dist|
      invariant |lines| == i
      invariant forall j :: 0 <= j < i ==> lines[j] == LineOf(dist[j], total)
    {
      lines := lines + [LineOf(dist[i], total)];
    }
  }

  /** `flagged['nameOrig'].value_counts().head(5)`. */
  function Top5Flagged(rows: seq<ScoredRow>): (top: seq<(string, nat)>)
    ensures |top| <= 5
    ensures NonIncreasing(top, CountKey)
    ensures NoDuplicates(Keys(top))
    ensures forall i :: 0 <= i < |top| ==> top[i].1 == multiset(Accounts(Flagged(rows)))[top[i].0] >= 1
  {
    var names := Accounts(Flagged(rows));
    var vc := ValueCounts(names);
    var n := if |vc| < 5 then |vc| else 5;
    ValueCountsPrefix(names, n);
    vc[..n]
  }

  /** A prefix of `value_counts` keeps its order, its distinct keys and its counts. */
  lemma ValueCountsPrefix<T(!new)>(xs: seq<T>, n: nat)
    requires n <= |ValueCounts(xs)|
    ensures NonIncreasing(ValueCounts(xs)[..n], CountKey)
    ensures NoDuplicates(Keys(ValueCounts(xs)[..n]))
    ensures forall i :: 0 <= i < n ==> ValueCounts(xs)[..n][i].1 == multiset(xs)[ValueCounts(xs)[..n][i].0] >= 1
  {
    var vc := ValueCounts(xs);
    assert Keys(vc[..n]) == Keys(vc)[..n];
  }

  /**
    No account left out of the top five has more flagged rows than a listed
    one, and fewer than five are listed only when every flagged account is.
  */
  lemma Top5FlaggedMaximal(rows: seq<ScoredRow>, account: string)
    requires account in Accounts(Flagged(rows)) && account !in Keys(Top5Flagged(rows))
    ensures |Top5Flagged(rows)| == 5
    ensures forall i :: 0 <= i < 5 ==> multiset(Accounts(Flagged(rows)))[account] <= Top5Flagged(rows)[i].1
  {
    var names := Accounts(Flagged(rows));
    var vc := ValueCounts(names);
    var n := if |vc| < 5 then |vc| else 5;
    ValueCountsPrefixMaximal(names, n, account);
  }

  /** A value left out of a prefix of `value_counts` occurs no more often than any listed one. */
  lemma ValueCountsPrefixMaximal<T(!new)>(xs: seq<T>, n: nat, x: T)
    requires n <= |ValueCounts(xs)|
    requires x in xs && x !in Keys(ValueCounts(xs)[..n])
    ensures n < |ValueCounts(xs)|
    ensures forall i :: 0 <= i < n ==> multiset(xs)[x] <= ValueCounts(xs)[i].1
  {
    var vc := ValueCounts(xs);
    assert Keys(vc[..n]) == Keys(vc)[..n];
    var k :| 0 <= k < |vc| && Keys(vc)[k] == x;
    assert n <= k;
    forall i | 0 <= i < n ensures multiset(xs)[x] <= vc[i].1 {
      assert CountKey(vc[i]) >= CountKey(vc[k]);
    }
  }

  /** `data.sort_values(by="final_risk_score", ascending=False).head(5)`. */
  function Top5Risky(rows: seq<ScoredRow>): (top: seq<ScoredRow>)
    ensures |top| == if |rows| < 5 then |rows| else 5
    ensures NonIncreasing(top, Score)
    ensures multiset(top) <= multiset(rows)
    ensures forall x, y :: x in top && y in multiset(rows) - multiset(top) ==> y.finalRiskScore <= x.finalRiskScore
  {
    TopK(rows, Score, 5)
  }

  /** The figures the text report prints. */
  datatype Metrics = Metrics(
    totalTransactions: nat,
    totalFlagged: nat,
    flaggedPercentage: real,
    status: Status,
    riskDistribution: seq<(Band, nat)>,
    top5Flagged: seq<(string, nat)>,
    top5Risky: seq<ScoredRow>)

  function ReportMetrics(rows: seq<ScoredRow>): (m: Metrics)
    ensures m.totalTransactions == |rows| && m.totalFlagged <= m.totalTransactions
    ensures 0.0 <= m.flaggedPercentage <= 100.0
    ensures m.totalTransactions == 0 ==> m.flaggedPercentage == 0.0 && m.status == Low
    ensures m.totalFlagged == |Flagged(rows)|
    ensures m.flaggedPercentage == Percentage(m.totalFlagged, m.totalTransactions)
    ensures m.status == RiskStatus(m.flaggedPercentage)
    ensures m.status == High <==> m.flaggedPercentage > 5.0
    ensures m.status == Medium <==> 2.0 < m.flaggedPercentage <= 5.0
    ensures m.status == Low <==> m.flaggedPercentage <= 2.0
    ensures m.riskDistribution == RiskDistribution(rows)
    ensures m.top5Flagged == Top5Flagged(rows)
    ensures m.top5Risky == Top5Risky(rows)
  {
    var total := |rows|;
    var flagged := |Flagged(rows)|;
    var percentage := Percentage(flagged, total);
    Metrics(total, flagged, percentage, RiskStatus(percentage),
      RiskDistribution(rows), Top5Flagged(rows), Top5Risky(rows))
  }
}
