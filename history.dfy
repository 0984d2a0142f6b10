/**
 * The participant detail modal: the weight history in chronological order,
 * the table of differences between readings, the chart series and the total
 * of contributions.
 */
module History {
  import StableSort

  /** One weight reading; `recordedAt` is the reading's time in milliseconds. */
  datatype WeightRecord = WeightRecord(weight: real, recordedAt: int)

  /** One contribution. */
  datatype MoneyRecord = MoneyRecord(amount: real, recordedAt: int)

  /** The sort key of `sortedHistory`: the reading's time. */
  function Time(r: WeightRecord): real {
    r.recordedAt as real
  }

  /** A copy of the readings ordered oldest first by time taken (src/components/ParticipantInfoModal.tsx:136-138). */
  function SortedHistory(h: seq<WeightRecord>): (r: seq<WeightRecord>)
    ensures |r| == |h|
  {
    StableSort.SortBy(h, Time)
  }

  /** The readings of `h` taken at time `t`, in order. */
  function TakenAt(h: seq<WeightRecord>, t: int): seq<WeightRecord> {
    StableSort.WithKey(h, Time, t as real)
  }

  /** The sorted history holds the same readings, oldest first; readings of the same time keep their order. */
  lemma SortedHistoryIsChronological(h: seq<WeightRecord>, t: int)
    ensures multiset(SortedHistory(h)) == multiset(h)
    ensures forall i, j :: 0 <= i < j < |h| ==> SortedHistory(h)[i].recordedAt <= SortedHistory(h)[j].recordedAt
    ensures TakenAt(SortedHistory(h), t) == TakenAt(h, t)
  {
    StableSort.SortByPermutes(h, Time);
    StableSort.SortBySorted(h, Time);
    StableSort.SortByStable(h, Time, t as real);
    var r := SortedHistory(h);
    forall i, j | 0 <= i < j < |h| ensures r[i].recordedAt <= r[j].recordedAt {
      assert Time(r[i]) <= Time(r[j]);
    }
  }

  // Weight history table

  /** The reading a row is compared with: the one before it, or the initial weight for the first row. */
  function PreviousWeight(h: seq<WeightRecord>, i: nat, initialWeight: real): real
    requires i < |h|
  {
    if i > 0 then h[i - 1].weight else initialWeight
  }

  /** The "difference" column: weight lost since the previous reading. */
  function Differences(h: seq<WeightRecord>, initialWeight: real): (d: seq<real>)
    ensures |d| == |h|
    ensures |h| > 0 ==> d[0] == initialWeight - h[0].weight
    ensures forall i :: 0 < i < |h| ==> d[i] == h[i - 1].weight - h[i].weight
  {
    seq(|h|, i requires 0 <= i < |h| => PreviousWeight(h, i, initialWeight) - h[i].weight)
  }

  function Sum(xs: seq<real>): real {
    if xs == [] then 0.0 else Sum(xs[..|xs| - 1]) + xs[|xs| - 1]
  }

  /**
   * The differences telescope: the first `n` rows add up to the initial weight
   * minus the `n`-th reading, so each reading is recovered from the initial
   * weight and the differences above it.
   */
  lemma {:induction false} DifferencesTelescope(h: seq<WeightRecord>, initialWeight: real, n: nat)
    requires 0 < n <= |h|
    ensures Sum(Differences(h, initialWeight)[..n]) == initialWeight - h[n - 1].weight
  {
    var d := Differences(h, initialWeight);
    assert d[..n][..n - 1] == d[..n - 1];
    if n > 1 {
      DifferencesTelescope(h, initialWeight, n - 1);
    } else {
      assert d[..0] == [];
    }
  }

  /** All differences together: initial weight minus the last reading, and nothing for an empty history. */
  lemma DifferencesTotal(h: seq<WeightRecord>, initialWeight: real)
    ensures Sum(Differences(h, initialWeight)) == if h == [] then 0.0 else initialWeight - h[|h| - 1].weight
  {
    var d := Differences(h, initialWeight);
    if h != [] {
      DifferencesTelescope(h, initialWeight, |h|);
      assert d[..|h|] == d;
    }
  }

  /** The colour of a difference cell: green, red or grey. */
  datatype Tone = Green | Red | Grey

  function ToneOf(difference: real): (t: Tone)
    ensures t == Green <==> difference > 0.0
    ensures t == Red <==> difference < 0.0
    ensures t == Grey <==> difference == 0.0
  {
    if difference > 0.0 then Green else if difference < 0.0 then Red else Grey
  }

  /** The sign printed before a difference: "+" for a loss of weight, nothing otherwise. */
  function SignPrefix(difference: real): (s: string)
    ensures s == "+" <==> difference > 0.0
    ensures s == "" <==> difference <= 0.0
  {
    if difference > 0.0 then "+" else ""
  }

  datatype Row = Row(recordedAt: int, weight: real, difference: real, tone: Tone, prefix: string)

  /** `WeightHistoryTable`: one row per reading. */
  function WeightRows(h: seq<WeightRecord>, initialWeight: real): (rows: seq<Row>)
    ensures |rows| == |h|
    ensures forall i :: 0 <= i < |h| ==>
      && rows[i].recordedAt == h[i].recordedAt
      && rows[i].weight == h[i].weight
      && rows[i].difference + h[i].weight == PreviousWeight(h, i, initialWeight)
      && rows[i].tone == ToneOf(rows[i].difference)
      && rows[i].prefix == SignPrefix(rows[i].difference)
  {
    var d := Differences(h, initialWeight);
    seq(|h|, i requires 0 <= i < |h| => Row(h[i].recordedAt, h[i].weight, d[i], ToneOf(d[i]), SignPrefix(d[i])))
  }

  // Chart

  /** The chart's x labels (reading times; their date formatting is not modelled) and y values. */
  datatype ChartSeries = ChartSeries(labels: seq<int>, data: seq<real>)

  function Chart(sorted: seq<WeightRecord>): (c: ChartSeries)
    ensures |c.labels| == |sorted| && |c.data| == |sorted|
    ensures forall i :: 0 <= i < |sorted| ==> c.data[i] == sorted[i].weight && c.labels[i] == sorted[i].recordedAt
  {
    ChartSeries(
      seq(|sorted|, i requires 0 <= i < |sorted| => sorted[i].recordedAt),
      seq(|sorted|, i requires 0 <= i < |sorted| => sorted[i].weight))
  }

  // Contributions

  /** The money contributed: every record's amount, summed from the front (src/components/ParticipantInfoModal.tsx:279). */
  function TotalContributed(mh: seq<MoneyRecord>): (r: real)
    ensures mh == [] ==> r == 0.0
    ensures (forall i :: 0 <= i < |mh| ==> mh[i].amount >= 0.0) ==> r >= 0.0
  {
    if mh == [] then 0.0 else TotalContributed(mh[..|mh| - 1]) + mh[|mh| - 1].amount
  }

  /** The total over two runs of records is the sum of their totals. */
  lemma {:induction false} TotalContributedAppend(a: seq<MoneyRecord>, b: seq<MoneyRecord>)
    ensures TotalContributed(a + b) == TotalContributed(a) + TotalContributed(b)
  {
    if b == [] {
      assert a + b == a;
    } else {
      assert (a + b)[..|a + b| - 1] == a + b[..|b| - 1];
      TotalContributedAppend(a, b[..|b| - 1]);
    }
  }

  // The modal as a whole

  /** A tab's content, or its empty-state message when there is nothing to show. */
  datatype Pane<T> = EmptyState | Shown(content: T)

  datatype ModalView = ModalView(
    table: Pane<seq<Row>>,
    chart: Pane<ChartSeries>,
    totalContributed: real,
    contributions: Pane<seq<MoneyRecord>>)

  /** The three tabs of the modal for one participant. */
  function Render(initialWeight: real, weightHistory: seq<WeightRecord>, moneyHistory: seq<MoneyRecord>): (v: ModalView)
    ensures v.table.EmptyState? <==> weightHistory == []
    ensures v.chart.EmptyState? <==> weightHistory == []
    ensures v.contributions.EmptyState? <==> moneyHistory == []
    ensures v.table.Shown? ==> v.table.content == WeightRows(SortedHistory(weightHistory), initialWeight)
    ensures v.chart.Shown? ==> v.chart.content == Chart(SortedHistory(weightHistory))
    ensures v.contributions.Shown? ==> v.contributions.content == moneyHistory
    ensures v.totalContributed == TotalContributed(moneyHistory)
  {
    var sorted := SortedHistory(weightHistory);
    ModalView(
      if |sorted| > 0 then Shown(WeightRows(sorted, initialWeight)) else EmptyState,
      if |sorted| > 0 then Shown(Chart(sorted)) else EmptyState,
      TotalContributed(moneyHistory),
      if |moneyHistory| > 0 then Shown(moneyHistory) else EmptyState)
  }

  /** The table's differences add up to the initial weight minus the latest reading. */
  lemma TableTotalsWeightChange(initialWeight: real, weightHistory: seq<WeightRecord>, moneyHistory: seq<MoneyRecord>)
    requires weightHistory != []
    ensures var v := Render(initialWeight, weightHistory, moneyHistory);
            var sorted := SortedHistory(weightHistory);
            Sum(seq(|sorted|, i requires 0 <= i < |sorted| => v.table.content[i].difference))
              == initialWeight - sorted[|sorted| - 1].weight
  {
    var sorted := SortedHistory(weightHistory);
    var rows := WeightRows(sorted, initialWeight);
    assert seq(|sorted|, i requires 0 <= i < |sorted| => rows[i].difference) == Differences(sorted, initialWeight);
    DifferencesTotal(sorted, initialWeight);
  }
}
