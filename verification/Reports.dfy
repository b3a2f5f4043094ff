/** The batch an Agent reports, and its effect on a Server's store
    (buildMetricsBatch in internal/agent/service/report.go). */
module Reports {
  import opened Metrics
  import opened MetricStore

  datatype Report = Report(metrics: seq<Metric>, pollCount: int64)

  /** order lists every name once: one possible order of a Go range loop over a map. */
  ghost predicate Enumerates(order: seq<string>, names: set<string>) {
    && (forall name :: name in order <==> name in names)
    && (forall i, j | 0 <= i < j < |order| :: order[i] != order[j])
  }

  ghost function GaugeMetrics(order: seq<string>, gauges: map<string, Float64>): (ms: seq<Metric>)
    requires forall i | 0 <= i < |order| :: order[i] in gauges
    ensures |ms| == |order|
    ensures forall i | 0 <= i < |ms| :: ms[i] == GaugeMetric(order[i], gauges[order[i]])
    ensures AllComplete(ms)
  {
    if order == [] then []
    else GaugeMetrics(order[..|order| - 1], gauges)
         + [GaugeMetric(order[|order| - 1], gauges[order[|order| - 1]])]
  }

  ghost function Batch(order: seq<string>, gauges: map<string, Float64>, pollCount: int64): seq<Metric>
    requires Enumerates(order, gauges.Keys)
  {
    GaugeMetrics(order, gauges) + [CounterMetric(POLL_COUNT, pollCount)]
  }

  /** The report was built from this snapshot of the gauges, in some order. */
  ghost predicate IsReportOf(r: Report, gauges: map<string, Float64>) {
    exists order :: Enumerates(order, gauges.Keys) && r.metrics == Batch(order, gauges, r.pollCount)
  }

  /** A snapshot batch that mentions only these gauge names. */
  ghost predicate ReportWithin(r: Report, names: set<string>) {
    exists gauges :: IsReportOf(r, gauges) && gauges.Keys <= names
  }

  ghost function Listed(order: seq<string>, gauges: map<string, Float64>): map<string, Float64> {
    map name | name in gauges && name in order :: gauges[name]
  }

  lemma ListedSnoc(order: seq<string>, name: string, gauges: map<string, Float64>)
    requires name in gauges
    ensures Listed(order + [name], gauges) == Listed(order, gauges)[name := gauges[name]]
  {
  }

  lemma {:induction false} ApplyGauges(st: Store, order: seq<string>, gauges: map<string, Float64>)
    requires forall i | 0 <= i < |order| :: order[i] in gauges
    ensures Apply(st, GaugeMetrics(order, gauges)) == st.(gauges := st.gauges + Listed(order, gauges))
  {
    if order == [] {
      assert Listed(order, gauges) == map[];
    } else {
      var front, last := order[..|order| - 1], order[|order| - 1];
      ApplyGauges(st, front, gauges);
      ApplyOneMore(st, front, last, gauges);
      assert order == front + [last];
    }
  }

  lemma OverlayUpdate(m: map<string, Float64>, over: map<string, Float64>, k: string, v: Float64)
    ensures (m + over)[k := v] == m + over[k := v]
  {
  }

  lemma ApplyOneMore(st: Store, front: seq<string>, last: string, gauges: map<string, Float64>)
    requires last in gauges && forall i | 0 <= i < |front| :: front[i] in gauges
    requires Apply(st, GaugeMetrics(front, gauges)) == st.(gauges := st.gauges + Listed(front, gauges))
    ensures Apply(st, GaugeMetrics(front, gauges) + [GaugeMetric(last, gauges[last])])
         == st.(gauges := st.gauges + Listed(front + [last], gauges))
  {
    ApplySnoc(st, GaugeMetrics(front, gauges), GaugeMetric(last, gauges[last]));
    ListedSnoc(front, last, gauges);
    OverlayUpdate(st.gauges, Listed(front, gauges), last, gauges[last]);
  }

  lemma ListedAll(order: seq<string>, gauges: map<string, Float64>)
    requires Enumerates(order, gauges.Keys)
    ensures Listed(order, gauges) == gauges
  {
  }

  lemma BatchEffect(st: Store, order: seq<string>, gauges: map<string, Float64>, pollCount: int64)
    requires Enumerates(order, gauges.Keys)
    ensures AllComplete(Batch(order, gauges, pollCount))
    ensures Apply(st, Batch(order, gauges, pollCount))
         == AddCounter(st.(gauges := st.gauges + gauges), POLL_COUNT, pollCount)
  {
    ApplyGauges(st, order, gauges);
    ListedAll(order, gauges);
    var last := CounterMetric(POLL_COUNT, pollCount);
    ApplySnoc(st, GaugeMetrics(order, gauges), last);
    assert Complete(last) && last.mtype != GAUGE;
  }

  /** What receiving a report once does: all its gauges are overwritten, and the
      poll counter grows by the report's count. No other name is touched. */
  lemma ReportEffect(st: Store, r: Report, gauges: map<string, Float64>)
    requires IsReportOf(r, gauges)
    ensures r.metrics != [] && AllComplete(r.metrics)
    ensures Apply(st, r.metrics) == AddCounter(st.(gauges := st.gauges + gauges), POLL_COUNT, r.pollCount)
  {
    var order :| Enumerates(order, gauges.Keys) && r.metrics == Batch(order, gauges, r.pollCount);
    BatchEffect(st, order, gauges, r.pollCount);
  }

  /** Go's map order cannot matter: two reports of one snapshot with the same count
      act alike on every store, and so does any rearrangement of either. */
  lemma OrderIrrelevant(st: Store, r: Report, gauges: map<string, Float64>, ms: seq<Metric>)
    requires IsReportOf(r, gauges) && multiset(ms) == multiset(r.metrics)
    ensures AllComplete(ms)
    ensures Apply(st, ms) == AddCounter(st.(gauges := st.gauges + gauges), POLL_COUNT, r.pollCount)
  {
    ReportEffect(st, r, gauges);
    ReportDistinct(r, gauges);
    PermutedDistinct(r.metrics, ms);
    PermutedBatch(st, r.metrics, ms);
  }

  lemma ReportDistinct(r: Report, gauges: map<string, Float64>)
    requires IsReportOf(r, gauges)
    ensures GaugesDistinct(r.metrics)
  {
    var order :| Enumerates(order, gauges.Keys) && r.metrics == Batch(order, gauges, r.pollCount);
    var ms := r.metrics;
    forall i, j | 0 <= i < j < |ms| && ms[i].mtype == GAUGE && ms[j].mtype == GAUGE
      ensures ms[i].id != ms[j].id
    {
      assert ms[|ms| - 1].mtype == COUNTER;
      assert ms[i].id == order[i] && ms[j].id == order[j];
    }
  }

  /** Rearranging keeps gauge names distinct. */
  lemma PermutedDistinct(a: seq<Metric>, b: seq<Metric>)
    requires multiset(a) == multiset(b) && GaugesDistinct(a)
    ensures GaugesDistinct(b)
  {
    forall i, j | 0 <= i < j < |b| && b[i].mtype == GAUGE && b[j].mtype == GAUGE
      ensures b[i].id != b[j].id
    {
      if b[i].id == b[j].id {
        SameMembers(a, b);
        assert b[i] in a && b[j] in a;
        if b[i] == b[j] {
          TwiceInSeq(b, i, j);
          TwoPlaces(a, b[i]);
        }
        assert false;
      }
    }
  }

  lemma TwiceInSeq(ms: seq<Metric>, i: nat, j: nat)
    requires i < j < |ms| && ms[i] == ms[j]
    ensures multiset(ms)[ms[i]] >= 2
  {
    assert ms == ms[..j] + [ms[j]] + ms[j + 1..];
    assert ms[i] in ms[..j];
  }

  lemma TwoPlaces(ms: seq<Metric>, m: Metric)
    requires multiset(ms)[m] >= 2
    ensures exists i, j :: 0 <= i < j < |ms| && ms[i] == m && ms[j] == m
  {
    assert m in multiset(ms);
    var i :| 0 <= i < |ms| && ms[i] == m;
    assert ms == ms[..i] + [ms[i]] + ms[i + 1..];
    assert m in multiset(ms[..i]) || m in multiset(ms[i + 1..]);
  }
}
