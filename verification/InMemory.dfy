/** The in-memory repository (internal/repository/memstorage.go). Every method holds the
    mutex from its first to its last statement, so each is one atomic step. */
module InMemory {
  import opened Options
  import opened Metrics
  import opened MetricStore

  class MemStorage {
    var gauges: map<string, Float64>
    var counters: map<string, int64>

    ghost function Contents(): Store
      reads this
    {
      Store(gauges, counters)
    }

    constructor ()
      ensures Contents() == EMPTY
    {
      gauges, counters := map[], map[];
    }

    method UpdateGauge(name: string, value: Float64)
      modifies this
      ensures gauges == old(gauges)[name := value] && counters == old(counters)
    {
      gauges := gauges[name := value];
    }

    method UpdateCounter(name: string, delta: int64) returns (total: int64)
      modifies this
      ensures Contents() == AddCounter(old(Contents()), name, delta)
      ensures total == Total(Contents(), name)
    {
      var was := if name in counters then counters[name] else 0;
      counters := counters[name := Wrap64(was + delta)];
      total := counters[name];
    }

    /** A nil pointer under the metric's own type would panic, so callers validate first. */
    method UpdateMetrics(metrics: seq<Metric>)
      requires AllComplete(metrics)
      modifies this
      ensures Contents() == Apply(old(Contents()), metrics)
    {
      for i := 0 to |metrics|
        invariant Contents() == Apply(old(Contents()), metrics[..i])
      {
        var metric := metrics[i];
        ApplySnoc(old(Contents()), metrics[..i], metric);
        assert metrics[..i + 1] == metrics[..i] + [metric];
        if metric.mtype == GAUGE {
          gauges := gauges[metric.id := metric.value.value];
        } else if metric.mtype == COUNTER {
          var was := if metric.id in counters then counters[metric.id] else 0;
          counters := counters[metric.id := Wrap64(was + metric.delta.value)];
        }
      }
      assert metrics[..|metrics|] == metrics;
    }

    /** None stands for ErrMetricNotFound. */
    method GetGauge(name: string) returns (r: Option<Float64>)
      ensures r.Some? <==> name in gauges
      ensures r.Some? ==> r.value == gauges[name]
    {
      if name in gauges {
        r := Some(gauges[name]);
      } else {
        r := None;
      }
    }

    method GetCounter(name: string) returns (r: Option<int64>)
      ensures r.Some? <==> name in counters
      ensures r.Some? ==> r.value == counters[name]
    {
      if name in counters {
        r := Some(counters[name]);
      } else {
        r := None;
      }
    }

    /** Copies both maps, whatever order the two range loops follow. */
    method Snapshot() returns (gaugesCopy: map<string, Float64>, countersCopy: map<string, int64>)
      ensures Store(gaugesCopy, countersCopy) == Contents()
    {
      gaugesCopy, countersCopy := map[], map[];
      var rest := gauges.Keys;
      while rest != {}
        invariant rest <= gauges.Keys
        invariant gaugesCopy == map k | k in gauges && k !in rest :: gauges[k]
      {
        var k :| k in rest;
        gaugesCopy, rest := gaugesCopy[k := gauges[k]], rest - {k};
      }
      rest := counters.Keys;
      while rest != {}
        invariant rest <= counters.Keys
        invariant countersCopy == map k | k in counters && k !in rest :: counters[k]
      {
        var k :| k in rest;
        countersCopy, rest := countersCopy[k := counters[k]], rest - {k};
      }
    }

    method SetGauge(name: string, value: Float64)
      modifies this
      ensures gauges == old(gauges)[name := value] && counters == old(counters)
    {
      gauges := gauges[name := value];
    }

    /** Unlike UpdateCounter this overwrites. */
    method SetCounter(name: string, total: int64)
      modifies this
      ensures gauges == old(gauges) && counters == old(counters)[name := total]
    {
      counters := counters[name := total];
    }
  }
}
