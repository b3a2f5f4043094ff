/** The metric record shared by the Agent and the Server, and Go's int64 addition. */
module Metrics {
  import opened Options

  /** Go's int64. Sums are taken in int and brought back by Wrap64, as Go's addition does. */
  type int64 = x: int | -0x8000_0000_0000_0000 <= x < 0x8000_0000_0000_0000

  const TWO_64: int := 0x1_0000_0000_0000_0000

  predicate FitsInt64(x: int) {
    -0x8000_0000_0000_0000 <= x < 0x8000_0000_0000_0000
  }

  function Wrap64(x: int): (r: int64)
    ensures (r - x) % TWO_64 == 0
    ensures FitsInt64(x) ==> r == x
  {
    (x + 0x8000_0000_0000_0000) % TWO_64 - 0x8000_0000_0000_0000
  }

  /** An inner wrap-around is absorbed by the outer one. */
  lemma WrapAbsorbs(x: int, y: int)
    ensures Wrap64(Wrap64(x) + y) == Wrap64(x + y)
  {
  }

  /** Two integers wrap to the same int64 exactly when they are congruent modulo 2^64. */
  lemma WrapCongruent(x: int, y: int)
    ensures Wrap64(x) == Wrap64(y) <==> (x - y) % TWO_64 == 0
  {
  }

  /** A gauge value. Gauges are stored, copied and encoded, never computed with,
      so a finite one is only identified by a code. */
  datatype Float64 = Finite(code: int) | NaN | PosInf | NegInf

  const GAUGE := "gauge"
  const COUNTER := "counter"
  const POLL_COUNT := "PollCount"

  /** The flat record of the API. An absent delta or value is a nil pointer. */
  datatype Metric = Metric(id: string, mtype: string, delta: Option<int64>, value: Option<Float64>, hash: string)

  function GaugeMetric(id: string, value: Float64): Metric {
    Metric(id, GAUGE, None, Some(value), "")
  }

  function CounterMetric(id: string, delta: int64): Metric {
    Metric(id, COUNTER, Some(delta), None, "")
  }
}
