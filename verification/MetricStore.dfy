/** What a metric store holds, and what a batch of metrics means to it.
    MemStorage is proved against these functions; PostgresStorage refines them. */
module MetricStore {
  import opened Options
  import opened Metrics

  datatype Store = Store(gauges: map<string, Float64>, counters: map<string, int64>)

  const EMPTY := Store(map[], map[])

  /** The pointer that UpdateMetrics dereferences for this metric is not nil. */
  predicate Complete(m: Metric) {
    && (m.mtype == GAUGE ==> m.value.Some?)
    && (m.mtype == COUNTER ==> m.delta.Some?)
  }

  predicate AllComplete(ms: seq<Metric>) {
    forall i | 0 <= i < |ms| :: Complete(ms[i])
  }

  /** A counter that was never written reads as zero. */
  function Total(st: Store, name: string): int64 {
    if name in st.counters then st.counters[name] else 0
  }

  function SetGauge(st: Store, name: string, value: Float64): Store {
    st.(gauges := st.gauges[name := value])
  }

  function AddCounter(st: Store, name: string, delta: int64): Store {
    st.(counters := st.counters[name := Wrap64(Total(st, name) + delta)])
  }

  /** One metric of a batch. A metric of any other type is skipped. */
  function Put(st: Store, m: Metric): Store
    requires Complete(m)
  {
    if m.mtype == GAUGE then SetGauge(st, m.id, m.value.value)
    else if m.mtype == COUNTER then AddCounter(st, m.id, m.delta.value)
    else st
  }

  function Apply(st: Store, ms: seq<Metric>): Store
    requires AllComplete(ms)
    decreases ms
  {
    if ms == [] then st else Apply(Put(st, ms[0]), ms[1..])
  }

  // ---------------------------------------------------------------------------
  // A batch in closed form
  // ---------------------------------------------------------------------------

  function DeltaFor(m: Metric, name: string): int
    requires Complete(m)
  {
    if m.mtype == COUNTER && m.id == name then m.delta.value else 0
  }

  /** The exact, unbounded sum of the deltas a batch holds for one counter. */
  function SumOfDeltas(ms: seq<Metric>, name: string): int
    requires AllComplete(ms)
  {
    if ms == [] then 0 else DeltaFor(ms[0], name) + SumOfDeltas(ms[1..], name)
  }

  /** The value of the last gauge metric of that name, if the batch has one. */
  function LastGauge(ms: seq<Metric>, name: string): Option<Float64>
    requires AllComplete(ms)
  {
    if ms == [] then None
    else
      var last := ms[|ms| - 1];
      if last.mtype == GAUGE && last.id == name then last.value
      else LastGauge(ms[..|ms| - 1], name)
  }

  predicate Mentions(ms: seq<Metric>, mtype: string, name: string) {
    exists m | m in ms :: m.mtype == mtype && m.id == name
  }

  /** A concatenated batch is its parts applied in order. */
  lemma {:induction false} ApplyConcat(st: Store, a: seq<Metric>, b: seq<Metric>)
    requires AllComplete(a) && AllComplete(b)
    ensures AllComplete(a + b)
    ensures Apply(st, a + b) == Apply(Apply(st, a), b)
    decreases a
  {
    if a == [] {
      assert a + b == b;
    } else {
      assert (a + b)[0] == a[0] && (a + b)[1..] == a[1..] + b;
      ApplyConcat(Put(st, a[0]), a[1..], b);
    }
  }

  lemma {:induction false} ApplySnoc(st: Store, ms: seq<Metric>, m: Metric)
    requires AllComplete(ms) && Complete(m)
    ensures AllComplete(ms + [m])
    ensures Apply(st, ms + [m]) == Put(Apply(st, ms), m)
  {
    ApplyConcat(st, ms, [m]);
    assert Apply(Apply(st, ms), [m]) == Apply(Put(Apply(st, ms), m), []);
  }

  /** Counters: after a batch a counter holds its old total plus the exact sum of its
      deltas, reduced once modulo 2^64. */
  lemma {:induction false} CountersAfterBatch(st: Store, ms: seq<Metric>, name: string)
    requires AllComplete(ms)
    ensures Total(Apply(st, ms), name) == Wrap64(Total(st, name) + SumOfDeltas(ms, name))
    decreases |ms|
  {
    if ms != [] {
      CountersAfterBatch(Put(st, ms[0]), ms[1..], name);
      WrapAbsorbs(Total(st, name) + DeltaFor(ms[0], name), SumOfDeltas(ms[1..], name));
    }
  }

  /** The counters present after a batch are the old ones and the ones it names. */
  lemma {:induction false} CounterNamesAfterBatch(st: Store, ms: seq<Metric>, name: string)
    requires AllComplete(ms)
    ensures name in Apply(st, ms).counters <==> name in st.counters || Mentions(ms, COUNTER, name)
    decreases |ms|
  {
    if ms != [] {
      CounterNamesAfterBatch(Put(st, ms[0]), ms[1..], name);
      MentionsHead(ms, COUNTER, name);
    }
  }

  lemma MentionsHead(ms: seq<Metric>, mtype: string, name: string)
    requires ms != []
    ensures Mentions(ms, mtype, name) <==> (ms[0].mtype == mtype && ms[0].id == name) || Mentions(ms[1..], mtype, name)
  {
    if Mentions(ms, mtype, name) {
      var m :| m in ms && m.mtype == mtype && m.id == name;
      var i :| 0 <= i < |ms| && ms[i] == m;
      assert i > 0 ==> m == ms[1..][i - 1];
    }
  }

  lemma MentionsLast(ms: seq<Metric>, mtype: string, name: string)
    requires ms != []
    ensures Mentions(ms, mtype, name)
        <==> (ms[|ms| - 1].mtype == mtype && ms[|ms| - 1].id == name) || Mentions(ms[..|ms| - 1], mtype, name)
  {
    if Mentions(ms, mtype, name) {
      var m :| m in ms && m.mtype == mtype && m.id == name;
      var i :| 0 <= i < |ms| && ms[i] == m;
      assert i < |ms| - 1 ==> m == ms[..|ms| - 1][i];
    }
  }

  /** Gauges: after a batch a gauge holds the last value the batch gives it,
      and keeps its old state when the batch does not name it. */
  lemma {:induction false} GaugesAfterBatch(st: Store, ms: seq<Metric>, name: string)
    requires AllComplete(ms)
    ensures LastGauge(ms, name).Some? <==> Mentions(ms, GAUGE, name)
    ensures LastGauge(ms, name).Some? ==>
              name in Apply(st, ms).gauges && Apply(st, ms).gauges[name] == LastGauge(ms, name).value
    ensures LastGauge(ms, name).None? ==>
              && (name in Apply(st, ms).gauges <==> name in st.gauges)
              && (name in st.gauges ==> Apply(st, ms).gauges[name] == st.gauges[name])
  {
    if ms != [] {
      var front, last := ms[..|ms| - 1], ms[|ms| - 1];
      assert ms == front + [last];
      GaugesAfterBatch(st, front, name);
      ApplySnoc(st, front, last);
      MentionsLast(ms, GAUGE, name);
    }
  }

  // ---------------------------------------------------------------------------
  // The order of a batch
  // ---------------------------------------------------------------------------

  lemma {:induction false} SumOfDeltasConcat(a: seq<Metric>, b: seq<Metric>, name: string)
    requires AllComplete(a) && AllComplete(b)
    ensures AllComplete(a + b)
    ensures SumOfDeltas(a + b, name) == SumOfDeltas(a, name) + SumOfDeltas(b, name)
  {
    if a == [] {
      assert a + b == b;
    } else {
      assert (a + b)[0] == a[0] && (a + b)[1..] == a[1..] + b;
      SumOfDeltasConcat(a[1..], b, name);
    }
  }

  function Without(ms: seq<Metric>, i: nat): seq<Metric>
    requires i < |ms|
  {
    ms[..i] + ms[i + 1..]
  }

  lemma SumWithout(ms: seq<Metric>, i: nat, name: string)
    requires AllComplete(ms) && i < |ms|
    ensures AllComplete(Without(ms, i))
    ensures SumOfDeltas(ms, name) == DeltaFor(ms[i], name) + SumOfDeltas(Without(ms, i), name)
    ensures multiset(Without(ms, i)) == multiset(ms) - multiset{ms[i]}
  {
    assert ms == ms[..i] + ([ms[i]] + ms[i + 1..]);
    assert ([ms[i]] + ms[i + 1..])[1..] == ms[i + 1..];
    SumOfDeltasConcat(ms[..i], [ms[i]] + ms[i + 1..], name);
    SumOfDeltasConcat(ms[..i], ms[i + 1..], name);
  }

  ghost function IndexIn(ms: seq<Metric>, m: Metric): (i: nat)
    requires m in multiset(ms)
    ensures i < |ms| && ms[i] == m
  {
    var i :| 0 <= i < |ms| && ms[i] == m;
    i
  }

  /** The sum of deltas depends on the multiset of metrics only. */
  lemma {:induction false} SumOfDeltasPermuted(a: seq<Metric>, b: seq<Metric>, name: string)
    requires AllComplete(a) && AllComplete(b) && multiset(a) == multiset(b)
    ensures SumOfDeltas(a, name) == SumOfDeltas(b, name)
    decreases |a|
  {
    if a == [] {
      assert |multiset(b)| == 0;
    } else {
      assert a[0] in multiset(a);
      var i := IndexIn(b, a[0]);
      SumWithout(a, 0, name);
      SumWithout(b, i, name);
      SumOfDeltasPermuted(Without(a, 0), Without(b, i), name);
    }
  }

  /** No gauge name occurs twice in the batch. */
  predicate GaugesDistinct(ms: seq<Metric>) {
    forall i, j | 0 <= i < j < |ms| :: ms[i].mtype == GAUGE && ms[j].mtype == GAUGE ==> ms[i].id != ms[j].id
  }

  lemma {:induction false} LastGaugeIsAny(ms: seq<Metric>, m: Metric)
    requires AllComplete(ms) && GaugesDistinct(ms) && m in ms && m.mtype == GAUGE
    ensures LastGauge(ms, m.id) == m.value
  {
    var last := ms[|ms| - 1];
    if last != m {
      var i :| 0 <= i < |ms| && ms[i] == m;
      assert m == ms[..|ms| - 1][i];
      LastGaugeIsAny(ms[..|ms| - 1], m);
    }
  }

  lemma SameMembers(a: seq<Metric>, b: seq<Metric>)
    requires multiset(a) == multiset(b)
    ensures forall m :: m in a <==> m in b
    ensures AllComplete(a) ==> AllComplete(b)
  {
    assert forall m :: m in a <==> m in multiset(a);
    assert forall m :: m in b <==> m in multiset(b);
    forall i | 0 <= i < |b| && AllComplete(a) ensures Complete(b[i]) {
      assert b[i] in a;
    }
  }

  /** Counters never depend on the order of a batch. */
  lemma PermutedCounters(st: Store, a: seq<Metric>, b: seq<Metric>)
    requires AllComplete(a) && multiset(a) == multiset(b)
    ensures AllComplete(b)
    ensures Apply(st, a).counters == Apply(st, b).counters
  {
    SameMembers(a, b);
    var x, y := Apply(st, a).counters, Apply(st, b).counters;
    forall name: string
      ensures name in x <==> name in y
      ensures name in x ==> x[name] == y[name]
    {
      CountersAfterBatch(st, a, name);
      CountersAfterBatch(st, b, name);
      CounterNamesAfterBatch(st, a, name);
      CounterNamesAfterBatch(st, b, name);
      SumOfDeltasPermuted(a, b, name);
    }
  }

  /** Any order of a batch whose gauge names are distinct leads to the same store. */
  lemma PermutedBatch(st: Store, a: seq<Metric>, b: seq<Metric>)
    requires AllComplete(a) && multiset(a) == multiset(b) && GaugesDistinct(a) && GaugesDistinct(b)
    ensures AllComplete(b)
    ensures Apply(st, a) == Apply(st, b)
  {
    SameMembers(a, b);
    PermutedCounters(st, a, b);
    var x, y := Apply(st, a).gauges, Apply(st, b).gauges;
    forall name: string
      ensures name in x <==> name in y
      ensures name in x ==> x[name] == y[name]
    {
      GaugesAfterBatch(st, a, name);
      GaugesAfterBatch(st, b, name);
      if Mentions(a, GAUGE, name) {
        var m :| m in a && m.mtype == GAUGE && m.id == name;
        LastGaugeIsAny(a, m);
        LastGaugeIsAny(b, m);
      }
    }
    assert x == y;
  }

  // ---------------------------------------------------------------------------
  // The same batch again
  // ---------------------------------------------------------------------------

  function ApplyTimes(st: Store, ms: seq<Metric>, k: nat): Store
    requires AllComplete(ms)
  {
    if k == 0 then st else Apply(ApplyTimes(st, ms, k - 1), ms)
  }

  lemma OneMore(base: int, k: nat, sum: int)
    requires k > 0
    ensures Wrap64(Wrap64(base + (k - 1) * sum) + sum) == Wrap64(base + k * sum)
  {
    WrapAbsorbs(base + (k - 1) * sum, sum);
    assert (k - 1) * sum + sum == k * sum;
  }

  /** Counters grow by their deltas every time. */
  lemma {:induction false} TimesCounters(st: Store, ms: seq<Metric>, k: nat, name: string)
    requires AllComplete(ms)
    ensures Total(ApplyTimes(st, ms, k), name) == Wrap64(Total(st, name) + k * SumOfDeltas(ms, name))
  {
    if k > 0 {
      TimesCounters(st, ms, k - 1, name);
      CountersAfterBatch(ApplyTimes(st, ms, k - 1), ms, name);
      OneMore(Total(st, name), k, SumOfDeltas(ms, name));
    }
  }

  /** Gauges are overwritten, so applying a batch to its own result changes none of them. */
  lemma SameGaugesAgain(st: Store, again: Store, ms: seq<Metric>)
    requires AllComplete(ms) && again.gauges == Apply(st, ms).gauges
    ensures Apply(again, ms).gauges == Apply(st, ms).gauges
  {
    var x, y := Apply(again, ms).gauges, Apply(st, ms).gauges;
    forall name: string
      ensures name in x <==> name in y
      ensures name in x ==> x[name] == y[name]
    {
      GaugesAfterBatch(again, ms, name);
      GaugesAfterBatch(st, ms, name);
    }
  }

  lemma {:induction false} TimesGauges(st: Store, ms: seq<Metric>, k: nat)
    requires AllComplete(ms) && k > 0
    ensures ApplyTimes(st, ms, k).gauges == Apply(st, ms).gauges
  {
    if k > 1 {
      TimesGauges(st, ms, k - 1);
      SameGaugesAgain(st, ApplyTimes(st, ms, k - 1), ms);
    } else {
      assert ApplyTimes(st, ms, 0) == st;
    }
  }

  lemma {:induction false} TimesNames(st: Store, ms: seq<Metric>, k: nat, name: string)
    requires AllComplete(ms) && k > 0
    ensures name in ApplyTimes(st, ms, k).counters <==> name in Apply(st, ms).counters
  {
    CounterNamesAfterBatch(ApplyTimes(st, ms, k - 1), ms, name);
    CounterNamesAfterBatch(st, ms, name);
    if k > 1 {
      TimesNames(st, ms, k - 1, name);
    } else {
      assert ApplyTimes(st, ms, 0) == st;
    }
  }

  lemma TimesSum(base: int, k: nat, g: nat, sum: int)
    ensures Wrap64(base + k * sum) == Wrap64(base + g * sum) <==> ((k - g) * sum) % TWO_64 == 0
  {
    WrapCongruent(base + k * sum, base + g * sum);
    assert base + k * sum - (base + g * sum) == (k - g) * sum;
  }

  /** k and g applications add the same to a counter, modulo 2^64. */
  predicate SameSum(ms: seq<Metric>, k: nat, g: nat, name: string)
    requires AllComplete(ms)
  {
    ((k - g) * SumOfDeltas(ms, name)) % TWO_64 == 0
  }

  lemma SameTotal(st: Store, ms: seq<Metric>, k: nat, g: nat, name: string)
    requires AllComplete(ms)
    ensures Total(ApplyTimes(st, ms, k), name) == Total(ApplyTimes(st, ms, g), name) <==> SameSum(ms, k, g, name)
  {
    TimesCounters(st, ms, k, name);
    TimesCounters(st, ms, g, name);
    TimesSum(Total(st, name), k, g, SumOfDeltas(ms, name));
  }

  lemma EqualByTotals(a: Store, b: Store)
    requires a.gauges == b.gauges && forall name :: name in a.counters <==> name in b.counters
    ensures a == b <==> forall name :: Total(a, name) == Total(b, name)
  {
    if forall name :: Total(a, name) == Total(b, name) {
      forall name | name in a.counters ensures a.counters[name] == b.counters[name] {
        assert Total(a, name) == Total(b, name);
      }
      assert a.counters == b.counters;
    }
  }

  lemma SameWhenApplied(st: Store, ms: seq<Metric>, k: nat, g: nat)
    requires AllComplete(ms) && k > 0 && g > 0
    ensures ApplyTimes(st, ms, k) == ApplyTimes(st, ms, g) <==> forall name :: SameSum(ms, k, g, name)
  {
    var a, b := ApplyTimes(st, ms, k), ApplyTimes(st, ms, g);
    TimesGauges(st, ms, k);
    TimesGauges(st, ms, g);
    forall name
      ensures Total(a, name) == Total(b, name) <==> SameSum(ms, k, g, name)
      ensures name in a.counters <==> name in b.counters
    {
      SameTotal(st, ms, k, g, name);
      TimesNames(st, ms, k, name);
      TimesNames(st, ms, g, name);
    }
    EqualByTotals(a, b);
  }

  /** The store has the batch's gauges with its last values, and its counters with some total. */
  ghost predicate Holds(st: Store, ms: seq<Metric>)
    requires AllComplete(ms)
  {
    Apply(st, ms).gauges == st.gauges && forall name | Mentions(ms, COUNTER, name) :: name in st.counters
  }

  lemma SameAsBefore(st: Store, ms: seq<Metric>, g: nat)
    requires AllComplete(ms) && g > 0
    ensures ApplyTimes(st, ms, g) == st <==> Holds(st, ms) && forall name :: SameSum(ms, 0, g, name)
  {
    var b := ApplyTimes(st, ms, g);
    TimesGauges(st, ms, g);
    forall name
      ensures Total(st, name) == Total(b, name) <==> SameSum(ms, 0, g, name)
      ensures name in b.counters <==> name in st.counters || Mentions(ms, COUNTER, name)
    {
      SameTotal(st, ms, 0, g, name);
      TimesNames(st, ms, g, name);
      CounterNamesAfterBatch(st, ms, name);
    }
    if Holds(st, ms) {
      EqualByTotals(st, b);
    }
  }

  /** A batch applied k times and the same batch applied g times leave equal stores if and only if they add
      the same to every counter modulo 2^64 and, when one of the two is not applied at all, the store held
      the batch's gauges and had its counters before. */
  lemma SameTimes(st: Store, ms: seq<Metric>, k: nat, g: nat)
    requires AllComplete(ms)
    ensures ApplyTimes(st, ms, k) == ApplyTimes(st, ms, g)
       <==> (forall name :: SameSum(ms, k, g, name)) && ((k == 0 <==> g == 0) || Holds(st, ms))
  {
    if k > 0 && g > 0 {
      SameWhenApplied(st, ms, k, g);
    } else if k > 0 {
      SameAsBefore(st, ms, k);
      SumSymmetric(ms, k);
    } else if g > 0 {
      SameAsBefore(st, ms, g);
    } else {
      assert forall name :: SameSum(ms, 0, 0, name);
    }
  }

  lemma SumSymmetric(ms: seq<Metric>, k: nat)
    requires AllComplete(ms)
    ensures forall name :: SameSum(ms, k, 0, name) <==> SameSum(ms, 0, k, name)
  {
    forall name ensures SameSum(ms, k, 0, name) <==> SameSum(ms, 0, k, name) {
      Negated(k * SumOfDeltas(ms, name));
      assert (0 - k) * SumOfDeltas(ms, name) == -(k * SumOfDeltas(ms, name));
    }
  }

  lemma Negated(x: int)
    ensures x % TWO_64 == 0 <==> (-x) % TWO_64 == 0
  {
  }
}
