/** The PostgreSQL repository (internal/repository/postgresstorage.go): the metrics table as its
    statements change it, transactions, and retries with unknown commit outcomes. */
module Postgres {
  import opened Options
  import opened Metrics
  import opened MetricStore
  import opened Retry

  // ---------------------------------------------------------------------------
  // The table
  // ---------------------------------------------------------------------------

  datatype Kind = GaugeRow | CounterRow

  /** The primary key (id, type). */
  datatype Key = Key(id: string, kind: Kind)

  /** Both columns may be NULL. */
  datatype Row = Row(total: Option<int64>, value: Option<Float64>)

  type Table = map<Key, Row>

  /** numeric_value_out_of_range: BIGINT addition does not wrap. */
  const OUT_OF_RANGE := "22003"

  /** character_not_in_repertoire: TEXT cannot hold a NUL, and no statement can be given one. */
  const NOT_TEXT := "22021"

  /** program_limit_exceeded: the primary key's index has no room for very long names. */
  const TOO_LONG := "54000"

  predicate IsText(name: string) {
    '\0' !in name
  }

  /** fits tells which names the index takes; how long they may be depends on how well they compress. */
  predicate Storable(fits: string -> bool, name: string) {
    IsText(name) && fits(name)
  }

  function NameError(name: string): Error {
    PgError(if IsText(name) then TOO_LONG else NOT_TEXT)
  }

  type Updated = Result<Table, Error>

  /** INSERT ... ON CONFLICT (id, type) DO UPDATE SET value = EXCLUDED.value */
  function UpsertGauge(fits: string -> bool, t: Table, id: string, value: Float64): Updated {
    var key := Key(id, GaugeRow);
    if !Storable(fits, id) then Err(NameError(id))
    else Ok(t[key := Row(if key in t then t[key].total else None, Some(value))])
  }

  /** ... DO UPDATE SET total = metrics.total + EXCLUDED.total. NULL plus anything is NULL;
      a sum outside BIGINT is an error. */
  function UpsertCounter(fits: string -> bool, t: Table, id: string, delta: int64): Updated {
    var key := Key(id, CounterRow);
    if !Storable(fits, id) then Err(NameError(id))
    else if key !in t then Ok(t[key := Row(Some(delta), None)])
    else match t[key].total
         case None => Ok(t)
         case Some(total) =>
           if FitsInt64(total + delta) then Ok(t[key := t[key].(total := Some(total + delta))])
           else Err(PgError(OUT_OF_RANGE))
  }

  function UpsertMetric(fits: string -> bool, t: Table, m: Metric): Updated
    requires Complete(m)
  {
    if m.mtype == GAUGE then UpsertGauge(fits, t, m.id, m.value.value)
    else if m.mtype == COUNTER then UpsertCounter(fits, t, m.id, m.delta.value)
    else Ok(t)
  }

  /** One transaction: all statements or, after the first error, none. */
  function Transact(fits: string -> bool, t: Table, ms: seq<Metric>): Updated
    requires AllComplete(ms)
    decreases |ms|
  {
    if ms == [] then Ok(t)
    else match UpsertMetric(fits, t, ms[0])
         case Err(error) => Err(error)
         case Ok(next) => Transact(fits, next, ms[1..])
  }

  // ---------------------------------------------------------------------------
  // Refinement of the in-memory store
  // ---------------------------------------------------------------------------

  /** The table shows this store: the same names in each kind, each row with its own column filled. */
  ghost predicate Refines(t: Table, st: Store) {
    && (forall id :: Key(id, GaugeRow) in t <==> id in st.gauges)
    && (forall id :: Key(id, CounterRow) in t <==> id in st.counters)
    && (forall id | id in st.gauges :: t[Key(id, GaugeRow)].value == Some(st.gauges[id]))
    && (forall id | id in st.counters :: t[Key(id, CounterRow)].total == Some(st.counters[id]))
  }

  /** The table refuses the metric: its name cannot be stored, or its total would leave the range of BIGINT. */
  predicate RefusesOne(fits: string -> bool, st: Store, m: Metric)
    requires Complete(m)
  {
    || ((m.mtype == GAUGE || m.mtype == COUNTER) && !Storable(fits, m.id))
    || (m.mtype == COUNTER && !FitsInt64(Total(st, m.id) + m.delta.value))
  }

  /** It refuses some metric of the batch, reached through the ones before it. */
  ghost predicate Refuses(fits: string -> bool, st: Store, ms: seq<Metric>)
    requires AllComplete(ms)
  {
    exists i | 0 <= i < |ms| :: RefusesOne(fits, Apply(st, ms[..i]), ms[i])
  }

  lemma UpsertRefines(fits: string -> bool, t: Table, st: Store, m: Metric)
    requires Refines(t, st) && Complete(m)
    ensures UpsertMetric(fits, t, m).Ok? <==> !RefusesOne(fits, st, m)
    ensures UpsertMetric(fits, t, m).Ok? ==> Refines(UpsertMetric(fits, t, m).get, Put(st, m))
    ensures UpsertMetric(fits, t, m).Err? ==> !IsRetriablePGError(UpsertMetric(fits, t, m).error)
  {
    if m.mtype == COUNTER {
      assert Key(m.id, CounterRow) in t <==> m.id in st.counters;
    }
  }

  lemma RefusesHead(fits: string -> bool, st: Store, ms: seq<Metric>)
    requires AllComplete(ms) && ms != []
    ensures Refuses(fits, st, ms) <==> RefusesOne(fits, st, ms[0]) || Refuses(fits, Put(st, ms[0]), ms[1..])
  {
    forall i | 0 < i < |ms|
      ensures Apply(st, ms[..i]) == Apply(Put(st, ms[0]), ms[1..][..i - 1])
    {
      assert ms[..i][0] == ms[0] && ms[..i][1..] == ms[1..][..i - 1];
    }
    assert ms[..0] == [];
    if Refuses(fits, Put(st, ms[0]), ms[1..]) {
      var i :| 0 <= i < |ms[1..]| && RefusesOne(fits, Apply(Put(st, ms[0]), ms[1..][..i]), ms[1..][i]);
      assert ms[i + 1] == ms[1..][i] && ms[1..][..i + 1 - 1] == ms[1..][..i];
    }
    if Refuses(fits, st, ms) {
      var i :| 0 <= i < |ms| && RefusesOne(fits, Apply(st, ms[..i]), ms[i]);
      if i > 0 {
        assert ms[1..][i - 1] == ms[i];
      }
    }
  }

  /** A transaction succeeds exactly when the table refuses no metric of it, and then does what
      MemStorage does with the batch; otherwise it fails, and is not tried again. */
  lemma {:induction false} TransactRefines(fits: string -> bool, t: Table, st: Store, ms: seq<Metric>)
    requires Refines(t, st) && AllComplete(ms)
    ensures Transact(fits, t, ms).Ok? <==> !Refuses(fits, st, ms)
    ensures Transact(fits, t, ms).Ok? ==> Refines(Transact(fits, t, ms).get, Apply(st, ms))
    ensures Transact(fits, t, ms).Err? ==> !IsRetriablePGError(Transact(fits, t, ms).error)
    decreases |ms|
  {
    if ms != [] {
      UpsertRefines(fits, t, st, ms[0]);
      RefusesHead(fits, st, ms);
      if UpsertMetric(fits, t, ms[0]).Ok? {
        TransactRefines(fits, UpsertMetric(fits, t, ms[0]).get, Put(st, ms[0]), ms[1..]);
      }
    }
  }

  // ---------------------------------------------------------------------------
  // Operations
  // ---------------------------------------------------------------------------

  datatype Command =
    | UpdateGauge(name: string, value: Float64)
    | UpdateCounter(name: string, delta: int64)
    | UpdateMetrics(metrics: seq<Metric>)
    | GetGauge(name: string)
    | GetCounter(name: string)
    | Snapshot

  datatype Reply = Done | TotalIs(total: int64) | ValueIs(value: Float64) | All(store: Store) | Failed(error: Error)

  predicate CommandOk(c: Command) {
    c.UpdateMetrics? ==> AllComplete(c.metrics)
  }

  /** The same command on the in-memory store, which never fails but for a missing name. */
  function MemReply(st: Store, c: Command): (Store, Reply)
    requires CommandOk(c)
  {
    match c
    case UpdateGauge(name, value) => (SetGauge(st, name, value), Done)
    case UpdateCounter(name, delta) =>
      var next := AddCounter(st, name, delta);
      (next, TotalIs(Total(next, name)))
    case UpdateMetrics(metrics) => (Apply(st, metrics), Done)
    case GetGauge(name) => (st, if name in st.gauges then ValueIs(st.gauges[name]) else Failed(MetricNotFound))
    case GetCounter(name) => (st, if name in st.counters then TotalIs(st.counters[name]) else Failed(MetricNotFound))
    case Snapshot => (st, All(st))
  }

  /** What the command writes, as a batch. */
  function Writes(c: Command): seq<Metric> {
    match c
    case UpdateGauge(name, value) => [GaugeMetric(name, value)]
    case UpdateCounter(name, delta) => [CounterMetric(name, delta)]
    case UpdateMetrics(metrics) => metrics
    case _ => []
  }

  /** The table refuses the command, be it only because no query can ask for the name. */
  ghost predicate RefusesCommand(fits: string -> bool, st: Store, c: Command)
    requires CommandOk(c)
  {
    if c.GetGauge? || c.GetCounter? then !IsText(c.name) else AllComplete(Writes(c)) && Refuses(fits, st, Writes(c))
  }

  /** The effect of one completed execution of the command's statements. */
  function Effect(fits: string -> bool, t: Table, c: Command): Updated
    requires CommandOk(c)
  {
    match c
    case UpdateGauge(name, value) => UpsertGauge(fits, t, name, value)
    case UpdateCounter(name, delta) => UpsertCounter(fits, t, name, delta)
    case UpdateMetrics(metrics) => Transact(fits, t, metrics)
    case GetGauge(name) => if IsText(name) then Ok(t) else Err(NameError(name))
    case GetCounter(name) => if IsText(name) then Ok(t) else Err(NameError(name))
    case Snapshot => Ok(t)
  }

  /** What happened to one attempt, besides a refusal: nothing; an error that left no trace; or
      an error although the statements had taken effect. A read cannot tell the last two apart. */
  datatype Fault = NoFault | RolledBack(error: Error) | CommittedThenLost(error: Error)

  /** Scanning a NULL into a plain variable is an error of the driver. */
  const NULL_SCAN: Error := OtherError

  lemma OneWrite(fits: string -> bool, st: Store, m: Metric)
    requires Complete(m)
    ensures Refuses(fits, st, [m]) <==> RefusesOne(fits, st, m)
  {
    assert [m][..0] == [] && [m][0] == m;
  }

  lemma EffectRefines(fits: string -> bool, t: Table, st: Store, c: Command)
    requires Refines(t, st) && CommandOk(c)
    ensures Effect(fits, t, c).Ok? <==> !RefusesCommand(fits, st, c)
    ensures Effect(fits, t, c).Ok? ==> Refines(Effect(fits, t, c).get, MemReply(st, c).0)
    ensures Effect(fits, t, c).Err? ==> !IsRetriablePGError(Effect(fits, t, c).error)
  {
    match c
    case UpdateGauge(name, value) =>
      UpsertRefines(fits, t, st, GaugeMetric(name, value));
      OneWrite(fits, st, GaugeMetric(name, value));
    case UpdateCounter(name, delta) =>
      UpsertRefines(fits, t, st, CounterMetric(name, delta));
      OneWrite(fits, st, CounterMetric(name, delta));
    case UpdateMetrics(metrics) => TransactRefines(fits, t, st, metrics);
    case _ =>
  }

  ghost function Ids(t: Table): (ids: set<string>)
    ensures forall key | key in t :: key.id in ids
  {
    set key | key in t :: key.id
  }

  predicate HasGauge(t: Table, id: string) {
    Key(id, GaugeRow) in t && t[Key(id, GaugeRow)].value.Some?
  }

  predicate HasCounter(t: Table, id: string) {
    Key(id, CounterRow) in t && t[Key(id, CounterRow)].total.Some?
  }

  /** The rows whose own column is filled. */
  ghost function StoreOf(t: Table): (st: Store)
    ensures forall id :: id in st.gauges <==> HasGauge(t, id)
    ensures forall id :: id in st.counters <==> HasCounter(t, id)
    ensures forall id | id in st.gauges && HasGauge(t, id) :: st.gauges[id] == t[Key(id, GaugeRow)].value.value
    ensures forall id | id in st.counters && HasCounter(t, id) :: st.counters[id] == t[Key(id, CounterRow)].total.value
  {
    assert forall id | HasGauge(t, id) :: Key(id, GaugeRow).id in Ids(t);
    assert forall id | HasCounter(t, id) :: Key(id, CounterRow).id in Ids(t);
    Store(map id | id in Ids(t) && HasGauge(t, id) :: t[Key(id, GaugeRow)].value.value,
          map id | id in Ids(t) && HasCounter(t, id) :: t[Key(id, CounterRow)].total.value)
  }

  function CounterReply(t: Table, name: string): Reply {
    var key := Key(name, CounterRow);
    if key !in t then Failed(MetricNotFound)
    else if t[key].total.Some? then TotalIs(t[key].total.value)
    else Failed(NULL_SCAN)
  }

  function GaugeReply(t: Table, name: string): Reply {
    var key := Key(name, GaugeRow);
    if key !in t then Failed(MetricNotFound)
    else if t[key].value.Some? then ValueIs(t[key].value.value)
    else Failed(NULL_SCAN)
  }

  ghost function ReplyFrom(t: Table, c: Command): Reply {
    match c
    case UpdateGauge(_, _) => Done
    case UpdateMetrics(_) => Done
    case UpdateCounter(name, _) => CounterReply(t, name)
    case GetGauge(name) => GaugeReply(t, name)
    case GetCounter(name) => CounterReply(t, name)
    case Snapshot => All(StoreOf(t))
  }

  /** One execution without faults: the new table and the answer. */
  ghost function Answer(fits: string -> bool, t: Table, c: Command): (Table, Reply)
    requires CommandOk(c)
  {
    match Effect(fits, t, c)
    case Err(error) => (t, Failed(error))
    case Ok(next) => (next, ReplyFrom(next, c))
  }

  lemma CounterReplyRefines(t: Table, st: Store, name: string)
    requires Refines(t, st)
    ensures CounterReply(t, name) == if name in st.counters then TotalIs(st.counters[name]) else Failed(MetricNotFound)
  {
    assert Key(name, CounterRow) in t <==> name in st.counters;
  }

  lemma GaugeReplyRefines(t: Table, st: Store, name: string)
    requires Refines(t, st)
    ensures GaugeReply(t, name) == if name in st.gauges then ValueIs(st.gauges[name]) else Failed(MetricNotFound)
  {
    assert Key(name, GaugeRow) in t <==> name in st.gauges;
  }

  lemma TotalReplyRefines(next: Table, st: Store, name: string, delta: int64)
    requires Refines(next, AddCounter(st, name, delta))
    ensures CounterReply(next, name) == TotalIs(Total(AddCounter(st, name, delta), name))
  {
    CounterReplyRefines(next, AddCounter(st, name, delta), name);
  }

  lemma ReplyRefines(next: Table, st: Store, after: Store, c: Command)
    requires CommandOk(c) && Refines(next, after) && MemReply(st, c).0 == after
    ensures ReplyFrom(next, c) == MemReply(st, c).1
  {
    match c
    case UpdateCounter(name, delta) => TotalReplyRefines(next, st, name, delta);
    case GetCounter(name) => CounterReplyRefines(next, st, name);
    case GetGauge(name) => GaugeReplyRefines(next, st, name);
    case Snapshot => RefinedStore(next, st);
    case UpdateGauge(_, _) =>
    case UpdateMetrics(_) =>
  }

  lemma RefinedStore(t: Table, st: Store)
    requires Refines(t, st)
    ensures StoreOf(t) == st
  {
    var got := StoreOf(t);
    assert got.gauges == st.gauges && got.counters == st.counters;
  }

  /** A table that refines a store answers every command as the store does, and keeps refining it,
      exactly when it does not refuse the command; otherwise it is left as it was. */
  lemma AnswerRefines(fits: string -> bool, t: Table, st: Store, c: Command)
    requires Refines(t, st) && CommandOk(c)
    ensures !RefusesCommand(fits, st, c) ==>
              Refines(Answer(fits, t, c).0, MemReply(st, c).0) && Answer(fits, t, c).1 == MemReply(st, c).1
    ensures RefusesCommand(fits, st, c) ==>
              && Answer(fits, t, c).0 == t && Answer(fits, t, c).1 != MemReply(st, c).1
              && Answer(fits, t, c).1.Failed? && !IsRetriablePGError(Answer(fits, t, c).1.error)
  {
    EffectRefines(fits, t, st, c);
    if Effect(fits, t, c).Ok? {
      ReplyRefines(Effect(fits, t, c).get, st, MemReply(st, c).0, c);
    }
  }

  /** The gauge rows read so far are all but the remaining ones. */
  ghost predicate SeenGauges(t: Table, rest: set<Key>, gauges: map<string, Float64>) {
    && (forall id :: id in gauges <==> HasGauge(t, id) && Key(id, GaugeRow) !in rest)
    && (forall id | id in gauges && HasGauge(t, id) :: gauges[id] == t[Key(id, GaugeRow)].value.value)
  }

  ghost predicate SeenCounters(t: Table, rest: set<Key>, counters: map<string, int64>) {
    && (forall id :: id in counters <==> HasCounter(t, id) && Key(id, CounterRow) !in rest)
    && (forall id | id in counters && HasCounter(t, id) :: counters[id] == t[Key(id, CounterRow)].total.value)
  }

  lemma SeeGauge(t: Table, rest: set<Key>, gauges: map<string, Float64>, key: Key)
    requires SeenGauges(t, rest, gauges) && key in t && key in rest
    ensures SeenGauges(t, rest - {key},
              if key.kind == GaugeRow && t[key].value.Some? then gauges[key.id := t[key].value.value] else gauges)
  {
    assert key == Key(key.id, key.kind);
  }

  lemma SeeCounter(t: Table, rest: set<Key>, counters: map<string, int64>, key: Key)
    requires SeenCounters(t, rest, counters) && key in t && key in rest
    ensures SeenCounters(t, rest - {key},
              if key.kind == CounterRow && t[key].total.Some? then counters[key.id := t[key].total.value] else counters)
  {
    assert key == Key(key.id, key.kind);
  }

  lemma AllGaugesSeen(t: Table, gauges: map<string, Float64>)
    requires SeenGauges(t, {}, gauges)
    ensures StoreOf(t).gauges == gauges
  {
  }

  lemma AllCountersSeen(t: Table, counters: map<string, int64>)
    requires SeenCounters(t, {}, counters)
    ensures StoreOf(t).counters == counters
  {
  }

  predicate IsWrite(c: Command) {
    c.UpdateGauge? || c.UpdateCounter? || c.UpdateMetrics?
  }

  /** The in-memory store after the command took effect k times. */
  function Repeated(st: Store, c: Command, k: nat): Store
    requires CommandOk(c)
  {
    if k == 0 then st else MemReply(Repeated(st, c, k - 1), c).0
  }

  function ErrorOf(reply: Reply): Option<Error> {
    if reply.Failed? then Some(reply.error) else None
  }

  /** How a command fares that took effect k times before: whether the table refuses it, and if not, what the
      in-memory store would say. */
  datatype Course = Course(refused: nat -> bool, reply: nat -> Reply)

  ghost function CourseOf(fits: string -> bool, c: Command, st: Store): Course
    requires CommandOk(c)
  {
    Course((k: nat) => RefusesCommand(fits, Repeated(st, c, k), c), (k: nat) => MemReply(Repeated(st, c, k), c).1)
  }

  /** states(k) is the store after the command took effect k times. */
  ghost predicate Fares(fits: string -> bool, c: Command, states: nat -> Store, course: Course, k: nat)
    requires CommandOk(c)
  {
    && (course.refused(k) <==> RefusesCommand(fits, states(k), c))
    && (states(k + 1), course.reply(k)) == MemReply(states(k), c)
  }

  ghost predicate Governs(fits: string -> bool, c: Command, states: nat -> Store, course: Course)
    requires CommandOk(c)
  {
    forall k: nat :: Fares(fits, c, states, course, k)
  }

  lemma RepeatedGoverns(fits: string -> bool, c: Command, st: Store, states: nat -> Store)
    requires CommandOk(c) && forall k: nat :: states(k) == Repeated(st, c, k)
    ensures Governs(fits, c, states, CourseOf(fits, c, st))
  {
  }

  lemma WritesNeverFail(fits: string -> bool, c: Command, st: Store)
    requires CommandOk(c) && IsWrite(c)
    ensures NeverFails(CourseOf(fits, c, st))
  {
  }

  ghost predicate NeverFails(course: Course) {
    forall k :: !course.reply(k).Failed?
  }

  // Retrying a command. faults(i) is what happens to attempt i, before(i) the context's error ahead of it and
  // during(i) the error that interrupts the wait after it.

  /** How often the first n attempts made the command take effect, which the caller cannot see. */
  function Took(course: Course, faults: nat -> Fault, n: nat): nat {
    if n == 0 then 0
    else
      var before := Took(course, faults, n - 1);
      if faults(n - 1).RolledBack? || course.refused(before) then before else before + 1
  }

  /** What an attempt comes to: an error that left no trace, a refusal, an error although the command took effect,
      or the answer. */
  predicate Outcome(course: Course, fault: Fault, took: nat, result: Option<Error>) {
    if fault.RolledBack? then result == Some(fault.error)
    else if course.refused(took) then result.Some? && !IsRetriablePGError(result.value)
    else if fault.CommittedThenLost? then result == Some(fault.error)
    else result == ErrorOf(course.reply(took))
  }

  predicate Outcomes(course: Course, faults: nat -> Fault, results: seq<Option<Error>>) {
    forall i {:trigger results[i]} | 0 <= i < |results| :: Outcome(course, faults(i), Took(course, faults, i), results[i])
  }

  ghost predicate Trying(course: Course, faults: nat -> Fault, before: nat -> Option<Error>,
                         during: nat -> Option<Error>, results: seq<Option<Error>>, waits: seq<nat>)
  {
    Waited(before, during, IsRetriablePGError, DELAYS, results, waits) && Outcomes(course, faults, results)
  }

  /** What the caller gets in the end: the trace of these attempts, and a reply only after a success. */
  ghost predicate Executed(course: Course, faults: nat -> Fault, before: nat -> Option<Error>,
                           during: nat -> Option<Error>, reply: Reply, t: Trace)
  {
    && Paced(before, during, IsRetriablePGError, DELAYS, t) && Outcomes(course, faults, t.results)
    && if reply.Failed? then t.err == Some(reply.error)
       else
         var took := Took(course, faults, |t.results|);
         t.err.None? && took >= 1 && reply == course.reply(took - 1)
  }

  lemma {:induction false} TookBounds(course: Course, faults: nat -> Fault, n: nat)
    ensures Took(course, faults, n) <= n
  {
    if n > 0 {
      TookBounds(course, faults, n - 1);
    }
  }

  lemma {:induction false} NothingTook(course: Course, faults: nat -> Fault, results: seq<Option<Error>>, n: nat)
    requires NeverFails(course) && Outcomes(course, faults, results) && n <= |results|
    requires forall i {:trigger results[i]} | 0 <= i < n :: results[i].Some? && !faults(i).CommittedThenLost?
    ensures Took(course, faults, n) == 0
  {
    if n > 0 {
      NothingTook(course, faults, results, n - 1);
      NotTaken(course, faults, n - 1, results[n - 1]);
    }
  }

  lemma NotTaken(course: Course, faults: nat -> Fault, n: nat, result: Option<Error>)
    requires NeverFails(course) && Outcome(course, faults(n), Took(course, faults, n), result)
    requires result.Some? && !faults(n).CommittedThenLost?
    ensures Took(course, faults, n + 1) == Took(course, faults, n)
  {
  }

  /** A retried command takes effect at most four times; a write exactly once if it succeeds, and never if it
      fails, as long as no outcome gets lost. */
  lemma EffectsOf(course: Course, faults: nat -> Fault, before: nat -> Option<Error>, during: nat -> Option<Error>,
                  reply: Reply, t: Trace)
    requires Executed(course, faults, before, during, reply, t)
    ensures Took(course, faults, |t.results|) <= |t.results| <= 4
    ensures NeverFails(course) && (forall i | 0 <= i < |t.results| :: !faults(i).CommittedThenLost?) ==>
              Took(course, faults, |t.results|) == if reply.Failed? then 0 else 1
  {
    var n := |t.results|;
    TookBounds(course, faults, n);
    if n > 0 && NeverFails(course) && forall i | 0 <= i < n :: !faults(i).CommittedThenLost? {
      NothingTook(course, faults, t.results, n - 1);
      assert Outcome(course, faults(n - 1), Took(course, faults, n - 1), t.results[n - 1]);
    }
  }

  /** With nothing going wrong there is one attempt, and it answers as the in-memory store does, or the
      command is refused. */
  lemma FaultlessIsOnce(fits: string -> bool, c: Command, st: Store, faults: nat -> Fault, before: nat -> Option<Error>,
                        during: nat -> Option<Error>, reply: Reply, t: Trace)
    requires CommandOk(c) && Executed(CourseOf(fits, c, st), faults, before, during, reply, t)
    requires faults(0).NoFault? && before(0).None?
    ensures |t.results| == 1
    ensures if RefusesCommand(fits, st, c) then reply.Failed? && Took(CourseOf(fits, c, st), faults, 1) == 0
            else reply == MemReply(st, c).1 && Took(CourseOf(fits, c, st), faults, 1) == 1
  {
    var course := CourseOf(fits, c, st);
    assert Repeated(st, c, 0) == st && Took(course, faults, 0) == 0;
    assert course.refused(0) == RefusesCommand(fits, st, c) && course.reply(0) == MemReply(st, c).1;
    OneAttempt(course, faults, before, during, reply, t);
  }

  lemma OneAttempt(course: Course, faults: nat -> Fault, before: nat -> Option<Error>, during: nat -> Option<Error>,
                   reply: Reply, t: Trace)
    requires Executed(course, faults, before, during, reply, t) && faults(0).NoFault? && before(0).None?
    requires ErrorOf(course.reply(0)).Some? ==> !IsRetriablePGError(ErrorOf(course.reply(0)).value)
    ensures |t.results| == 1
    ensures if course.refused(0) then reply.Failed? && Took(course, faults, 1) == 0
            else reply == course.reply(0) && Took(course, faults, 1) == 1
  {
    assert |t.results| > 0 ==> Outcome(course, faults(0), Took(course, faults, 0), t.results[0]);
  }

  lemma StoppedBefore(course: Course, faults: nat -> Fault, before: nat -> Option<Error>,
                      during: nat -> Option<Error>, results: seq<Option<Error>>, waits: seq<nat>)
    requires Trying(course, faults, before, during, results, waits) && before(|waits|).Some?
    ensures Executed(course, faults, before, during, Failed(before(|waits|).value), Trace(results, waits, before(|waits|)))
  {
    AfterAttempt(before, during, IsRetriablePGError, DELAYS, results, waits, None);
  }

  /** One attempt's reply: its outcome and, if it is an answer, that of the store the command met. */
  predicate Tried(course: Course, fault: Fault, took: nat, reply: Reply) {
    && Outcome(course, fault, took, ErrorOf(reply))
    && (!reply.Failed? ==> !fault.RolledBack? && !course.refused(took) && reply == course.reply(took))
  }

  lemma StopsWithReply(course: Course, faults: nat -> Fault, before: nat -> Option<Error>, during: nat -> Option<Error>,
                       results: seq<Option<Error>>, waits: seq<nat>, reply: Reply)
    requires Trying(course, faults, before, during, results, waits) && before(|waits|).None?
    requires Tried(course, faults(|waits|), Took(course, faults, |waits|), reply)
    requires reply.Failed? && IsRetriablePGError(reply.error) ==> |waits| == |DELAYS|
    ensures Executed(course, faults, before, during, reply, Trace(results + [ErrorOf(reply)], waits, ErrorOf(reply)))
  {
    AfterAttempt(before, during, IsRetriablePGError, DELAYS, results, waits, ErrorOf(reply));
    assert Outcomes(course, faults, results + [ErrorOf(reply)]);
  }

  lemma StopsInterrupted(course: Course, faults: nat -> Fault, before: nat -> Option<Error>, during: nat -> Option<Error>,
                         results: seq<Option<Error>>, waits: seq<nat>, reply: Reply)
    requires Trying(course, faults, before, during, results, waits) && before(|waits|).None?
    requires Tried(course, faults(|waits|), Took(course, faults, |waits|), reply)
    requires reply.Failed? && IsRetriablePGError(reply.error) && |waits| < |DELAYS| && during(|waits|).Some?
    ensures Executed(course, faults, before, during, Failed(during(|waits|).value),
                     Trace(results + [ErrorOf(reply)], waits, during(|waits|)))
  {
    AfterAttempt(before, during, IsRetriablePGError, DELAYS, results, waits, ErrorOf(reply));
    assert Outcomes(course, faults, results + [ErrorOf(reply)]);
  }

  lemma GoesOn(course: Course, faults: nat -> Fault, before: nat -> Option<Error>, during: nat -> Option<Error>,
               results: seq<Option<Error>>, waits: seq<nat>, reply: Reply)
    requires Trying(course, faults, before, during, results, waits) && before(|waits|).None?
    requires Tried(course, faults(|waits|), Took(course, faults, |waits|), reply)
    requires reply.Failed? && IsRetriablePGError(reply.error) && |waits| < |DELAYS| && during(|waits|).None?
    ensures Trying(course, faults, before, during, results + [ErrorOf(reply)], waits + [DELAYS[|waits|]])
  {
    AfterAttempt(before, during, IsRetriablePGError, DELAYS, results, waits, ErrorOf(reply));
    assert Outcomes(course, faults, results + [ErrorOf(reply)]);
  }

  class PostgresStorage {
    const fits: string -> bool
    var table: Table

    constructor (fits: string -> bool)
      ensures this.fits == fits && table == map[] && Refines(table, EMPTY)
    {
      this.fits, table := fits, map[];
    }

    /** The body of the closure handed to retryDBOperation: one attempt at the command. */
    method Attempt(c: Command, fault: Fault) returns (reply: Reply)
      requires CommandOk(c)
      modifies this
      ensures fault.RolledBack? ==> table == old(table) && reply == Failed(fault.error)
      ensures fault.NoFault? ==> (table, reply) == Answer(fits, old(table), c)
      ensures fault.CommittedThenLost? ==>
                && table == Answer(fits, old(table), c).0
                && reply == if Effect(fits, old(table), c).Ok? then Failed(fault.error) else Answer(fits, old(table), c).1
    {
      if fault.RolledBack? {
        return Failed(fault.error);
      }
      match Effect(fits, table, c) {
        case Err(error) => return Failed(error);
        case Ok(next) => table := next;
      }
      if fault.CommittedThenLost? {
        return Failed(fault.error);
      }
      match c {
        case UpdateGauge(_, _) => reply := Done;
        case UpdateMetrics(_) => reply := Done;
        case UpdateCounter(name, _) => reply := CounterReply(table, name);
        case GetGauge(name) => reply := GaugeReply(table, name);
        case GetCounter(name) => reply := CounterReply(table, name);
        case Snapshot =>
          var store := ReadRows();
          reply := All(store);
      }
    }

    /** The rows in whatever order they come; a row whose own column is NULL is skipped. */
    method ReadRows() returns (store: Store)
      ensures store == StoreOf(table)
    {
      var gauges: map<string, Float64>, counters: map<string, int64> := map[], map[];
      var rest := table.Keys;
      while rest != {}
        invariant rest <= table.Keys
        invariant SeenGauges(table, rest, gauges) && SeenCounters(table, rest, counters)
      {
        var key :| key in rest;
        var row := table[key];
        SeeGauge(table, rest, gauges, key);
        SeeCounter(table, rest, counters, key);
        match key.kind {
          case GaugeRow =>
            if row.value.Some? {
              gauges := gauges[key.id := row.value.value];
            }
          case CounterRow =>
            if row.total.Some? {
              counters := counters[key.id := row.total.value];
            }
        }
        rest := rest - {key};
      }
      AllGaugesSeen(table, gauges);
      AllCountersSeen(table, counters);
      store := Store(gauges, counters);
    }

    /** One attempt at a command that took effect took times before. */
    method Try(c: Command, fault: Fault, ghost states: nat -> Store, ghost course: Course, ghost took: nat)
      returns (reply: Reply, ghost now: nat)
      requires CommandOk(c) && Governs(fits, c, states, course) && Refines(table, states(took))
      modifies this
      ensures Tried(course, fault, took, reply)
      ensures now == (if fault.RolledBack? || course.refused(took) then took else took + 1) && Refines(table, states(now))
    {
      assert Fares(fits, c, states, course, took);
      now := if fault.RolledBack? || course.refused(took) then took else took + 1;
      AnswerRefines(fits, table, states(took), c);
      EffectRefines(fits, table, states(took), c);
      reply := Attempt(c, fault);
    }

    /** retryDBOperation around the attempts: the table shows the command's effect as often as it took. */
    method RetryDBOperation(c: Command, faults: nat -> Fault, before: nat -> Option<Error>, during: nat -> Option<Error>,
                            ghost states: nat -> Store, ghost course: Course)
      returns (reply: Reply, t: Trace)
      requires CommandOk(c) && Governs(fits, c, states, course) && Refines(table, states(0))
      modifies this
      ensures Executed(course, faults, before, during, reply, t)
      ensures Refines(table, states(Took(course, faults, |t.results|)))
    {
      var results: seq<Option<Error>>, waits: seq<nat> := [], [];
      ghost var took: nat := 0;
      for attempt := 0 to |DELAYS| + 1
        invariant attempt == |waits| && Trying(course, faults, before, during, results, waits)
        invariant took == Took(course, faults, attempt) && Refines(table, states(took))
      {
        if before(attempt).Some? {
          StoppedBefore(course, faults, before, during, results, waits);
          return Failed(before(attempt).value), Trace(results, waits, before(attempt));
        }
        ghost var now;
        reply, now := Try(c, faults(attempt), states, course, took);
        assert now == Took(course, faults, attempt + 1);
        took := now;
        var result := ErrorOf(reply);
        if result.None? || !IsRetriablePGError(result.value) || attempt == |DELAYS| {
          StopsWithReply(course, faults, before, during, results, waits, reply);
          return reply, Trace(results + [result], waits, result);
        }
        if during(attempt).Some? {
          StopsInterrupted(course, faults, before, during, results, waits, reply);
          return Failed(during(attempt).value), Trace(results + [result], waits, during(attempt));
        }
        GoesOn(course, faults, before, during, results, waits, reply);
        results, waits := results + [result], waits + [DELAYS[attempt]];
      }
      assert false;
    }

    /** A command on a table that refines a store, with whatever goes wrong. */
    method Execute(c: Command, faults: nat -> Fault, before: nat -> Option<Error>, during: nat -> Option<Error>,
                   ghost st: Store)
      returns (reply: Reply, t: Trace)
      requires CommandOk(c) && Refines(table, st)
      modifies this
      ensures Executed(CourseOf(fits, c, st), faults, before, during, reply, t)
      ensures Refines(table, Repeated(st, c, Took(CourseOf(fits, c, st), faults, |t.results|)))
    {
      ghost var states := (k: nat) => Repeated(st, c, k);
      RepeatedGoverns(fits, c, st, states);
      reply, t := RetryDBOperation(c, faults, before, during, states, CourseOf(fits, c, st));
    }
  }

  // ---------------------------------------------------------------------------
  // Whole runs
  // ---------------------------------------------------------------------------

  ghost function TableReplies(fits: string -> bool, t: Table, cs: seq<Command>): seq<Reply>
    requires forall i | 0 <= i < |cs| :: CommandOk(cs[i])
    decreases |cs|
  {
    if cs == [] then []
    else [Answer(fits, t, cs[0]).1] + TableReplies(fits, Answer(fits, t, cs[0]).0, cs[1..])
  }

  function MemReplies(st: Store, cs: seq<Command>): seq<Reply>
    requires forall i | 0 <= i < |cs| :: CommandOk(cs[i])
    decreases |cs|
  {
    if cs == [] then [] else [MemReply(st, cs[0]).1] + MemReplies(MemReply(st, cs[0]).0, cs[1..])
  }

  /** No command of the sequence, reached through the ones before it, is refused. */
  ghost predicate NeverRefused(fits: string -> bool, st: Store, cs: seq<Command>)
    requires forall i | 0 <= i < |cs| :: CommandOk(cs[i])
    decreases |cs|
  {
    cs != [] ==> !RefusesCommand(fits, st, cs[0]) && NeverRefused(fits, MemReply(st, cs[0]).0, cs[1..])
  }

  /** Over any sequence of commands the table and the in-memory store answer alike if and only if no
      counter leaves the range of BIGINT on the way, every name written can be stored and every name
      asked for can be put in a query. */
  lemma {:induction false} RepliesAgree(fits: string -> bool, t: Table, st: Store, cs: seq<Command>)
    requires Refines(t, st) && forall i | 0 <= i < |cs| :: CommandOk(cs[i])
    ensures TableReplies(fits, t, cs) == MemReplies(st, cs) <==> NeverRefused(fits, st, cs)
    decreases |cs|
  {
    if cs != [] {
      AnswerRefines(fits, t, st, cs[0]);
      var next, memNext := Answer(fits, t, cs[0]), MemReply(st, cs[0]);
      var tail, memTail := TableReplies(fits, next.0, cs[1..]), MemReplies(memNext.0, cs[1..]);
      assert TableReplies(fits, t, cs)[0] == next.1 && TableReplies(fits, t, cs)[1..] == tail;
      assert MemReplies(st, cs)[0] == memNext.1 && MemReplies(st, cs)[1..] == memTail;
      if !RefusesCommand(fits, st, cs[0]) {
        RepliesAgree(fits, next.0, memNext.0, cs[1..]);
      }
    }
  }

  /** An input for each: a counter at the end of its range wraps in memory and is refused by the table;
      the name of one NUL character is kept in memory and refused by the table. */
  lemma DisagreeOnOverflow(fits: string -> bool)
    requires fits("c")
    ensures var st := Store(map[], map["c" := 0x7fff_ffff_ffff_ffff]);
            var t: Table := map[Key("c", CounterRow) := Row(Some(0x7fff_ffff_ffff_ffff), None)];
            && Refines(t, st)
            && Answer(fits, t, UpdateCounter("c", 1)) == (t, Failed(PgError("22003")))
            && MemReply(st, UpdateCounter("c", 1)).1 == TotalIs(-0x8000_0000_0000_0000)
  {
    assert Wrap64(0x8000_0000_0000_0000) == -0x8000_0000_0000_0000;
  }

  lemma DisagreeOnNul(fits: string -> bool, value: Float64)
    ensures Answer(fits, map[], UpdateGauge("\0", value)) == (map[], Failed(PgError("22021")))
    ensures MemReply(EMPTY, UpdateGauge("\0", value)).1 == Done
  {
    assert "\0"[0] == '\0';
  }

  /** A name the table refuses, whatever it holds: the error tells a NUL from a name that is too long; asking
      for a NUL fails too. */
  lemma RefusedNames(fits: string -> bool, t: Table, name: string, value: Float64, delta: int64)
    requires '\0' in name || !fits(name)
    ensures var refused := (t, Failed(PgError(if '\0' in name then "22021" else "54000")));
            && Answer(fits, t, UpdateGauge(name, value)) == refused
            && Answer(fits, t, UpdateCounter(name, delta)) == refused
            && ('\0' in name ==> Answer(fits, t, GetGauge(name)) == refused && Answer(fits, t, GetCounter(name)) == refused)
  {
  }

  /** A row whose total is NULL, in any table: an update is carried out, and adds nothing; neither it nor a read
      can give a total. */
  lemma NullTotalStays(fits: string -> bool, t: Table, name: string, delta: int64)
    requires Storable(fits, name) && Key(name, CounterRow) in t && t[Key(name, CounterRow)].total.None?
    ensures Effect(fits, t, UpdateCounter(name, delta)) == Ok(t)
    ensures Answer(fits, t, UpdateCounter(name, delta)) == (t, Failed(OtherError))
    ensures Answer(fits, t, GetCounter(name)) == (t, Failed(OtherError))
  {
  }

  /** A NULL value cannot be read either, but an update fills it. */
  lemma NullValueFills(fits: string -> bool, t: Table, name: string, value: Float64)
    requires Storable(fits, name) && Key(name, GaugeRow) in t && t[Key(name, GaugeRow)].value.None?
    ensures Answer(fits, t, GetGauge(name)) == (t, Failed(OtherError))
    ensures var filled := Answer(fits, t, UpdateGauge(name, value));
            filled.1 == Done && Answer(fits, filled.0, GetGauge(name)) == (filled.0, ValueIs(value))
  {
  }

  lemma {:induction false} RepeatedTimes(st: Store, ms: seq<Metric>, k: nat)
    requires AllComplete(ms)
    ensures Repeated(st, UpdateMetrics(ms), k) == ApplyTimes(st, ms, k)
  {
    if k > 0 {
      RepeatedTimes(st, ms, k - 1);
    }
  }

  /** A batch that took effect k times: gauges as if once, each counter grown by k times its summed deltas. */
  lemma RepeatedBatch(st: Store, ms: seq<Metric>, k: nat, name: string)
    requires AllComplete(ms)
    ensures var after := Repeated(st, UpdateMetrics(ms), k);
            && Total(after, name) == Wrap64(Total(st, name) + k * SumOfDeltas(ms, name))
            && after.gauges == if k == 0 then st.gauges else Apply(st, ms).gauges
  {
    RepeatedTimes(st, ms, k);
    TimesCounters(st, ms, k, name);
    if k > 0 {
      TimesGauges(st, ms, k);
    }
  }
}
