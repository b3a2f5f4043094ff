/** Two transports and what they do to the Server's store: the JSON validator (internal/server/transport/http/handler), the
    protobuf converters of the Agent (internal/agent/transport/grpc/converter.go) and of the Server
    (internal/server/transport/grpc/converter.go), and the handlers that apply a batch. */
module Transports {
  import opened Options
  import opened Metrics
  import opened MetricStore
  import opened InMemory
  import opened Persistence
  import opened Retry
  import Http

  // ---------------------------------------------------------------------------
  // One metric
  // ---------------------------------------------------------------------------

  const NOT_FOUND := 404

  function ValidateMetric(m: Metric): int {
    if m.id == "" then NOT_FOUND
    else if m.mtype == GAUGE then (if m.value.None? then Http.STATUS_BAD_REQUEST else Http.STATUS_OK)
    else if m.mtype == COUNTER then (if m.delta.None? then Http.STATUS_BAD_REQUEST else Http.STATUS_OK)
    else Http.STATUS_BAD_REQUEST
  }

  /** The protobuf message. Fields not set travel as zeros; the enum is open, so any number may arrive. */
  datatype ProtoMetric = ProtoMetric(id: string, mtype: int, delta: int64, value: Float64)

  const PROTO_GAUGE := 0
  const PROTO_COUNTER := 1
  const ZERO := Finite(0)

  /** An entry may be a nil pointer. */
  datatype Request = Request(metrics: seq<Option<ProtoMetric>>)

  datatype ConvertError = EmptyId | NilValue | NilDelta | UnknownType | NilMetric | NilRequest | At(index: nat, cause: ConvertError)

  function MetricToProto(m: Metric): Result<ProtoMetric, ConvertError> {
    if m.id == "" then Err(EmptyId)
    else if m.mtype == GAUGE then
      (if m.value.None? then Err(NilValue) else Ok(ProtoMetric(m.id, PROTO_GAUGE, 0, m.value.value)))
    else if m.mtype == COUNTER then
      (if m.delta.None? then Err(NilDelta) else Ok(ProtoMetric(m.id, PROTO_COUNTER, m.delta.value, ZERO)))
    else Err(UnknownType)
  }

  function MetricFromProto(p: Option<ProtoMetric>): Result<Metric, ConvertError> {
    if p.None? then Err(NilMetric)
    else if p.value.id == "" then Err(EmptyId)
    else if p.value.mtype == PROTO_GAUGE then Ok(GaugeMetric(p.value.id, p.value.value))
    else if p.value.mtype == PROTO_COUNTER then Ok(CounterMetric(p.value.id, p.value.delta))
    else Err(UnknownType)
  }

  /** What survives the wire: the field of the metric's own type. */
  function Essence(m: Metric): Metric
    requires ValidateMetric(m) == Http.STATUS_OK
  {
    if m.mtype == GAUGE then GaugeMetric(m.id, m.value.value) else CounterMetric(m.id, m.delta.value)
  }

  /** The Agent converts exactly what the JSON validator accepts, and the Server gets back the essence. */
  lemma MetricRoundTrip(m: Metric)
    ensures MetricToProto(m).Ok? <==> ValidateMetric(m) == Http.STATUS_OK
    ensures ValidateMetric(m) == Http.STATUS_OK ==> MetricFromProto(Some(MetricToProto(m).get)) == Ok(Essence(m))
  {
  }

  // ---------------------------------------------------------------------------
  // A batch
  // ---------------------------------------------------------------------------

  predicate AllValid(ms: seq<Metric>) {
    forall i | 0 <= i < |ms| :: ValidateMetric(ms[i]) == Http.STATUS_OK
  }

  /** Validation keeps UpdateMetrics from ever following a nil pointer. */
  lemma ValidIsComplete(ms: seq<Metric>)
    requires AllValid(ms)
    ensures AllComplete(ms)
  {
  }

  function Essences(ms: seq<Metric>): (es: seq<Metric>)
    requires AllValid(ms)
    ensures |es| == |ms|
    ensures forall i | 0 <= i < |es| :: es[i] == Essence(ms[i])
    ensures AllValid(es)
  {
    if ms == [] then [] else [Essence(ms[0])] + Essences(ms[1..])
  }

  lemma {:induction false} EssencesApply(st: Store, ms: seq<Metric>)
    requires AllValid(ms)
    ensures AllComplete(ms) && AllComplete(Essences(ms))
    ensures Apply(st, Essences(ms)) == Apply(st, ms)
    decreases |ms|
  {
    ValidIsComplete(ms);
    ValidIsComplete(Essences(ms));
    if ms != [] {
      assert Put(st, Essence(ms[0])) == Put(st, ms[0]);
      EssencesApply(Put(st, ms[0]), ms[1..]);
      assert Essences(ms)[1..] == Essences(ms[1..]);
    }
  }

  /** The index of the first metric the validator rejects, or the length. */
  function FirstInvalid(ms: seq<Metric>): (i: nat)
    ensures i <= |ms| && AllValid(ms[..i])
    ensures i < |ms| ==> ValidateMetric(ms[i]) != Http.STATUS_OK
  {
    if ms == [] || ValidateMetric(ms[0]) != Http.STATUS_OK then 0 else
      var i := FirstInvalid(ms[1..]) + 1;
      assert forall k | 0 < k < i :: ms[..i][k] == ms[1..][..i - 1][k - 1];
      i
  }

  lemma ValidBefore(ms: seq<Metric>, i: nat, k: nat)
    requires k < i <= |ms| && AllValid(ms[..i])
    ensures ValidateMetric(ms[k]) == Http.STATUS_OK
  {
    assert ms[..i][k] == ms[k];
  }

  lemma FirstInvalidIs(ms: seq<Metric>, i: nat)
    requires i <= |ms| && AllValid(ms[..i]) && (i < |ms| ==> ValidateMetric(ms[i]) != Http.STATUS_OK)
    ensures FirstInvalid(ms) == i
  {
    var j := FirstInvalid(ms);
    if j < i {
      ValidBefore(ms, i, j);
      assert false;
    } else if i < j {
      ValidBefore(ms, j, i);
      assert false;
    }
  }

  lemma AllValidIff(ms: seq<Metric>)
    ensures AllValid(ms) <==> FirstInvalid(ms) == |ms|
  {
    assert ms[..|ms|] == ms;
  }

  function Encoded(ms: seq<Metric>): (ps: seq<Option<ProtoMetric>>)
    requires AllValid(ms)
    ensures |ps| == |ms|
    ensures forall i | 0 <= i < |ps| :: ps[i] == Some(MetricToProto(ms[i]).get)
  {
    if ms == [] then [] else Encoded(ms[..|ms| - 1]) + [Some(MetricToProto(ms[|ms| - 1]).get)]
  }

  lemma EncodedSnoc(ms: seq<Metric>, i: nat)
    requires i < |ms| && AllValid(ms[..i]) && ValidateMetric(ms[i]) == Http.STATUS_OK
    ensures AllValid(ms[..i + 1])
    ensures Encoded(ms[..i + 1]) == Encoded(ms[..i]) + [Some(MetricToProto(ms[i]).get)]
  {
    assert ms[..i + 1] == ms[..i] + [ms[i]] && ms[..i + 1][..i] == ms[..i];
  }

  /** The Agent's converter stops at the first metric the validator would reject. */
  method RequestFromMetrics(ms: seq<Metric>) returns (r: Result<Request, ConvertError>)
    ensures r.Ok? <==> AllValid(ms)
    ensures r.Ok? ==> r.get == Request(Encoded(ms))
    ensures r.Err? ==>
              && r.error.At? && r.error.index == FirstInvalid(ms) < |ms|
              && MetricToProto(ms[r.error.index]) == Err(r.error.cause)
  {
    var protoMetrics: seq<Option<ProtoMetric>> := [];
    for i := 0 to |ms|
      invariant AllValid(ms[..i]) && protoMetrics == Encoded(ms[..i])
    {
      MetricRoundTrip(ms[i]);
      var converted := MetricToProto(ms[i]);
      if converted.Err? {
        FirstInvalidIs(ms, i);
        AllValidIff(ms);
        return Err(At(i, converted.error));
      }
      EncodedSnoc(ms, i);
      protoMetrics := protoMetrics + [Some(converted.get)];
    }
    assert ms[..|ms|] == ms;
    return Ok(Request(protoMetrics));
  }

  /** The entry's metric has its name, the type its number stands for, and the one field of that type. */
  lemma DecodedIs(p: ProtoMetric)
    ensures MetricFromProto(Some(p))
         == if p.id == "" then Err(EmptyId)
            else if p.mtype == 0 then Ok(Metric(p.id, "gauge", None, Some(p.value), ""))
            else if p.mtype == 1 then Ok(Metric(p.id, "counter", Some(p.delta), None, ""))
            else Err(UnknownType)
  {
  }

  predicate EntryOk(p: Option<ProtoMetric>) {
    p.Some? && p.value.id != "" && (p.value.mtype == PROTO_GAUGE || p.value.mtype == PROTO_COUNTER)
  }

  /** The Server's converter accepts any request whose entries are all there, named and of a known
      type; what it produces would also pass the JSON validator, in the same order. */
  method MetricsFromProto(rq: Option<Request>) returns (r: Result<seq<Metric>, ConvertError>)
    ensures r.Ok? <==> rq.Some? && forall i | 0 <= i < |rq.value.metrics| :: EntryOk(rq.value.metrics[i])
    ensures rq.None? ==> r == Err(NilRequest)
    ensures r.Err? && rq.Some? ==>
              && r.error.At? && r.error.index < |rq.value.metrics|
              && (forall k | 0 <= k < r.error.index :: EntryOk(rq.value.metrics[k]))
              && MetricFromProto(rq.value.metrics[r.error.index]) == Err(r.error.cause)
    ensures r.Ok? ==>
              && |r.get| == |rq.value.metrics| && AllValid(r.get)
              && forall i | 0 <= i < |r.get| :: Ok(r.get[i]) == MetricFromProto(rq.value.metrics[i])
  {
    if rq.None? {
      return Err(NilRequest);
    }
    var protoMetrics := rq.value.metrics;
    var metrics: seq<Metric> := [];
    for i := 0 to |protoMetrics|
      invariant |metrics| == i && AllValid(metrics)
      invariant forall k | 0 <= k < i ::
                  EntryOk(protoMetrics[k]) && Ok(metrics[k]) == MetricFromProto(protoMetrics[k])
    {
      var metric := MetricFromProto(protoMetrics[i]);
      if metric.Err? {
        return Err(At(i, metric.error));
      }
      metrics := metrics + [metric.get];
    }
    return Ok(metrics);
  }

  // ---------------------------------------------------------------------------
  // The handlers
  // ---------------------------------------------------------------------------

  /** What a batch makes of a store. */
  function Accepted(st: Store, ms: seq<Metric>): Store {
    if AllValid(ms) then
      ValidIsComplete(ms);
      Apply(st, ms)
    else st
  }

  function UpdatesStatus(ms: seq<Metric>, saved: bool): int {
    if !AllValid(ms) then
      AllValidIff(ms);
      ValidateMetric(ms[FirstInvalid(ms)])
    else if saved then Http.STATUS_OK
    else Http.STATUS_INTERNAL_ERROR
  }

  /** Named, of a known type, and with the field of that type set. */
  predicate Proper(m: Metric) {
    m.id != "" && ((m.mtype == "gauge" && m.value.Some?) || (m.mtype == "counter" && m.delta.Some?))
  }

  /** The answer to a batch: the first metric that is not proper decides, 404 if it has no name and 400 if
      something else is wrong with it; without one, 200 or, after a failed save, 500. */
  lemma StatusIs(ms: seq<Metric>, saved: bool)
    ensures AllValid(ms) <==> forall i | 0 <= i < |ms| :: Proper(ms[i])
    ensures AllValid(ms) ==> UpdatesStatus(ms, saved) == if saved then 200 else 500
    ensures forall i | 0 <= i < |ms| && !Proper(ms[i]) && forall k | 0 <= k < i :: Proper(ms[k]) ::
              UpdatesStatus(ms, saved) == if ms[i].id == "" then 404 else 400
  {
    forall i | 0 <= i < |ms| && !Proper(ms[i]) && forall k | 0 <= k < i :: Proper(ms[k])
      ensures UpdatesStatus(ms, saved) == if ms[i].id == "" then 404 else 400
    {
      assert ValidateMetric(ms[i]) != Http.STATUS_OK && !AllValid(ms);
      FirstInvalidIs(ms, i);
    }
  }

  /** POST /updates: validates every metric before it applies any. A failed save is answered with 500
      although the batch stays applied. */
  method UpdatesJSON(service: MetricsService, metrics: seq<Metric>, fault: DiskFault) returns (status: int)
    modifies service.repo, service.syncPersistence
    ensures service.repo.Contents() == Accepted(old(service.repo.Contents()), metrics)
    ensures status == UpdatesStatus(metrics, service.SyncWorks(service.repo.Contents(), fault))
    ensures if AllValid(metrics) then service.Synced(old(service.File()), service.repo.Contents(), fault)
            else service.File() == old(service.File())
  {
    for i := 0 to |metrics|
      invariant AllValid(metrics[..i])
    {
      status := ValidateMetric(metrics[i]);
      if status != Http.STATUS_OK {
        FirstInvalidIs(metrics, i);
        AllValidIff(metrics);
        return;
      }
      assert metrics[..i + 1] == metrics[..i] + [metrics[i]];
    }
    assert metrics[..|metrics|] == metrics;
    ValidIsComplete(metrics);
    var err := service.UpdateMetrics(metrics, fault);
    return if err.Some? then Http.STATUS_INTERNAL_ERROR else Http.STATUS_OK;
  }

  datatype Code = CodeOK | InvalidArgument(cause: ConvertError) | Internal

  predicate AllEntriesOk(rq: Option<Request>) {
    rq.Some? && forall i | 0 <= i < |rq.value.metrics| :: EntryOk(rq.value.metrics[i])
  }

  /** The request as the metrics it carries. */
  predicate Carries(rq: Option<Request>, ms: seq<Metric>) {
    && rq.Some? && |ms| == |rq.value.metrics| && AllValid(ms)
    && forall i | 0 <= i < |ms| :: Ok(ms[i]) == MetricFromProto(rq.value.metrics[i])
  }

  /** Metrics.UpdateMetrics of the gRPC service: converts the whole request before it applies any. A failed
      save is answered with Internal although the batch stays applied. */
  method UpdateMetricsRPC(service: MetricsService, rq: Option<Request>, fault: DiskFault)
    returns (code: Code, ghost ms: seq<Metric>)
    modifies service.repo, service.syncPersistence
    ensures code.InvalidArgument? <==> !AllEntriesOk(rq)
    ensures code.InvalidArgument? ==>
              service.repo.Contents() == old(service.repo.Contents()) && service.File() == old(service.File())
    ensures !code.InvalidArgument? ==>
              && Carries(rq, ms) && service.repo.Contents() == Accepted(old(service.repo.Contents()), ms)
              && service.Synced(old(service.File()), service.repo.Contents(), fault)
              && (code == CodeOK <==> service.SyncWorks(service.repo.Contents(), fault))
  {
    var metrics := MetricsFromProto(rq);
    if metrics.Err? {
      return InvalidArgument(metrics.error), [];
    }
    ValidIsComplete(metrics.get);
    var err := service.UpdateMetrics(metrics.get, fault);
    return if err.Some? then Internal else CodeOK, metrics.get;
  }

  // ---------------------------------------------------------------------------
  // From the Agent's batch to the Server's store
  // ---------------------------------------------------------------------------

  /** One attempt's way to the Server and back. */
  datatype Trip = Arrives | LostBefore(error: Error) | LostAfter(error: Error)

  /** How many of the first n attempts reached the Server. */
  function Reached(trips: nat -> Trip, n: nat): nat {
    if n == 0 then 0 else Reached(trips, n - 1) + if trips(n - 1).LostBefore? then 0 else 1
  }

  function Answer(trip: Trip, answer: Option<Error>): Option<Error> {
    if trip.Arrives? then answer else Some(trip.error)
  }

  function StatusError(status: int): Option<Error> {
    if status == Http.STATUS_OK then None else Some(UnexpectedStatus(status))
  }

  /** The store after the batch was accepted k times. */
  function AcceptedTimes(st: Store, ms: seq<Metric>, k: nat): Store {
    if AllValid(ms) then
      ValidIsComplete(ms);
      ApplyTimes(st, ms, k)
    else st
  }

  lemma AcceptedAgain(st: Store, ms: seq<Metric>, k: nat)
    ensures Accepted(AcceptedTimes(st, ms, k), ms) == AcceptedTimes(st, ms, k + 1)
    ensures AcceptedTimes(st, ms, 0) == st
  {
  }

  lemma {:induction false} AcceptedFirst(st: Store, ms: seq<Metric>, k: nat)
    requires AllValid(ms)
    ensures AllComplete(ms) && AcceptedTimes(Apply(st, ms), ms, k) == AcceptedTimes(st, ms, k + 1)
  {
    ValidIsComplete(ms);
    if k == 0 {
      assert ApplyTimes(st, ms, 0) == st;
    } else {
      AcceptedFirst(st, ms, k - 1);
    }
  }

  method PostOnce(service: MetricsService, ms: seq<Metric>, trip: Trip, fault: DiskFault) returns (result: Option<Error>)
    modifies service.repo, service.syncPersistence
    ensures service.repo.Contents()
         == if trip.LostBefore? then old(service.repo.Contents()) else Accepted(old(service.repo.Contents()), ms)
    ensures result == Answer(trip, StatusError(UpdatesStatus(ms, service.SyncWorks(service.repo.Contents(), fault))))
  {
    if trip.LostBefore? {
      return Some(trip.error);
    }
    var status := UpdatesJSON(service, ms, fault);
    return Answer(trip, StatusError(status));
  }

  /** What attempt i over HTTP returns, seen from the store the Server began with. */
  ghost function HTTPAnswer(sync: bool, st: Store, ms: seq<Metric>, trips: nat -> Trip, faults: nat -> DiskFault,
                            i: nat): Option<Error> {
    var now := AcceptedTimes(st, ms, Reached(trips, i + 1));
    Answer(trips(i), StatusError(UpdatesStatus(ms, SavesIfSync(sync, now, faults(i)))))
  }

  ghost function HTTPWorld(sync: bool, st: Store, ms: seq<Metric>, trips: nat -> Trip, faults: nat -> DiskFault,
                           during: nat -> Option<Error>): World {
    World((i: nat) => HTTPAnswer(sync, st, ms, trips, faults, i), NeverCancelled, during)
  }

  /** HTTPSender.Send against a Server: a batch JSON cannot encode is never sent; every attempt that arrives
      with a valid batch applies it again. Attempt i meets trips(i) and faults(i). */
  method SendOverHTTP(service: MetricsService, ms: seq<Metric>, trips: nat -> Trip, faults: nat -> DiskFault,
                      during: nat -> Option<Error>)
    returns (err: Option<Error>, t: Trace)
    modifies service.repo, service.syncPersistence
    ensures err.None? <==> t.err.None?
    ensures !AllFinite(ms) ==> err.Some? && t.results == []
    ensures AllFinite(ms) ==>
              Follows(HTTPWorld(service.syncPersistence != null, old(service.repo.Contents()), ms, trips, faults, during),
                      IsRetriableSendError, DELAYS, t)
    ensures service.repo.Contents() == AcceptedTimes(old(service.repo.Contents()), ms, Reached(trips, |t.results|))
  {
    ghost var st := service.repo.Contents();
    AcceptedAgain(st, ms, 0);
    if !AllFinite(ms) {
      return Some(OtherError), Trace([], [], Some(OtherError));
    }
    ghost var w := HTTPWorld(service.syncPersistence != null, st, ms, trips, faults, during);
    var results: seq<Option<Error>>, waits: seq<nat> := [], [];
    var attempt := 0;
    while true
      invariant attempt == |waits| && Going(w, IsRetriableSendError, DELAYS, results, waits)
      invariant service.repo.Contents() == AcceptedTimes(st, ms, Reached(trips, attempt))
      decreases |DELAYS| - attempt
    {
      AcceptedAgain(st, ms, Reached(trips, attempt));
      var result := PostOnce(service, ms, trips(attempt), faults(attempt));
      assert result == w.op(attempt);
      NextAttempt(w, IsRetriableSendError, DELAYS, results, waits);
      results := results + [result];
      if result.None? {
        return None, Trace(results, waits, None);
      }
      if attempt >= |DELAYS| || !IsRetriableSendError(result.value) {
        return Some(Wrapped(result.value)), Trace(results, waits, result);
      }
      var interrupted := during(attempt);
      if interrupted.Some? {
        return Some(Wrapped(interrupted.value)), Trace(results, waits, interrupted);
      }
      waits := waits + [DELAYS[attempt]];
      attempt := attempt + 1;
    }
  }

  const INTERNAL: Error := GrpcStatus(OtherCode(13))

  function CodeError(saved: bool): Option<Error> {
    if saved then None else Some(INTERNAL)
  }

  /** The gRPC way of a valid batch: the Server decodes the essence of every metric, which acts like the
      metric itself. */
  lemma EssenceCarried(ms: seq<Metric>, es: seq<Metric>, st: Store)
    requires AllValid(ms) && Carries(Some(Request(Encoded(ms))), es)
    ensures Accepted(st, es) == Accepted(st, ms)
  {
    forall i | 0 <= i < |ms| ensures es[i] == Essence(ms[i]) {
      MetricRoundTrip(ms[i]);
    }
    assert es == Essences(ms);
    EssencesApply(st, ms);
  }

  lemma EncodedOk(ms: seq<Metric>)
    requires AllValid(ms)
    ensures AllEntriesOk(Some(Request(Encoded(ms))))
  {
    forall i | 0 <= i < |ms| ensures EntryOk(Encoded(ms)[i]) {
      MetricRoundTrip(ms[i]);
    }
  }

  method CallOnce(service: MetricsService, ms: seq<Metric>, rq: Request, trip: Trip, fault: DiskFault)
    returns (result: Option<Error>)
    requires AllValid(ms) && rq == Request(Encoded(ms))
    modifies service.repo, service.syncPersistence
    ensures service.repo.Contents()
         == if trip.LostBefore? then old(service.repo.Contents()) else Accepted(old(service.repo.Contents()), ms)
    ensures result == Answer(trip, CodeError(service.SyncWorks(service.repo.Contents(), fault)))
  {
    if trip.LostBefore? {
      return Some(trip.error);
    }
    EncodedOk(ms);
    ghost var st := service.repo.Contents();
    var code, es := UpdateMetricsRPC(service, Some(rq), fault);
    EssenceCarried(ms, es, st);
    return Answer(trip, CodeError(code == CodeOK));
  }

  ghost function GRPCAnswer(sync: bool, st: Store, ms: seq<Metric>, trips: nat -> Trip, faults: nat -> DiskFault,
                            i: nat): Option<Error> {
    var now := AcceptedTimes(st, ms, Reached(trips, i + 1));
    Answer(trips(i), CodeError(SavesIfSync(sync, now, faults(i))))
  }

  ghost function GRPCWorld(sync: bool, st: Store, ms: seq<Metric>, trips: nat -> Trip, faults: nat -> DiskFault,
                           during: nat -> Option<Error>): World {
    World((i: nat) => GRPCAnswer(sync, st, ms, trips, faults, i), NeverCancelled, during)
  }

  /** GRPCSender.Send against a Server: an invalid batch is never sent, a valid one whatever its gauges. */
  method SendOverGRPC(service: MetricsService, ms: seq<Metric>, trips: nat -> Trip, faults: nat -> DiskFault,
                      during: nat -> Option<Error>)
    returns (err: Option<Error>, t: Trace)
    modifies service.repo, service.syncPersistence
    ensures err.None? <==> t.err.None?
    ensures !AllValid(ms) ==> err.Some? && t.results == []
    ensures AllValid(ms) ==>
              Follows(GRPCWorld(service.syncPersistence != null, old(service.repo.Contents()), ms, trips, faults, during),
                      IsRetriableGRPCError, DELAYS, t)
    ensures service.repo.Contents() == AcceptedTimes(old(service.repo.Contents()), ms, Reached(trips, |t.results|))
  {
    ghost var st := service.repo.Contents();
    AcceptedAgain(st, ms, 0);
    var rq := RequestFromMetrics(ms);
    if rq.Err? {
      return Some(OtherError), Trace([], [], Some(OtherError));
    }
    ghost var w := GRPCWorld(service.syncPersistence != null, st, ms, trips, faults, during);
    var results: seq<Option<Error>>, waits: seq<nat> := [], [];
    var attempt := 0;
    while true
      invariant attempt == |waits| && Going(w, IsRetriableGRPCError, DELAYS, results, waits)
      invariant service.repo.Contents() == AcceptedTimes(st, ms, Reached(trips, attempt))
      decreases |DELAYS| - attempt
    {
      AcceptedAgain(st, ms, Reached(trips, attempt));
      var result := CallOnce(service, ms, rq.get, trips(attempt), faults(attempt));
      assert result == w.op(attempt);
      NextAttempt(w, IsRetriableGRPCError, DELAYS, results, waits);
      results := results + [result];
      if result.None? {
        return None, Trace(results, waits, None);
      }
      if attempt >= |DELAYS| || !IsRetriableGRPCError(result.value) {
        return Some(Wrapped(result.value)), Trace(results, waits, result);
      }
      var interrupted := during(attempt);
      if interrupted.Some? {
        return Some(Wrapped(interrupted.value)), Trace(results, waits, interrupted);
      }
      waits := waits + [DELAYS[attempt]];
      attempt := attempt + 1;
    }
  }

  // ---------------------------------------------------------------------------
  // The two ways compared
  // ---------------------------------------------------------------------------

  ghost predicate NothingLost(trips: nat -> Trip) {
    forall i :: trips(i).Arrives?
  }

  lemma {:induction false} AllReach(trips: nat -> Trip, n: nat)
    requires NothingLost(trips)
    ensures Reached(trips, n) == n
  {
    if n > 0 {
      AllReach(trips, n - 1);
    }
  }

  /** A loop whose first attempt succeeds makes no other; one whose first error is not retriable gives up. */
  lemma FirstDecides(w: World, retriable: Error -> bool, t: Trace)
    requires Follows(w, retriable, DELAYS, t) && w.before(0).None?
    requires w.op(0).None? || !retriable(w.op(0).value)
    ensures |t.results| == 1 && t.err == w.op(0)
  {
    assert |t.results| > 0 ==> t.results[0] == w.op(0);
  }

  /** With nothing lost on the way, a valid batch reaches the store once over gRPC, whether or not its save
      works: Internal is not tried again. */
  lemma OnceOverGRPC(sync: bool, st: Store, ms: seq<Metric>, trips: nat -> Trip, faults: nat -> DiskFault,
                     during: nat -> Option<Error>, t: Trace)
    requires NothingLost(trips)
    requires Follows(GRPCWorld(sync, st, ms, trips, faults, during), IsRetriableGRPCError, DELAYS, t)
    ensures Reached(trips, |t.results|) == 1
    ensures t.err.None? <==> SavesIfSync(sync, AcceptedTimes(st, ms, 1), faults(0))
  {
    var w := GRPCWorld(sync, st, ms, trips, faults, during);
    AllReach(trips, 1);
    assert w.op(0) == GRPCAnswer(sync, st, ms, trips, faults, 0);
    FirstDecides(w, IsRetriableGRPCError, t);
  }

  /** Over HTTP it reaches the store once for every attempt until a save works: 500 is tried again. */
  lemma RepeatedOverHTTP(sync: bool, st: Store, ms: seq<Metric>, trips: nat -> Trip, faults: nat -> DiskFault,
                         during: nat -> Option<Error>, t: Trace)
    requires NothingLost(trips) && AllValid(ms)
    requires Follows(HTTPWorld(sync, st, ms, trips, faults, during), IsRetriableSendError, DELAYS, t)
    requires forall i :: during(i).None?
    ensures var n := Reached(trips, |t.results|);
            && 1 <= n <= 4
            && (forall i | 0 < i < n :: !SavesIfSync(sync, AcceptedTimes(st, ms, i), faults(i - 1)))
            && (t.err.None? <==> SavesIfSync(sync, AcceptedTimes(st, ms, n), faults(n - 1)))
            && (t.err.Some? ==> n == 4)
  {
    var w, n := HTTPWorld(sync, st, ms, trips, faults, during), |t.results|;
    AllReach(trips, n);
    assert n == |t.waits| + 1;
    forall i | 0 <= i < n
      ensures t.results[i] == StatusError(if SavesIfSync(sync, AcceptedTimes(st, ms, i + 1), faults(i))
                                          then Http.STATUS_OK else Http.STATUS_INTERNAL_ERROR)
    {
      AllReach(trips, i + 1);
      assert t.results[i] == w.op(i);
    }
    forall i | 0 < i < n ensures !SavesIfSync(sync, AcceptedTimes(st, ms, i), faults(i - 1)) {
      assert t.results[i - 1].Some?;
    }
    assert t.results[n - 1] == w.op(n - 1);
  }

  /** How often a valid batch gets in over HTTP: once for every attempt up to the first whose save works. */
  ghost function Deliveries(sync: bool, st: Store, ms: seq<Metric>, faults: nat -> DiskFault): nat {
    if !AllFinite(ms) then 0
    else if SavesIfSync(sync, AcceptedTimes(st, ms, 1), faults(0)) then 1
    else if SavesIfSync(sync, AcceptedTimes(st, ms, 2), faults(1)) then 2
    else if SavesIfSync(sync, AcceptedTimes(st, ms, 3), faults(2)) then 3
    else 4
  }

  lemma DeliveriesAre(sync: bool, st: Store, ms: seq<Metric>, trips: nat -> Trip, faults: nat -> DiskFault,
                      during: nat -> Option<Error>, t: Trace)
    requires NothingLost(trips) && AllValid(ms) && AllFinite(ms) && forall i :: during(i).None?
    requires Follows(HTTPWorld(sync, st, ms, trips, faults, during), IsRetriableSendError, DELAYS, t)
    ensures Reached(trips, |t.results|) == Deliveries(sync, st, ms, faults)
  {
    RepeatedOverHTTP(sync, st, ms, trips, faults, during, t);
    var n := Reached(trips, |t.results|);
    assert n > 1 ==> !SavesIfSync(sync, AcceptedTimes(st, ms, 1), faults(1 - 1));
    assert n > 2 ==> !SavesIfSync(sync, AcceptedTimes(st, ms, 2), faults(2 - 1));
    assert n > 3 ==> !SavesIfSync(sync, AcceptedTimes(st, ms, 3), faults(3 - 1));
  }

  /** What has to hold of the batch, the HTTP Server and its disk for the two ways to end alike. */
  ghost predicate WaysAgree(sync: bool, st: Store, ms: seq<Metric>, faults: nat -> DiskFault) {
    AllValid(ms) ==>
      && AllComplete(ms)
      && (forall name :: SameSum(ms, Deliveries(sync, st, ms, faults), 1, name))
      && (AllFinite(ms) || Holds(st, ms))
  }

  /** Two Servers with equal stores, one batch sent to each its own way: over gRPC it gets in if and only if it
      is valid, over HTTP if and only if it is valid and JSON can encode it, save errors notwithstanding. With
      nothing lost on the way and no wait interrupted, it gets in once over gRPC, and over HTTP as often as
      saves fail; the stores are equal again if and only if that adds the same to every counter and, for a batch
      JSON cannot encode, the store already held it. In general k and g tell how often it got in. */
  method DeliverBothWays(viaHTTP: MetricsService, viaGRPC: MetricsService, ms: seq<Metric>,
                         tripsH: nat -> Trip, faultsH: nat -> DiskFault, tripsG: nat -> Trip, faultsG: nat -> DiskFault,
                         during: nat -> Option<Error>)
    returns (errH: Option<Error>, errG: Option<Error>, k: nat, g: nat)
    requires viaHTTP.repo != viaGRPC.repo && viaHTTP.repo.Contents() == viaGRPC.repo.Contents()
    requires viaHTTP.syncPersistence == null || viaHTTP.syncPersistence != viaGRPC.syncPersistence
    modifies viaHTTP.repo, viaHTTP.syncPersistence, viaGRPC.repo, viaGRPC.syncPersistence
    ensures viaHTTP.repo.Contents() == AcceptedTimes(old(viaHTTP.repo.Contents()), ms, k)
    ensures viaGRPC.repo.Contents() == AcceptedTimes(old(viaGRPC.repo.Contents()), ms, g)
    ensures tripsG(0).Arrives? ==> (g > 0 <==> AllValid(ms))
    ensures tripsH(0).Arrives? ==> (k > 0 && AllValid(ms) <==> AllValid(ms) && AllFinite(ms))
    ensures viaHTTP.repo.Contents() == viaGRPC.repo.Contents()
       <==> || !AllValid(ms)
            || (AllComplete(ms) && (forall name :: SameSum(ms, k, g, name))
                && ((k == 0 <==> g == 0) || Holds(old(viaHTTP.repo.Contents()), ms)))
    ensures NothingLost(tripsG) && AllValid(ms) ==> g == 1
    ensures NothingLost(tripsH) && (forall i :: during(i).None?) && AllValid(ms) ==>
              k == Deliveries(viaHTTP.syncPersistence != null, old(viaHTTP.repo.Contents()), ms, faultsH)
    ensures NothingLost(tripsH) && NothingLost(tripsG) && (forall i :: during(i).None?) ==>
              (viaHTTP.repo.Contents() == viaGRPC.repo.Contents()
               <==> WaysAgree(viaHTTP.syncPersistence != null, old(viaHTTP.repo.Contents()), ms, faultsH))
  {
    ghost var st, sync := viaHTTP.repo.Contents(), viaHTTP.syncPersistence != null;
    var tH: Trace, tG: Trace;
    errH, tH := SendOverHTTP(viaHTTP, ms, tripsH, faultsH, during);
    errG, tG := SendOverGRPC(viaGRPC, ms, tripsG, faultsG, during);
    k, g := Reached(tripsH, |tH.results|), Reached(tripsG, |tG.results|);
    ReachedFirst(tripsH, |tH.results|);
    ReachedFirst(tripsG, |tG.results|);
    if AllValid(ms) {
      ValidIsComplete(ms);
      SameTimes(st, ms, k, g);
      if NothingLost(tripsG) {
        OnceOverGRPC(viaGRPC.syncPersistence != null, st, ms, tripsG, faultsG, during, tG);
      }
      if NothingLost(tripsH) && AllFinite(ms) && forall i :: during(i).None? {
        DeliveriesAre(sync, st, ms, tripsH, faultsH, during, tH);
      }
    }
  }

  /** A counter sent both ways to two Servers that save after every update and whose disk never opens the
      file: one ends at four, the other at one. */
  method FailingSavesDiverge() returns (http: MemStorage, grpc: MemStorage)
    ensures Total(http.Contents(), "c") == 4 && Total(grpc.Contents(), "c") == 1
  {
    http := new MemStorage();
    grpc := new MemStorage();
    var viaHTTP := new MetricsService(http);
    var viaGRPC := new MetricsService(grpc);
    var fileH := new FileStore(Missing);
    var fileG := new FileStore(Missing);
    viaHTTP.EnableSyncSave(fileH);
    viaGRPC.EnableSyncSave(fileG);
    var ms := [CounterMetric("c", 1)];
    var errH, errG, k, g := DeliverBothWays(viaHTTP, viaGRPC, ms, i => Arrives, i => OpenFails, i => Arrives, i => OpenFails, i => None);
    assert k == 4 && g == 1;
    OneCounter(ms, 4);
    OneCounter(ms, 1);
  }

  lemma OneCounter(ms: seq<Metric>, k: nat)
    requires ms == [CounterMetric("c", 1)] && k <= 4
    ensures AllComplete(ms) && Total(ApplyTimes(EMPTY, ms, k), "c") == k
  {
    TimesCounters(EMPTY, ms, k, "c");
    assert SumOfDeltas(ms, "c") == DeltaFor(ms[0], "c") + SumOfDeltas(ms[1..], "c") && ms[1..] == [];
  }

  /** A gauge that is not a number: it arrives over gRPC and is never sent over HTTP. */
  method NaNDiverges() returns (http: MemStorage, grpc: MemStorage)
    ensures "g" !in http.Contents().gauges && "g" in grpc.Contents().gauges
  {
    http := new MemStorage();
    grpc := new MemStorage();
    var viaHTTP := new MetricsService(http);
    var viaGRPC := new MetricsService(grpc);
    var ms := [GaugeMetric("g", NaN)];
    assert !IsFinite(ms[0].value.value);
    var errH, errG, k, g := DeliverBothWays(viaHTTP, viaGRPC, ms, i => Arrives, i => NoFault, i => Arrives, i => NoFault, i => None);
    assert k == 0 && g == 1;
    assert ApplyTimes(EMPTY, ms, 1) == Apply(ApplyTimes(EMPTY, ms, 0), ms) && ms[1..] == [];
    assert Apply(EMPTY, ms) == Apply(Put(EMPTY, ms[0]), ms[1..]);
  }

  lemma {:induction false} ReachedFirst(trips: nat -> Trip, n: nat)
    ensures Reached(trips, 0) == 0
    ensures n > 0 && trips(0).Arrives? ==> Reached(trips, n) > 0
  {
    if n > 1 {
      ReachedFirst(trips, n - 1);
    }
  }
}
