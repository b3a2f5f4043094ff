/** Saving metrics to a file and loading them back (internal/repository/filestore.go), and the
    service that saves after each update (internal/server/service/metrics.go). */
module Persistence {
  import opened Options
  import opened Metrics
  import opened MetricStore
  import opened InMemory
  import opened Reports

  /** The file as a list of metrics. Garbled stands for contents that are not such a list. */
  datatype File = Missing | Empty | Garbled | Json(metrics: seq<Metric>)

  /** What can go wrong when os.WriteFile replaces a file: it cannot be opened, or it is opened, and
      thereby emptied, and then only a part of the data, or all of it with a late error, gets in. */
  datatype DiskFault = NoFault | OpenFails | CutShort(left: Left)

  datatype Left = Nothing | Part | Everything

  datatype FileError = NotEncodable | ReadFailed | WriteFailed | NotJson

  predicate IsFinite(value: Float64) {
    value.Finite?
  }

  /** JSON has no NaN and no infinities: encoding the list fails when a gauge holds one. */
  ghost predicate Encodable(st: Store) {
    forall name | name in st.gauges :: IsFinite(st.gauges[name])
  }

  ghost predicate SaveWorks(st: Store, fault: DiskFault) {
    Encodable(st) && fault.NoFault?
  }

  /** The error of a save that does not. */
  ghost function SaveError(st: Store): FileError {
    if Encodable(st) then WriteFailed else NotEncodable
  }

  /** An update's save works, or there is none. */
  ghost predicate SavesIfSync(sync: bool, st: Store, fault: DiskFault) {
    sync ==> SaveWorks(st, fault)
  }

  /** What a save of this store makes of a file. A strict part of a JSON list is not one. */
  ghost predicate FileAfter(was: File, file: File, st: Store, fault: DiskFault) {
    if !Encodable(st) || fault.OpenFails? then file == was
    else if fault.NoFault? || fault.left.Everything? then file.Json? && Lists(file.metrics, st)
    else file == if fault.left.Nothing? then Empty else Garbled
  }

  predicate AllFinite(ms: seq<Metric>) {
    forall i | 0 <= i < |ms| :: ms[i].value.Some? ==> IsFinite(ms[i].value.value)
  }

  ghost function CounterMetrics(order: seq<string>, counters: map<string, int64>): (ms: seq<Metric>)
    requires forall i | 0 <= i < |order| :: order[i] in counters
    ensures |ms| == |order|
    ensures forall i | 0 <= i < |ms| :: ms[i] == CounterMetric(order[i], counters[order[i]])
  {
    if order == [] then []
    else CounterMetrics(order[..|order| - 1], counters)
         + [CounterMetric(order[|order| - 1], counters[order[|order| - 1]])]
  }

  /** The list holds every gauge, then every counter, in any order of the two range loops. */
  ghost predicate Lists(ms: seq<Metric>, st: Store) {
    exists gs: seq<string>, cs: seq<string> ::
      && Enumerates(gs, st.gauges.Keys) && Enumerates(cs, st.counters.Keys)
      && ms == GaugeMetrics(gs, st.gauges) + CounterMetrics(cs, st.counters)
  }

  /** One metric of the file: values overwrite, a missing value or an unknown type is skipped. */
  function Restore(st: Store, m: Metric): Store {
    if m.mtype == GAUGE && m.value.Some? then st.(gauges := st.gauges[m.id := m.value.value])
    else if m.mtype == COUNTER && m.delta.Some? then st.(counters := st.counters[m.id := m.delta.value])
    else st
  }

  function RestoreAll(st: Store, ms: seq<Metric>): Store {
    if ms == [] then st else Restore(RestoreAll(st, ms[..|ms| - 1]), ms[|ms| - 1])
  }

  function Loaded(st: Store, file: File): Store {
    if file.Json? then RestoreAll(st, file.metrics) else st
  }

  // ---------------------------------------------------------------------------
  // Round trip
  // ---------------------------------------------------------------------------

  lemma {:induction false} RestoreConcat(st: Store, a: seq<Metric>, b: seq<Metric>)
    ensures RestoreAll(st, a + b) == RestoreAll(RestoreAll(st, a), b)
  {
    if b == [] {
      assert a + b == a;
    } else {
      assert (a + b)[..|a + b| - 1] == a + b[..|b| - 1];
      RestoreConcat(st, a, b[..|b| - 1]);
    }
  }

  lemma {:induction false} RestoreGauges(st: Store, order: seq<string>, gauges: map<string, Float64>)
    requires forall i | 0 <= i < |order| :: order[i] in gauges
    ensures RestoreAll(st, GaugeMetrics(order, gauges)) == st.(gauges := st.gauges + Listed(order, gauges))
  {
    if order == [] {
      assert Listed(order, gauges) == map[];
    } else {
      var front, last := order[..|order| - 1], order[|order| - 1];
      RestoreGauges(st, front, gauges);
      ListedSnoc(front, last, gauges);
      OverlayUpdate(st.gauges, Listed(front, gauges), last, gauges[last]);
      assert order == front + [last];
      var ms := GaugeMetrics(order, gauges);
      assert ms[..|ms| - 1] == GaugeMetrics(front, gauges) && ms[|ms| - 1] == GaugeMetric(last, gauges[last]);
    }
  }

  ghost function ListedCounters(order: seq<string>, counters: map<string, int64>): map<string, int64> {
    map name | name in counters && name in order :: counters[name]
  }

  lemma ListedCountersSnoc(order: seq<string>, name: string, counters: map<string, int64>)
    requires name in counters
    ensures ListedCounters(order + [name], counters) == ListedCounters(order, counters)[name := counters[name]]
  {
  }

  lemma CounterOverlay(m: map<string, int64>, over: map<string, int64>, k: string, v: int64)
    ensures (m + over)[k := v] == m + over[k := v]
  {
  }

  lemma RestoreSnoc(st: Store, ms: seq<Metric>, m: Metric)
    ensures RestoreAll(st, ms + [m]) == Restore(RestoreAll(st, ms), m)
  {
    assert (ms + [m])[..|ms|] == ms;
  }

  lemma RestoreCounter(st: Store, over: map<string, int64>, name: string, total: int64)
    ensures Restore(st.(counters := st.counters + over), CounterMetric(name, total))
         == st.(counters := st.counters + over[name := total])
  {
    CounterOverlay(st.counters, over, name, total);
  }

  lemma {:induction false} RestoreCounters(st: Store, order: seq<string>, counters: map<string, int64>)
    requires forall i | 0 <= i < |order| :: order[i] in counters
    ensures RestoreAll(st, CounterMetrics(order, counters)) == st.(counters := st.counters + ListedCounters(order, counters))
  {
    if order == [] {
      assert ListedCounters(order, counters) == map[];
    } else {
      var front, last := order[..|order| - 1], order[|order| - 1];
      RestoreCounters(st, front, counters);
      RestoreSnoc(st, CounterMetrics(front, counters), CounterMetric(last, counters[last]));
      RestoreCounter(st, ListedCounters(front, counters), last, counters[last]);
      ListedCountersSnoc(front, last, counters);
      assert order == front + [last];
    }
  }

  lemma ListedCountersAll(order: seq<string>, counters: map<string, int64>)
    requires Enumerates(order, counters.Keys)
    ensures ListedCounters(order, counters) == counters
  {
  }

  lemma LoadListed(into: Store, saved: Store, gs: seq<string>, cs: seq<string>)
    requires Enumerates(gs, saved.gauges.Keys) && Enumerates(cs, saved.counters.Keys)
    ensures RestoreAll(into, GaugeMetrics(gs, saved.gauges) + CounterMetrics(cs, saved.counters))
         == Store(into.gauges + saved.gauges, into.counters + saved.counters)
  {
    RestoreConcat(into, GaugeMetrics(gs, saved.gauges), CounterMetrics(cs, saved.counters));
    RestoreGauges(into, gs, saved.gauges);
    ListedAll(gs, saved.gauges);
    var between := Store(into.gauges + saved.gauges, into.counters);
    RestoreCounters(between, cs, saved.counters);
    ListedCountersAll(cs, saved.counters);
  }

  /** Loading a saved list writes the saved gauges and counters over the store's own, in whatever
      order they were listed; a name may stand for a gauge and a counter at once. */
  lemma LoadSaved(into: Store, saved: Store, ms: seq<Metric>)
    requires Lists(ms, saved)
    ensures Loaded(into, Json(ms)) == Store(into.gauges + saved.gauges, into.counters + saved.counters)
  {
    var gs: seq<string>, cs: seq<string> :|
      && Enumerates(gs, saved.gauges.Keys) && Enumerates(cs, saved.counters.Keys)
      && ms == GaugeMetrics(gs, saved.gauges) + CounterMetrics(cs, saved.counters);
    LoadListed(into, saved, gs, cs);
  }

  /** The entry gives that gauge, or that counter, a value. */
  predicate Gives(m: Metric, mtype: string, name: string) {
    m.mtype == mtype && m.id == name && if mtype == GAUGE then m.value.Some? else m.delta.Some?
  }

  /** No entry of the list, or none after the i-th, gives it one. */
  predicate NoneGives(ms: seq<Metric>, from: nat, mtype: string, name: string) {
    forall j | from <= j < |ms| :: !Gives(ms[j], mtype, name)
  }

  lemma NoneGivesFront(ms: seq<Metric>, from: nat, mtype: string, name: string)
    requires ms != [] && NoneGives(ms, from, mtype, name)
    ensures NoneGives(ms[..|ms| - 1], from, mtype, name)
  {
    assert forall j | from <= j < |ms| - 1 :: ms[..|ms| - 1][j] == ms[j];
  }

  /** Loading any list, hand-written ones with repeated or incomplete entries too: what no entry gives a
      value is as it was. */
  lemma {:induction false} OthersLoadNothing(st: Store, ms: seq<Metric>, name: string)
    ensures var r := RestoreAll(st, ms);
            && (NoneGives(ms, 0, GAUGE, name) ==>
                  (name in r.gauges <==> name in st.gauges) && (name in st.gauges ==> r.gauges[name] == st.gauges[name]))
            && (NoneGives(ms, 0, COUNTER, name) ==>
                  (name in r.counters <==> name in st.counters)
                  && (name in st.counters ==> r.counters[name] == st.counters[name]))
  {
    if ms != [] {
      OthersLoadNothing(st, ms[..|ms| - 1], name);
      assert !Gives(ms[|ms| - 1], GAUGE, name) || !NoneGives(ms, 0, GAUGE, name);
      assert !Gives(ms[|ms| - 1], COUNTER, name) || !NoneGives(ms, 0, COUNTER, name);
      if NoneGives(ms, 0, GAUGE, name) {
        NoneGivesFront(ms, 0, GAUGE, name);
      }
      if NoneGives(ms, 0, COUNTER, name) {
        NoneGivesFront(ms, 0, COUNTER, name);
      }
    }
  }

  /** And otherwise the last such entry decides: a loaded counter is overwritten, not added to. */
  lemma {:induction false} LastEntryLoads(st: Store, ms: seq<Metric>, i: nat)
    requires i < |ms|
    ensures var m, r := ms[i], RestoreAll(st, ms);
            && (Gives(m, GAUGE, m.id) && NoneGives(ms, i + 1, GAUGE, m.id) ==>
                  m.id in r.gauges && r.gauges[m.id] == m.value.value)
            && (Gives(m, COUNTER, m.id) && NoneGives(ms, i + 1, COUNTER, m.id) ==>
                  m.id in r.counters && r.counters[m.id] == m.delta.value)
  {
    var name := ms[i].id;
    if i < |ms| - 1 {
      var front, last := ms[..|ms| - 1], ms[|ms| - 1];
      LastEntryLoads(st, front, i);
      assert front[i] == ms[i];
      if NoneGives(ms, i + 1, GAUGE, name) {
        NoneGivesFront(ms, i + 1, GAUGE, name);
        assert !Gives(last, GAUGE, name);
      }
      if NoneGives(ms, i + 1, COUNTER, name) {
        NoneGivesFront(ms, i + 1, COUNTER, name);
        assert !Gives(last, COUNTER, name);
      }
    }
  }

  /** Into an empty store a saved list loads back exactly. */
  lemma RoundTrip(saved: Store, ms: seq<Metric>)
    requires Lists(ms, saved)
    ensures Loaded(EMPTY, Json(ms)) == saved
  {
    LoadSaved(EMPTY, saved, ms);
    assert EMPTY.gauges + saved.gauges == saved.gauges && EMPTY.counters + saved.counters == saved.counters;
  }

  /** NaN and the two infinities are all that JSON does not have. */
  lemma EncodableIff(st: Store)
    ensures Encodable(st) <==> NaN !in st.gauges.Values && PosInf !in st.gauges.Values && NegInf !in st.gauges.Values
  {
    if Encodable(st) {
      forall value | value in st.gauges.Values ensures value.Finite? {
        var name :| name in st.gauges && st.gauges[name] == value;
        assert IsFinite(st.gauges[name]);
      }
    } else {
      var name :| name in st.gauges && !IsFinite(st.gauges[name]);
      assert st.gauges[name] in st.gauges.Values;
    }
  }

  lemma FiniteLists(ms: seq<Metric>, st: Store)
    requires Lists(ms, st)
    ensures AllFinite(ms) <==> Encodable(st)
  {
    var gs: seq<string>, cs: seq<string> :|
      && Enumerates(gs, st.gauges.Keys) && Enumerates(cs, st.counters.Keys)
      && ms == GaugeMetrics(gs, st.gauges) + CounterMetrics(cs, st.counters);
    if AllFinite(ms) {
      forall name | name in st.gauges ensures IsFinite(st.gauges[name]) {
        assert name in gs;
        var i :| 0 <= i < |gs| && gs[i] == name;
        assert ms[i] == GaugeMetric(name, st.gauges[name]);
      }
    }
    if Encodable(st) {
      forall i | 0 <= i < |ms| && ms[i].value.Some? ensures IsFinite(ms[i].value.value) {
        assert i < |gs| && gs[i] in gs;
      }
    }
  }

  /** A failed save keeps the list the file held if and only if a gauge could not be encoded or the file
      could not be opened. Otherwise the list is lost, and loading what is left restores nothing; the
      exception is an error that came only after all data were written. */
  lemma FailedSaveKeeps(was: File, file: File, st: Store, fault: DiskFault, into: Store)
    requires FileAfter(was, file, st, fault) && !SaveWorks(st, fault) && was.Json?
    ensures fault == CutShort(Everything) && Encodable(st) ==>
              Loaded(into, file) == Store(into.gauges + st.gauges, into.counters + st.counters)
    ensures fault != CutShort(Everything) ==>
              && (file == was <==> !Encodable(st) || fault.OpenFails?)
              && (file != was ==> Loaded(into, file) == into)
  {
    if fault == CutShort(Everything) && Encodable(st) {
      LoadSaved(into, st, file.metrics);
    }
  }

  // ---------------------------------------------------------------------------
  // The file and the service
  // ---------------------------------------------------------------------------

  /** One of Save's two range loops. */
  method ListGauges(gauges: map<string, Float64>) returns (metrics: seq<Metric>, ghost order: seq<string>)
    ensures Enumerates(order, gauges.Keys) && metrics == GaugeMetrics(order, gauges)
  {
    metrics, order := [], [];
    var rest := gauges.Keys;
    while rest != {}
      invariant rest <= gauges.Keys
      invariant forall i | 0 <= i < |order| :: order[i] in gauges
      invariant forall name :: name in order <==> name in gauges && name !in rest
      invariant forall i, j | 0 <= i < j < |order| :: order[i] != order[j]
      invariant metrics == GaugeMetrics(order, gauges)
    {
      var name :| name in rest;
      metrics := metrics + [GaugeMetric(name, gauges[name])];
      assert (order + [name])[..|order|] == order;
      order, rest := order + [name], rest - {name};
    }
  }

  method ListCounters(counters: map<string, int64>) returns (metrics: seq<Metric>, ghost order: seq<string>)
    ensures Enumerates(order, counters.Keys) && metrics == CounterMetrics(order, counters)
  {
    metrics, order := [], [];
    var rest := counters.Keys;
    while rest != {}
      invariant rest <= counters.Keys
      invariant forall i | 0 <= i < |order| :: order[i] in counters
      invariant forall name :: name in order <==> name in counters && name !in rest
      invariant forall i, j | 0 <= i < j < |order| :: order[i] != order[j]
      invariant metrics == CounterMetrics(order, counters)
    {
      var name :| name in rest;
      metrics := metrics + [CounterMetric(name, counters[name])];
      assert (order + [name])[..|order|] == order;
      order, rest := order + [name], rest - {name};
    }
  }

  class FileStore {
    var file: File

    constructor (file: File)
      ensures this.file == file
    {
      this.file := file;
    }

    /** Fails exactly when a gauge cannot be encoded or the disk has a fault; which of them it was decides
        what is left of the old file. */
    method Save(repo: MemStorage, fault: DiskFault) returns (err: Option<FileError>)
      modifies this
      ensures err.None? <==> SaveWorks(repo.Contents(), fault)
      ensures err.Some? ==> err.value == SaveError(repo.Contents())
      ensures FileAfter(old(file), file, repo.Contents(), fault)
    {
      var gauges, counters := repo.Snapshot();
      var gaugeMetrics, gs := ListGauges(gauges);
      var counterMetrics, cs := ListCounters(counters);
      var metrics := gaugeMetrics + counterMetrics;
      assert Lists(metrics, repo.Contents());
      FiniteLists(metrics, repo.Contents());
      if !AllFinite(metrics) {
        return Some(NotEncodable);
      }
      match fault {
        case OpenFails => return Some(WriteFailed);
        case CutShort(Nothing) =>
          file := Empty;
          return Some(WriteFailed);
        case CutShort(Part) =>
          file := Garbled;
          return Some(WriteFailed);
        case CutShort(Everything) =>
          file := Json(metrics);
          return Some(WriteFailed);
        case NoFault =>
          file := Json(metrics);
          return None;
      }
    }

    /** A missing or empty file loads nothing and is no error. */
    method Load(repo: MemStorage, readFails: bool) returns (err: Option<FileError>)
      modifies repo
      ensures err.None? <==> file.Missing? || (!readFails && !file.Garbled?)
      ensures err.Some? ==> err.value == if readFails then ReadFailed else NotJson
      ensures !file.Json? ==> repo.Contents() == old(repo.Contents())
      ensures repo.Contents() == if err.None? then Loaded(old(repo.Contents()), file) else old(repo.Contents())
    {
      if file.Missing? {
        return None;
      }
      if readFails {
        return Some(ReadFailed);
      }
      if file.Empty? {
        return None;
      }
      if file.Garbled? {
        return Some(NotJson);
      }
      var metrics := file.metrics;
      for i := 0 to |metrics|
        invariant repo.Contents() == RestoreAll(old(repo.Contents()), metrics[..i])
      {
        assert metrics[..i + 1][..i] == metrics[..i];
        var metric := metrics[i];
        if metric.mtype == GAUGE {
          if metric.value.Some? {
            repo.SetGauge(metric.id, metric.value.value);
          }
        } else if metric.mtype == COUNTER {
          if metric.delta.Some? {
            repo.SetCounter(metric.id, metric.delta.value);
          }
        }
      }
      assert metrics[..|metrics|] == metrics;
      return None;
    }
  }

  class MetricsService {
    const repo: MemStorage
    var syncPersistence: FileStore?

    constructor (repo: MemStorage)
      ensures this.repo == repo && syncPersistence == null
    {
      this.repo := repo;
      syncPersistence := null;
    }

    method EnableSyncSave(store: FileStore)
      modifies this
      ensures syncPersistence == store
    {
      syncPersistence := store;
    }

    /** The save that follows an update: whether it works, and what becomes of the file. */
    ghost predicate Synced(was: File, st: Store, fault: DiskFault)
      reads this, syncPersistence
    {
      syncPersistence != null ==> FileAfter(was, syncPersistence.file, st, fault)
    }

    /** The file as it is, for talking about it when there is none. */
    ghost function File(): File
      reads this, syncPersistence
    {
      if syncPersistence == null then Missing else syncPersistence.file
    }

    ghost predicate SyncWorks(st: Store, fault: DiskFault)
      reads this
    {
      SavesIfSync(syncPersistence != null, st, fault)
    }

    method SaveIfSync(fault: DiskFault) returns (err: Option<FileError>)
      modifies syncPersistence
      ensures err == if SyncWorks(repo.Contents(), fault) then None else Some(SaveError(repo.Contents()))
      ensures Synced(old(File()), repo.Contents(), fault)
    {
      if syncPersistence == null {
        return None;
      }
      err := syncPersistence.Save(repo, fault);
    }

    lemma LoadsBack(was: File, st: Store, fault: DiskFault)
      requires syncPersistence != null && Synced(was, st, fault) && SyncWorks(st, fault)
      ensures Loaded(EMPTY, syncPersistence.file) == st
    {
      RoundTrip(st, syncPersistence.file.metrics);
    }

    /** The batch is in memory before the save: an error of the save is reported although the
        update took effect. With synchronous saving and no error, the file loads back to the new memory. */
    method UpdateMetrics(metrics: seq<Metric>, fault: DiskFault) returns (err: Option<FileError>)
      requires AllComplete(metrics)
      modifies repo, syncPersistence
      ensures repo.Contents() == Apply(old(repo.Contents()), metrics)
      ensures err == if SyncWorks(repo.Contents(), fault) then None else Some(SaveError(repo.Contents()))
      ensures Synced(old(File()), repo.Contents(), fault)
      ensures syncPersistence != null && err.None? ==> Loaded(EMPTY, syncPersistence.file) == repo.Contents()
    {
      ghost var was := File();
      repo.UpdateMetrics(metrics);
      err := SaveIfSync(fault);
      if syncPersistence != null && err.None? {
        LoadsBack(was, repo.Contents(), fault);
      }
    }

    method UpdateGauge(name: string, value: Float64, fault: DiskFault) returns (err: Option<FileError>)
      modifies repo, syncPersistence
      ensures repo.Contents() == SetGauge(old(repo.Contents()), name, value)
      ensures err == if SyncWorks(repo.Contents(), fault) then None else Some(SaveError(repo.Contents()))
      ensures Synced(old(File()), repo.Contents(), fault)
      ensures syncPersistence != null && err.None? ==> Loaded(EMPTY, syncPersistence.file) == repo.Contents()
    {
      ghost var was := File();
      repo.UpdateGauge(name, value);
      err := SaveIfSync(fault);
      if syncPersistence != null && err.None? {
        LoadsBack(was, repo.Contents(), fault);
      }
    }

    /** The total is returned only when the save succeeded; the addition stays either way. */
    method UpdateCounter(name: string, delta: int64, fault: DiskFault) returns (total: Result<int64, FileError>)
      modifies repo, syncPersistence
      ensures repo.Contents() == AddCounter(old(repo.Contents()), name, delta)
      ensures total.Ok? ==> total.get == Total(repo.Contents(), name)
      ensures total.Ok? <==> SyncWorks(repo.Contents(), fault)
      ensures total.Err? ==> total.error == SaveError(repo.Contents())
      ensures Synced(old(File()), repo.Contents(), fault)
      ensures syncPersistence != null && total.Ok? ==> Loaded(EMPTY, syncPersistence.file) == repo.Contents()
    {
      ghost var was := File();
      var sum := repo.UpdateCounter(name, delta);
      var err := SaveIfSync(fault);
      if err.Some? {
        return Err(err.value);
      }
      if syncPersistence != null {
        LoadsBack(was, repo.Contents(), fault);
      }
      return Ok(sum);
    }
  }
}
