/** The Agent's code as it is written: the poll counter and the batch built from the repository
    (internal/agent/service/report.go, poll.go) and the bounded queue (internal/agent/report.go).
    Each method, run without interruption, is shown to be a run of the protocol. */
module AgentService {
  import opened Options
  import opened Metrics
  import opened InMemory
  import opened Reports
  import opened AgentProtocol
  import opened Retry
  import opened MetricStore
  import Transports

  /** A poll's writes, in order. */
  function WriteAll(gauges: map<string, Float64>, writes: seq<(string, Float64)>): map<string, Float64>
    decreases |writes|
  {
    if writes == [] then gauges else WriteAll(gauges[writes[0].0 := writes[0].1], writes[1..])
  }

  /** A step of the poll loop for the system metrics, or of the one for the runtime metrics. */
  function OfPoll(system: bool, step: PollStep): Step {
    if system then System(step) else Runtime(step)
  }

  /** The protocol's steps for one uninterrupted poll. */
  function PollRun(system: bool, writes: seq<(string, Float64)>): seq<Step> {
    [OfPoll(system, Tick(writes))] + WriteRun(system, writes)
  }

  function WriteRun(system: bool, writes: seq<(string, Float64)>): seq<Step> {
    if writes == [] then [OfPoll(system, Finish)]
    else [OfPoll(system, Write(true))] + WriteRun(system, writes[1..])
  }

  /** Only the runtime poll is counted. */
  function Polled(s: State, system: bool, writes: seq<(string, Float64)>): State {
    var t := s.(gauges := WriteAll(s.gauges, writes));
    if system then t.(system := Waiting) else AddPending(t, 1).(runtime := Waiting, polls := s.polls + 1)
  }

  lemma {:induction false} WriteRunExec(s: State, system: bool, writes: seq<(string, Float64)>)
    requires (if system then s.system else s.runtime) == Writing(writes)
    ensures Legal(s, WriteRun(system, writes)) && Exec(s, WriteRun(system, writes)) == Polled(s, system, writes)
    decreases |writes|
  {
    if writes == [] {
      ExecCons(s, OfPoll(system, Finish), []);
      assert [OfPoll(system, Finish)] + [] == [OfPoll(system, Finish)];
    } else {
      var step := OfPoll(system, Write(true));
      WriteRunExec(Do(s, step), system, writes[1..]);
      ExecCons(s, step, WriteRun(system, writes[1..]));
    }
  }

  /** A gauge the repository does not take is logged and left as it was; the poll goes on. */
  lemma SkippedWrite(s: State, system: bool, writes: seq<(string, Float64)>)
    requires (if system then s.system else s.runtime) == Writing(writes) && writes != []
    ensures var step := OfPoll(system, Write(false));
            Enabled(s, step)
            && Do(s, step) == if system then s.(system := Writing(writes[1..])) else s.(runtime := Writing(writes[1..]))
  {
  }

  function PollStarted(s: State, system: bool, writes: seq<(string, Float64)>): State {
    if system then s.(system := Writing(writes)) else s.(runtime := Writing(writes))
  }

  lemma StartPoll(s: State, system: bool, writes: seq<(string, Float64)>)
    requires (if system then s.system else s.runtime).Waiting?
    ensures var step := OfPoll(system, Tick(writes));
            Enabled(s, step) && Do(s, step) == PollStarted(s, system, writes)
    ensures Polled(PollStarted(s, system, writes), system, writes) == Polled(s, system, writes)
  {
  }

  lemma PollRunExec(s: State, system: bool, writes: seq<(string, Float64)>)
    requires (if system then s.system else s.runtime).Waiting?
    ensures Legal(s, PollRun(system, writes)) && Exec(s, PollRun(system, writes)) == Polled(s, system, writes)
  {
    StartPoll(s, system, writes);
    WriteRunExec(PollStarted(s, system, writes), system, writes);
    ExecCons(s, OfPoll(system, Tick(writes)), WriteRun(system, writes));
  }

  // What a system poll writes

  function DigitsOf(n: nat): (r: string)
    ensures |r| > 0
  {
    var last := ['0' + (n % 10) as char];
    if n < 10 then last else DigitsOf(n / 10) + last
  }

  function CPUWrites(percents: seq<Float64>): seq<(string, Float64)> {
    seq(|percents|, (i: int) requires 0 <= i < |percents| => ("CPUutilization" + DigitsOf(i + 1), percents[i]))
  }

  /** Memory first; without it nothing, without the processors' load only the memory. */
  function SystemWrites(memory: Option<(Float64, Float64)>, percents: Option<seq<Float64>>): seq<(string, Float64)> {
    if memory.None? then []
    else [("TotalMemory", memory.value.0), ("FreeMemory", memory.value.1)]
         + if percents.None? then [] else CPUWrites(percents.value)
  }

  lemma WriteTwo(gauges: map<string, Float64>, a: (string, Float64), b: (string, Float64))
    ensures WriteAll(gauges, [a, b]) == gauges[a.0 := a.1][b.0 := b.1]
  {
    assert [a, b][1..] == [b];
    assert WriteAll(gauges[a.0 := a.1], [b]) == gauges[a.0 := a.1][b.0 := b.1];
  }

  lemma {:induction false} WriteAllConcat(gauges: map<string, Float64>, a: seq<(string, Float64)>, b: seq<(string, Float64)>)
    ensures WriteAll(gauges, a + b) == WriteAll(WriteAll(gauges, a), b)
    decreases |a|
  {
    if a == [] {
      assert a + b == b;
    } else {
      WriteAllConcat(gauges[a[0].0 := a[0].1], a[1..], b);
      assert (a + b)[1..] == a[1..] + b;
    }
  }

  class ReportingService {
    const repo: MemStorage
    var pollSinceReport: int64

    constructor (repo: MemStorage)
      ensures this.repo == repo && pollSinceReport == 0
    {
      this.repo := repo;
      pollSinceReport := 0;
    }

    /** The protocol state shows this service's counter and gauges. */
    ghost predicate Shows(s: State)
      reads this, repo
    {
      s.pending == pollSinceReport && s.gauges == repo.gauges
    }

    /** Every gauge write of the poll comes before the counter's increment. */
    method PollRuntime(samples: seq<(string, Float64)>, ghost s: State)
      requires Shows(s) && s.runtime.Waiting?
      modifies this, repo
      ensures pollSinceReport == Wrap64(old(pollSinceReport) + 1)
      ensures repo.gauges == WriteAll(old(repo.gauges), samples) && repo.counters == old(repo.counters)
      ensures Legal(s, PollRun(false, samples)) && Shows(Exec(s, PollRun(false, samples)))
    {
      for i := 0 to |samples|
        invariant WriteAll(repo.gauges, samples[i..]) == WriteAll(old(repo.gauges), samples)
        invariant repo.counters == old(repo.counters) && pollSinceReport == old(pollSinceReport)
      {
        assert samples[i..][0] == samples[i] && samples[i..][1..] == samples[i + 1..];
        repo.UpdateGauge(samples[i].0, samples[i].1);
      }
      pollSinceReport := Wrap64(pollSinceReport + 1);
      PollRunExec(s, false, samples);
    }

    /** Does not count as a poll. A failed reading ends it early. */
    method PollSystem(memory: Option<(Float64, Float64)>, percents: Option<seq<Float64>>, ghost s: State)
      requires Shows(s) && s.system.Waiting?
      modifies repo
      ensures repo.gauges == WriteAll(old(repo.gauges), SystemWrites(memory, percents))
      ensures repo.counters == old(repo.counters) && pollSinceReport == old(pollSinceReport)
      ensures Legal(s, PollRun(true, SystemWrites(memory, percents)))
      ensures Shows(Exec(s, PollRun(true, SystemWrites(memory, percents))))
    {
      PollRunExec(s, true, SystemWrites(memory, percents));
      if memory.None? {
        return;
      }
      repo.UpdateGauge("TotalMemory", memory.value.0);
      repo.UpdateGauge("FreeMemory", memory.value.1);
      ghost var first := [("TotalMemory", memory.value.0), ("FreeMemory", memory.value.1)];
      ghost var written := repo.gauges;
      WriteTwo(old(repo.gauges), first[0], first[1]);
      if percents.None? {
        assert first + [] == first;
        return;
      }
      ghost var rest := CPUWrites(percents.value);
      for i := 0 to |percents.value|
        invariant WriteAll(repo.gauges, rest[i..]) == WriteAll(written, rest)
        invariant repo.counters == old(repo.counters)
      {
        assert rest[i..][0] == rest[i] && rest[i..][1..] == rest[i + 1..];
        repo.UpdateGauge("CPUutilization" + DigitsOf(i + 1), percents.value[i]);
      }
      WriteAllConcat(old(repo.gauges), first, rest);
    }

    /** The gauges in the order the range loop happens to follow, then the poll counter. */
    method BuildMetricsBatch(pollCount: int64) returns (metrics: seq<Metric>, ghost order: seq<string>)
      ensures Enumerates(order, repo.gauges.Keys)
      ensures metrics == Batch(order, repo.gauges, pollCount)
      ensures IsReportOf(Report(metrics, pollCount), repo.gauges)
      ensures metrics != [] && metrics[|metrics| - 1] == Metric("PollCount", "counter", Some(pollCount), None, "")
    {
      var gauges, _ := repo.Snapshot();
      metrics, order := [], [];
      var rest := gauges.Keys;
      while rest != {}
        invariant rest <= gauges.Keys
        invariant forall i | 0 <= i < |order| :: order[i] in gauges
        invariant forall name :: name in order <==> name in gauges && name !in rest
        invariant forall i, j | 0 <= i < j < |order| :: order[i] != order[j]
        invariant metrics == GaugeMetrics(order, gauges)
      {
        var name :| name in rest;
        metrics := metrics + [GaugeMetric(name, gauges[name])];
        assert (order + [name])[..|order|] == order;
        order, rest := order + [name], rest - {name};
      }
      metrics := metrics + [CounterMetric(POLL_COUNT, pollCount)];
    }

    /** Takes the counter and builds a batch. The restore adds, as polls may have come since; with no
        interruption it gives back the old value. A batch is never empty, so that branch is not reached. */
    method PrepareReport(skipWithoutPolls: bool, snapshotFails: bool)
      returns (r: Option<Report>, failed: bool, ghost order: seq<string>)
      modifies this
      ensures failed <==> snapshotFails && !(skipWithoutPolls && old(pollSinceReport) == 0)
      ensures r.Some? <==> !failed && !(skipWithoutPolls && old(pollSinceReport) == 0)
      ensures pollSinceReport == if r.Some? then 0 else old(pollSinceReport)
      ensures r.Some? ==>
                && Enumerates(order, repo.gauges.Keys)
                && r.value == Report(Batch(order, repo.gauges, old(pollSinceReport)), old(pollSinceReport))
    {
      order := [];
      var pollCount := pollSinceReport;
      pollSinceReport := 0;
      if skipWithoutPolls && pollCount == 0 {
        return None, false, order;
      }
      if snapshotFails {
        pollSinceReport := Wrap64(pollSinceReport + pollCount);
        return None, true, order;
      }
      var metrics;
      metrics, order := BuildMetricsBatch(pollCount);
      if |metrics| == 0 {
        assert false;
      }
      return Some(Report(metrics, pollCount)), false, order;
    }

    method Restore(report: Report)
      modifies this
      ensures pollSinceReport == Wrap64(old(pollSinceReport) + report.pollCount)
    {
      pollSinceReport := Wrap64(pollSinceReport + report.pollCount);
    }

    /** transportFails is the sender's answer, retries included. */
    method Send(report: Report, transportFails: bool) returns (failed: bool)
      modifies this
      ensures failed == transportFails
      ensures pollSinceReport == if failed then Wrap64(old(pollSinceReport) + report.pollCount) else old(pollSinceReport)
    {
      if transportFails {
        Restore(report);
      }
      failed := transportFails;
    }

    /** The final report goes out even with a zero count; whatever fails, the count is back. */
    method Flush(snapshotFails: bool, transportFails: bool, ghost s: State)
      returns (failed: bool, ghost steps: seq<Step>)
      requires Shows(s) && s.main.FlushStart?
      modifies this
      ensures failed <==> snapshotFails || transportFails
      ensures pollSinceReport == if failed then old(pollSinceReport) else 0
      ensures Legal(s, steps) && Shows(Exec(s, steps))
      ensures Exec(s, steps).main == Returned(if failed then FlushError else Clean)
    {
      var r, prepareFailed;
      ghost var order;
      r, prepareFailed, order := PrepareReport(false, snapshotFails);
      if prepareFailed {
        ghost var swapped := Do(s, Run(FlushSwap));
        ExecCons(swapped, Run(FlushSnapshotError), []);
        ExecCons(s, Run(FlushSwap), [Run(FlushSnapshotError)] + []);
        steps := [Run(FlushSwap)] + ([Run(FlushSnapshotError)] + []);
        return true, steps;
      }
      failed := Send(r.value, transportFails);
      steps := FlushRun(order, failed);
      FlushRunExec(s, order, failed);
    }
  }

  ghost function SendRun(failed: bool): seq<Step> {
    if failed then [Run(FlushAttempt(Lost(false, false)))] + ([Run(FlushRestore)] + [])
    else [Run(FlushAttempt(Ack))] + []
  }

  ghost function FlushRun(order: seq<string>, failed: bool): seq<Step> {
    [Run(FlushSwap)] + ([Run(FlushSnapshot(order))] + SendRun(failed))
  }

  lemma SendRunExec(s: State, failed: bool)
    requires s.main.Flushing?
    ensures Legal(s, SendRun(failed))
    ensures var t := Exec(s, SendRun(failed));
            && t.pending == (if failed then Wrap64(s.pending + s.main.report.pollCount) else s.pending)
            && t.gauges == s.gauges && t.main == Returned(if failed then FlushError else Clean)
  {
    if failed {
      var lost := Run(FlushAttempt(Lost(false, false)));
      ExecCons(Do(s, lost), Run(FlushRestore), []);
      ExecCons(s, lost, [Run(FlushRestore)] + []);
    } else {
      ExecCons(s, Run(FlushAttempt(Ack)), []);
    }
  }

  lemma FlushRunExec(s: State, order: seq<string>, failed: bool)
    requires s.main.FlushStart? && Enumerates(order, s.gauges.Keys)
    ensures Legal(s, FlushRun(order, failed))
    ensures var t := Exec(s, FlushRun(order, failed));
            && t.pending == (if failed then s.pending else 0) && t.gauges == s.gauges
            && t.main == Returned(if failed then FlushError else Clean)
  {
    var swapped := Do(s, Run(FlushSwap));
    var ready := Do(swapped, Run(FlushSnapshot(order)));
    SendRunExec(ready, failed);
    ExecCons(swapped, Run(FlushSnapshot(order)), SendRun(failed));
    ExecCons(s, Run(FlushSwap), [Run(FlushSnapshot(order))] + SendRun(failed));
  }

  class Agent {
    const service: ReportingService
    const rateLimit: nat
    var queue: seq<Report>

    constructor (service: ReportingService, rateLimit: nat)
      requires rateLimit > 0
      ensures this.service == service && this.rateLimit == rateLimit && queue == []
    {
      this.service := service;
      this.rateLimit := rateLimit;
      queue := [];
    }

    ghost predicate Mirrors(s: State)
      reads this, service, service.repo
    {
      service.Shows(s) && s.queue == queue && s.rateLimit == rateLimit
    }

    /** One tick of the report loop: never blocks, never drops a count. */
    method Report(snapshotFails: bool, ghost s: State) returns (ghost steps: seq<Step>)
      requires Mirrors(s) && s.reporter.Idle?
      modifies this`queue, service
      ensures queue != old(queue) ==> 0 < |queue| <= rateLimit && queue[..|queue| - 1] == old(queue)
      ensures queue == old(queue) ==> service.pollSinceReport == old(service.pollSinceReport)
      ensures queue != old(queue) ==>
                && service.pollSinceReport == 0 && queue[|queue| - 1].pollCount == old(service.pollSinceReport)
                && IsReportOf(queue[|queue| - 1], service.repo.gauges)
      ensures queue != old(queue)
         <==> old(service.pollSinceReport) != 0 && !snapshotFails && |old(queue)| < rateLimit
      ensures Legal(s, steps) && Mirrors(Exec(s, steps)) && Exec(s, steps).reporter.Idle?
    {
      var report, failed;
      ghost var order;
      report, failed, order := service.PrepareReport(true, snapshotFails);
      if failed || report.None? {
        steps := SkippedRun(failed);
        SkippedRunExec(s, failed);
        return;
      }
      steps := ReportRun(order, |queue| < rateLimit);
      ReportRunExec(s, order);
      if |queue| < rateLimit {
        queue := queue + [report.value];
      } else {
        service.Restore(report.value);
      }
    }

    /** A send worker after the close, alone at the queue: it sends every report that is left and exits.
        fails(i) is the sender's answer for the i-th. */
    method RunSendWorker(fails: nat -> bool, w: nat, ghost s: State) returns (ghost steps: seq<Step>)
      requires Mirrors(s) && s.closed && w < |s.workers| && s.workers[w].Ready?
      modifies this`queue, service
      ensures queue == []
      ensures Legal(s, steps) && Mirrors(Exec(s, steps)) && Exec(s, steps).workers == s.workers[w := Exited]
      ensures Exec(s, steps).main == s.main
    {
      steps := [];
      ghost var t := s;
      var i := 0;
      while queue != []
        invariant Legal(s, steps) && t == Exec(s, steps) && Mirrors(t) && t.closed && t.workers == s.workers
        invariant t.main == s.main
        decreases |queue|
      {
        var report := queue[0];
        queue := queue[1..];
        var failed := service.Send(report, fails(i));
        SendOneRunExec(t, w, failed);
        ExecConcat(s, steps, SendOneRun(w, failed));
        steps := steps + SendOneRun(w, failed);
        t := Exec(s, steps);
        i := i + 1;
      }
      ExecCons(t, Work(w, Exit), []);
      ExecConcat(s, steps, [Work(w, Exit)] + []);
      steps := steps + ([Work(w, Exit)] + []);
    }

    /** The end of Run in the simplest schedule, with the loops joined and one worker left: close the queue,
        let the worker drain it, flush. It returns nil exactly when the flush works. */
    method Finish(fails: nat -> bool, snapshotFails: bool, transportFails: bool, w: nat, ghost s: State)
      returns (failed: bool, ghost steps: seq<Step>)
      requires Mirrors(s) && s.main.Closing? && w < |s.workers| && s.workers[w].Ready?
      requires forall i | 0 <= i < |s.workers| && i != w :: s.workers[i].Exited?
      modifies this`queue, service
      ensures failed <==> snapshotFails || transportFails
      ensures queue == [] && (!failed ==> service.pollSinceReport == 0)
      ensures Legal(s, steps) && service.Shows(Exec(s, steps))
      ensures Exec(s, steps).main == Returned(if failed then FlushError else Clean)
    {
      ghost var closed := Do(s, Run(CloseQueue));
      ghost var drain := RunSendWorker(fails, w, closed);
      ghost var drained := Exec(closed, drain);
      ghost var joined := Do(drained, Run(WorkersJoined));
      ghost var flush;
      failed, flush := service.Flush(snapshotFails, transportFails, joined);
      ExecCons(drained, Run(WorkersJoined), flush);
      ExecConcat(closed, drain, [Run(WorkersJoined)] + flush);
      ExecCons(s, Run(CloseQueue), drain + ([Run(WorkersJoined)] + flush));
      steps := [Run(CloseQueue)] + (drain + ([Run(WorkersJoined)] + flush));
    }
  }

  // ---------------------------------------------------------------------------
  // One send, attempt by attempt
  // ---------------------------------------------------------------------------

  /** What attempt i of a sender's loop is in the protocol; applied tells which failed attempts took effect. */
  function VerdictAt(t: Trace, applied: seq<bool>, i: nat): Verdict
    requires i < |t.results| == |applied|
  {
    if t.results[i].None? then Ack else Lost(applied[i], i < |t.waits|)
  }

  ghost function AttemptRun(w: nat, t: Trace, applied: seq<bool>, i: nat): seq<Step>
    requires i <= |t.results| == |applied|
    decreases |t.results| - i
  {
    if i == |t.results| then []
    else [Work(w, Attempt(VerdictAt(t, applied, i)))] + AttemptRun(w, t, applied, i + 1)
  }

  /** How many of the attempts from the i-th on took effect: all that were acknowledged, and those failed
      ones that were applied. */
  function TookEffect(t: Trace, applied: seq<bool>, i: nat): nat
    requires i <= |t.results| == |applied|
    decreases |t.results| - i
  {
    if i == |t.results| then 0
    else (if t.results[i].None? || applied[i] then 1 else 0) + TookEffect(t, applied, i + 1)
  }

  function ReceivedTimes(st: Store, report: Report, k: nat): Store
    decreases k
  {
    if k == 0 then st else ReceivedTimes(Received(st, report), report, k - 1)
  }

  lemma OneAttempt(s: State, w: nat, report: Report, during: nat -> Option<Error>, retriable: Error -> bool,
                   t: Trace, applied: seq<bool>, i: nat)
    requires Paced(NeverCancelled, during, retriable, DELAYS, t) && i < |t.results| == |applied|
    requires w < |s.workers| && s.workers[w] == Sending(report, i)
    ensures |t.results| == |t.waits| + 1 && Enabled(s, Work(w, Attempt(VerdictAt(t, applied, i))))
    ensures var next := Do(s, Work(w, Attempt(VerdictAt(t, applied, i))));
            && next.server == (if t.results[i].None? || applied[i] then Received(s.server, report) else s.server)
            && next.workers == s.workers[w := if i < |t.waits| then Sending(report, i + 1)
                                              else if t.err.None? then Ready
                                              else Failed(report)]
  {
    assert NeverCancelled(|t.waits|).None?;
  }

  lemma {:induction false} AttemptsFrom(s: State, w: nat, report: Report, during: nat -> Option<Error>,
                                        retriable: Error -> bool, t: Trace, applied: seq<bool>, i: nat)
    requires Paced(NeverCancelled, during, retriable, DELAYS, t) && i < |t.results| == |applied|
    requires w < |s.workers| && s.workers[w] == Sending(report, i)
    ensures Legal(s, AttemptRun(w, t, applied, i))
    ensures var u := Exec(s, AttemptRun(w, t, applied, i));
            && u.workers == s.workers[w := if t.err.None? then Ready else Failed(report)]
            && u.server == ReceivedTimes(s.server, report, TookEffect(t, applied, i))
    decreases |t.results| - i
  {
    OneAttempt(s, w, report, during, retriable, t, applied, i);
    var step := Work(w, Attempt(VerdictAt(t, applied, i)));
    var next := Do(s, step);
    if i < |t.waits| {
      AttemptsFrom(next, w, report, during, retriable, t, applied, i + 1);
    } else {
      assert AttemptRun(w, t, applied, i + 1) == [];
    }
    ExecCons(s, step, AttemptRun(w, t, applied, i + 1));
  }

  /** Every trace of the gRPC or the HTTP sender's loop is a legal run of attempts in the protocol, which ends
      with an acknowledged report exactly when the loop returned nil, and otherwise with one to restore; the
      Server has received the report once for each attempt that took effect. */
  lemma SendIsProtocolRun(s: State, w: nat, report: Report, during: nat -> Option<Error>, retriable: Error -> bool,
                          t: Trace, applied: seq<bool>)
    requires Paced(NeverCancelled, during, retriable, DELAYS, t) && |t.results| == |applied|
    requires w < |s.workers| && s.workers[w] == Sending(report, 0)
    ensures Legal(s, AttemptRun(w, t, applied, 0))
    ensures var u := Exec(s, AttemptRun(w, t, applied, 0));
            && u.workers == s.workers[w := if t.err.None? then Ready else Failed(report)]
            && u.server == ReceivedTimes(s.server, report, TookEffect(t, applied, 0))
  {
    assert NeverCancelled(|t.waits|).None?;
    AttemptsFrom(s, w, report, during, retriable, t, applied, 0);
  }

  // The final report is sent by the same loops

  ghost function FlushAttempts(t: Trace, applied: seq<bool>, i: nat): seq<Step>
    requires i <= |t.results| == |applied|
    decreases |t.results| - i
  {
    if i == |t.results| then []
    else [Run(FlushAttempt(VerdictAt(t, applied, i)))] + FlushAttempts(t, applied, i + 1)
  }

  lemma OneFlushAttempt(s: State, report: Report, during: nat -> Option<Error>, retriable: Error -> bool,
                        t: Trace, applied: seq<bool>, i: nat)
    requires Paced(NeverCancelled, during, retriable, DELAYS, t) && i < |t.results| == |applied|
    requires s.main == Flushing(report, i)
    ensures |t.results| == |t.waits| + 1 && Enabled(s, Run(FlushAttempt(VerdictAt(t, applied, i))))
    ensures var next := Do(s, Run(FlushAttempt(VerdictAt(t, applied, i))));
            && next.server == (if t.results[i].None? || applied[i] then Received(s.server, report) else s.server)
            && next.main == (if i < |t.waits| then Flushing(report, i + 1)
                             else if t.err.None? then Returned(Clean)
                             else FlushFailed(report))
  {
    assert NeverCancelled(|t.waits|).None?;
  }

  lemma {:induction false} FlushAttemptsFrom(s: State, report: Report, during: nat -> Option<Error>,
                                             retriable: Error -> bool, t: Trace, applied: seq<bool>, i: nat)
    requires Paced(NeverCancelled, during, retriable, DELAYS, t) && i < |t.results| == |applied|
    requires s.main == Flushing(report, i)
    ensures Legal(s, FlushAttempts(t, applied, i))
    ensures var u := Exec(s, FlushAttempts(t, applied, i));
            && u.main == (if t.err.None? then Returned(Clean) else FlushFailed(report))
            && u.server == ReceivedTimes(s.server, report, TookEffect(t, applied, i))
    decreases |t.results| - i
  {
    OneFlushAttempt(s, report, during, retriable, t, applied, i);
    var step := Run(FlushAttempt(VerdictAt(t, applied, i)));
    if i < |t.waits| {
      FlushAttemptsFrom(Do(s, step), report, during, retriable, t, applied, i + 1);
    } else {
      assert FlushAttempts(t, applied, i + 1) == [];
    }
    ExecCons(s, step, FlushAttempts(t, applied, i + 1));
  }

  /** So Run returns nil exactly when the loop that sends the final report returned nil, after as many attempts. */
  lemma FlushIsProtocolRun(s: State, report: Report, during: nat -> Option<Error>, retriable: Error -> bool,
                           t: Trace, applied: seq<bool>)
    requires Paced(NeverCancelled, during, retriable, DELAYS, t) && |t.results| == |applied|
    requires s.main == Flushing(report, 0)
    ensures Legal(s, FlushAttempts(t, applied, 0))
    ensures var u := Exec(s, FlushAttempts(t, applied, 0));
            && u.main == (if t.err.None? then Returned(Clean) else FlushFailed(report))
            && u.server == ReceivedTimes(s.server, report, TookEffect(t, applied, 0))
  {
    assert NeverCancelled(|t.waits|).None?;
    FlushAttemptsFrom(s, report, during, retriable, t, applied, 0);
  }

  // The senders' way to a Server, seen as attempts

  /** The failed attempts that reached the Server took effect there. */
  function AppliedBy(trips: nat -> Transports.Trip, n: nat): seq<bool> {
    seq(n, (i: nat) => !trips(i).LostBefore?)
  }

  lemma {:induction false} ReachedTookEffect(t: Trace, trips: nat -> Transports.Trip, i: nat)
    requires i <= |t.results|
    requires forall k | 0 <= k < |t.results| :: t.results[k].None? ==> trips(k).Arrives?
    ensures Transports.Reached(trips, i) + TookEffect(t, AppliedBy(trips, |t.results|), i)
         == Transports.Reached(trips, |t.results|)
    decreases |t.results| - i
  {
    if i < |t.results| {
      ReachedTookEffect(t, trips, i + 1);
    }
  }

  lemma {:induction false} ReceivedIsAccepted(st: Store, report: Report, k: nat)
    requires Transports.AllValid(report.metrics)
    ensures ReceivedTimes(st, report, k) == Transports.AcceptedTimes(st, report.metrics, k)
    decreases k
  {
    if k > 0 {
      Transports.ValidIsComplete(report.metrics);
      ReceivedIsAccepted(Received(st, report), report, k - 1);
      Transports.AcceptedFirst(st, report.metrics, k - 1);
    }
  }

  /** A valid report sent over either transport: where the sender against a Server leaves the store is where
      the protocol's run of the same attempts leaves it. */
  lemma SenderMeetsProtocol(s: State, w: nat, report: Report, during: nat -> Option<Error>, retriable: Error -> bool,
                            t: Trace, trips: nat -> Transports.Trip)
    requires Paced(NeverCancelled, during, retriable, DELAYS, t) && Transports.AllValid(report.metrics)
    requires forall k | 0 <= k < |t.results| :: t.results[k].None? ==> trips(k).Arrives?
    requires w < |s.workers| && s.workers[w] == Sending(report, 0)
    ensures var run := AttemptRun(w, t, AppliedBy(trips, |t.results|), 0);
            && Legal(s, run)
            && Exec(s, run).server
               == Transports.AcceptedTimes(s.server, report.metrics, Transports.Reached(trips, |t.results|))
  {
    SendIsProtocolRun(s, w, report, during, retriable, t, AppliedBy(trips, |t.results|));
    ReachedTookEffect(t, trips, 0);
    ReceivedIsAccepted(s.server, report, Transports.Reached(trips, |t.results|));
  }

  // ---------------------------------------------------------------------------
  // The report loop and the send workers
  // ---------------------------------------------------------------------------

  /** A worker's send, failed or acknowledged at its first attempt. */
  ghost function WorkerSend(w: nat, failed: bool): seq<Step> {
    if failed then [Work(w, Attempt(Lost(false, false)))] + ([Work(w, RestoreFailed)] + [])
    else [Work(w, Attempt(Ack))] + []
  }

  /** What it leaves behind. */
  function Sent(s: State, report: Report, failed: bool): State {
    if failed then AddPending(s, report.pollCount)
    else s.(server := Received(s.server, report), acked := s.acked + report.pollCount)
  }

  lemma WorkerSendFails(s: State, w: nat, report: Report)
    requires w < |s.workers| && s.workers[w] == Sending(report, 0)
    ensures Legal(s, WorkerSend(w, true))
    ensures Exec(s, WorkerSend(w, true)) == Sent(s, report, true).(workers := s.workers[w := Ready])
  {
    var s1 := Do(s, Work(w, Attempt(Lost(false, false))));
    assert s1 == s.(workers := s.workers[w := Failed(report)]);
    assert s1.workers[w := Ready] == s.workers[w := Ready];
    ExecCons(s1, Work(w, RestoreFailed), []);
    ExecCons(s, Work(w, Attempt(Lost(false, false))), [Work(w, RestoreFailed)] + []);
  }

  lemma WorkerSendWorks(s: State, w: nat, report: Report)
    requires w < |s.workers| && s.workers[w] == Sending(report, 0)
    ensures Legal(s, WorkerSend(w, false))
    ensures Exec(s, WorkerSend(w, false)) == Sent(s, report, false).(workers := s.workers[w := Ready])
  {
    ExecCons(s, Work(w, Attempt(Ack)), []);
  }

  /** One report taken and sent by a worker. */
  ghost function SendOneRun(w: nat, failed: bool): seq<Step> {
    [Work(w, Dequeue)] + WorkerSend(w, failed)
  }

  lemma SendOneRunExec(s: State, w: nat, failed: bool)
    requires w < |s.workers| && s.workers[w].Ready? && s.queue != []
    ensures Legal(s, SendOneRun(w, failed))
    ensures Exec(s, SendOneRun(w, failed)) == Sent(s.(queue := s.queue[1..]), s.queue[0], failed)
  {
    var s1 := s.(queue := s.queue[1..], workers := s.workers[w := Sending(s.queue[0], 0)]);
    assert Do(s, Work(w, Dequeue)) == s1;
    if failed {
      WorkerSendFails(s1, w, s.queue[0]);
    } else {
      WorkerSendWorks(s1, w, s.queue[0]);
    }
    BackToReady(s, w, failed);
    ExecCons(s, Work(w, Dequeue), WorkerSend(w, failed));
  }

  lemma BackToReady(s: State, w: nat, failed: bool)
    requires w < |s.workers| && s.workers[w].Ready? && s.queue != []
    ensures var s1 := s.(queue := s.queue[1..], workers := s.workers[w := Sending(s.queue[0], 0)]);
            Sent(s1, s.queue[0], failed).(workers := s1.workers[w := Ready])
            == Sent(s.(queue := s.queue[1..]), s.queue[0], failed)
  {
    assert s.workers[w := Sending(s.queue[0], 0)][w := Ready] == s.workers;
  }

  ghost function SkippedRun(failed: bool): seq<Step> {
    [Periodic(Swap)] + if failed then [Periodic(SnapshotError)] + [] else []
  }

  lemma SkippedRunExec(s: State, failed: bool)
    requires s.reporter.Idle? && (failed <==> s.pending != 0)
    ensures Legal(s, SkippedRun(failed)) && Exec(s, SkippedRun(failed)) == s
  {
    var swapped := Do(s, Periodic(Swap));
    if failed {
      ExecCons(swapped, Periodic(SnapshotError), []);
      ExecCons(s, Periodic(Swap), [Periodic(SnapshotError)] + []);
    } else {
      ExecCons(s, Periodic(Swap), []);
    }
  }

  ghost function OfferRun(room: bool): seq<Step> {
    if room then [Periodic(Enqueue)] + [] else [Periodic(Refuse)] + ([Periodic(Restore)] + [])
  }

  ghost function ReportRun(order: seq<string>, room: bool): seq<Step> {
    [Periodic(Swap)] + ([Periodic(Snapshot(order))] + OfferRun(room))
  }

  lemma RefusedRunExec(s: State)
    requires s.reporter.Offering? && |s.queue| >= s.rateLimit
    ensures Legal(s, OfferRun(false))
    ensures Exec(s, OfferRun(false)) == AddPending(s, s.reporter.report.pollCount).(reporter := Idle)
  {
    var refused := DoReport(s, Refuse);
    ExecCons(refused, Periodic(Restore), []);
    ExecCons(s, Periodic(Refuse), [Periodic(Restore)] + []);
  }

  lemma OfferRunExec(s: State)
    requires s.reporter.Offering?
    ensures var room := |s.queue| < s.rateLimit;
            && Legal(s, OfferRun(room))
            && Exec(s, OfferRun(room))
               == if room then s.(queue := s.queue + [s.reporter.report], reporter := Idle)
                  else AddPending(s, s.reporter.report.pollCount).(reporter := Idle)
  {
    if |s.queue| < s.rateLimit {
      ExecCons(s, Periodic(Enqueue), []);
      assert DoReport(s, Enqueue) == s.(queue := s.queue + [s.reporter.report], reporter := Idle);
    } else {
      RefusedRunExec(s);
    }
  }

  lemma ReportRunExec(s: State, order: seq<string>)
    requires s.reporter.Idle? && s.pending != 0 && Enumerates(order, s.gauges.Keys)
    ensures var room := |s.queue| < s.rateLimit;
            && Legal(s, ReportRun(order, room))
            && Exec(s, ReportRun(order, room))
               == if room then s.(pending := 0,
                                  queue := s.queue + [Report(Batch(order, s.gauges, s.pending), s.pending)])
                  else s
  {
    var room := |s.queue| < s.rateLimit;
    var swapped := Do(s, Periodic(Swap));
    OfferRunExec(Do(swapped, Periodic(Snapshot(order))));
    ExecCons(swapped, Periodic(Snapshot(order)), OfferRun(room));
    ExecCons(s, Periodic(Swap), [Periodic(Snapshot(order))] + OfferRun(room));
  }
}
