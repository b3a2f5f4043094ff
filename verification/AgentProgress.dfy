/** What the Agent can always still do: while it serves, deliver every poll made so far; once cancelled, leave
    every loop in a bounded number of steps and have Run return nil (internal/agent/agent.go). */
module AgentProgress {
  import opened Metrics
  import opened MetricStore
  import opened Reports
  import opened AgentProtocol
  import opened AgentInvariants
  import opened AgentTheorems
  import opened AgentService

  /** Whatever the rate limit, the gauges and the Server hold, there is a state to start from. */
  lemma StartExists(rateLimit: nat, gauges: map<string, Float64>, server: Store)
    requires rateLimit > 0
    ensures exists s :: Init(s) && s.rateLimit == rateLimit && s.gauges == gauges && s.server == server
  {
    var s := State(rateLimit, gauges, 0, Waiting, Waiting, Idle, [], false, seq(rateLimit, (i: nat) => Ready),
                   false, false, Serving, server, server, 0, 0, 0);
    assert Init(s);
  }

  // ---------------------------------------------------------------------------
  // Each loop leaves
  // ---------------------------------------------------------------------------

  /** The three loops Run waits for first. */
  datatype Loop = RuntimeLoop | SystemLoop | ReportLoop

  /** Steps a loop is away from its return, if it begins nothing new. */
  function StepsToLeave(s: State, loop: Loop): nat {
    match loop
    case RuntimeLoop => PollSteps(s.runtime)
    case SystemLoop => PollSteps(s.system)
    case ReportLoop => ReporterSteps(s.reporter)
  }

  function PollSteps(loop: PollLoop): nat {
    match loop
    case Stopped => 0
    case Waiting => 1
    case Writing(todo) => 2 + |todo|
  }

  function ReporterSteps(r: Reporter): nat {
    match r
    case Quit => 0
    case Idle => 1
    case Refused(_) => 2
    case Offering(_) => 3
    case Swapped(_) => 4
  }

  predicate OfLoop(step: Step, loop: Loop) {
    match loop
    case RuntimeLoop => step.Runtime?
    case SystemLoop => step.System?
    case ReportLoop => step.Periodic?
  }

  /** The loop answers its ticker. */
  predicate Begins(step: Step, loop: Loop) {
    match loop
    case RuntimeLoop => step.Runtime? && step.poll.Tick?
    case SystemLoop => step.System? && step.poll.Tick?
    case ReportLoop => step.Periodic? && step.report.Swap?
  }

  /** The loop's next step that begins nothing: go on with what it is at, or leave. */
  function LeavingStep(s: State, loop: Loop): Step
    requires StepsToLeave(s, loop) > 0
  {
    match loop
    case RuntimeLoop => Runtime(LeavingPoll(s.runtime))
    case SystemLoop => System(LeavingPoll(s.system))
    case ReportLoop =>
      Periodic(match s.reporter
               case Idle => Leave
               case Swapped(_) => SnapshotError
               case Offering(_) => if |s.queue| < s.rateLimit then Enqueue else Refuse
               case Refused(_) => Restore
               case Quit => Leave)
  }

  function LeavingPoll(loop: PollLoop): PollStep {
    if loop.Writing? then (if loop.todo == [] then Finish else Write(true)) else Stop
  }

  lemma LeavingIsEnabled(s: State, loop: Loop)
    requires s.cancelled && StepsToLeave(s, loop) > 0
    ensures var step := LeavingStep(s, loop); Enabled(s, step) && OfLoop(step, loop) && !Begins(step, loop)
  {
  }

  lemma StepTowardsLeaving(s: State, loop: Loop, step: Step)
    requires s.cancelled && Enabled(s, step) && !Begins(step, loop)
    ensures Do(s, step).cancelled
    ensures if OfLoop(step, loop) then StepsToLeave(Do(s, step), loop) < StepsToLeave(s, loop)
            else StepsToLeave(Do(s, step), loop) == StepsToLeave(s, loop)
  {
    match step
    case Work(w, k) => WorkKeepsLoops(s, w, k);
    case Run(m) => RunKeepsLoops(s, m);
    case _ =>
  }

  predicate SameLoops(s: State, t: State) {
    t.runtime == s.runtime && t.system == s.system && t.reporter == s.reporter && t.cancelled == s.cancelled
  }

  lemma DeliveredKeepsLoops(s: State, report: Report, verdict: Verdict)
    ensures SameLoops(s, Delivered(s, report, verdict))
  {
  }

  lemma WorkKeepsLoops(s: State, w: nat, step: WorkStep)
    requires WorkEnabled(s, w, step)
    ensures SameLoops(s, DoWork(s, w, step))
  {
    if step.Attempt? {
      DeliveredKeepsLoops(s, s.workers[w].report, step.verdict);
    }
  }

  lemma RunKeepsLoops(s: State, step: MainStep)
    requires RunEnabled(s, step)
    ensures SameLoops(s, DoRun(s, step))
  {
    if step.FlushAttempt? {
      DeliveredKeepsLoops(s, s.main.report, step.verdict);
    }
  }

  function OwnSteps(steps: seq<Step>, loop: Loop): nat {
    if steps == [] then 0 else (if OfLoop(steps[0], loop) then 1 else 0) + OwnSteps(steps[1..], loop)
  }

  /** After the cancellation, in any run in which the loop does not answer its ticker again, whatever the
      others do: it makes no more steps than it was away from its return, it can take another until it has
      returned, and so it has returned once it has made them all. */
  lemma {:induction false} LoopLeaves(s: State, loop: Loop, steps: seq<Step>)
    requires s.cancelled && Legal(s, steps) && forall i | 0 <= i < |steps| :: !Begins(steps[i], loop)
    ensures var t := Exec(s, steps);
            && OwnSteps(steps, loop) + StepsToLeave(t, loop) <= StepsToLeave(s, loop)
            && (StepsToLeave(t, loop) > 0 ==>
                  exists step :: Enabled(t, step) && OfLoop(step, loop) && !Begins(step, loop))
    decreases |steps|
  {
    if steps == [] {
      if StepsToLeave(s, loop) > 0 {
        LeavingIsEnabled(s, loop);
      }
    } else {
      assert !Begins(steps[0], loop) && forall i | 0 <= i < |steps[1..]| :: steps[1..][i] == steps[i + 1];
      StepTowardsLeaving(s, loop, steps[0]);
      LoopLeaves(Do(s, steps[0]), loop, steps[1..]);
    }
  }

  /** No steps to go means that the loop has returned. */
  lemma LeftMeansReturned(s: State)
    requires forall loop :: StepsToLeave(s, loop) == 0
    ensures LoopsStopped(s)
  {
    assert StepsToLeave(s, RuntimeLoop) == 0 && StepsToLeave(s, SystemLoop) == 0 && StepsToLeave(s, ReportLoop) == 0;
  }

  // ---------------------------------------------------------------------------
  // Run can return nil
  // ---------------------------------------------------------------------------

  /** Run has not returned, and its final report has not failed. */
  predicate MaySucceed(main: Main) {
    !main.Returned? && !main.FlushFailed?
  }

  lemma {:induction false} Leave1(s: State, loop: Loop) returns (steps: seq<Step>)
    requires Inv(s) && s.cancelled
    ensures Legal(s, steps)
    ensures var t := Exec(s, steps);
            && Inv(t) && t.cancelled && t.main == s.main && StepsToLeave(t, loop) == 0
            && forall other | other != loop :: StepsToLeave(t, other) == StepsToLeave(s, other)
    decreases StepsToLeave(s, loop)
  {
    if StepsToLeave(s, loop) == 0 {
      steps := [];
    } else {
      var step := LeavingStep(s, loop);
      LeavingIsEnabled(s, loop);
      forall other ensures other != loop ==> StepsToLeave(Do(s, step), other) == StepsToLeave(s, other) {
        StepTowardsLeaving(s, other, step);
      }
      StepTowardsLeaving(s, loop, step);
      InvKept(s, step);
      assert Do(s, step).main == s.main;
      var rest := Leave1(Do(s, step), loop);
      ExecCons(s, step, rest);
      steps := [step] + rest;
    }
  }

  lemma LoopsCanLeave(s: State) returns (steps: seq<Step>)
    requires Inv(s) && s.cancelled
    ensures Legal(s, steps)
    ensures var t := Exec(s, steps); Inv(t) && LoopsStopped(t) && t.main == s.main
  {
    var a := Leave1(s, RuntimeLoop);
    var s1 := Exec(s, a);
    var b := Leave1(s1, SystemLoop);
    var s2 := Exec(s1, b);
    var c := Leave1(s2, ReportLoop);
    ExecConcat(s1, b, c);
    ExecConcat(s, a, b + c);
    steps := a + (b + c);
    LeftMeansReturned(Exec(s, steps));
  }

  lemma {:induction false} QueueCanDrain(s: State) returns (steps: seq<Step>)
    requires Inv(s) && s.closed && s.main.AwaitWorkers?
    ensures Legal(s, steps)
    ensures var t := Exec(s, steps); Inv(t) && AllExited(t.workers) && t.main == s.main
    decreases Remaining(s)
  {
    if AllExited(s.workers) {
      steps := [];
    } else {
      DrainProgress(s);
      var w: nat, k :| Enabled(s, Work(w, k));
      DrainStep(s, Work(w, k));
      InvKept(s, Work(w, k));
      WorkKeepsMain(s, w, k);
      var rest := QueueCanDrain(Do(s, Work(w, k)));
      ExecCons(s, Work(w, k), rest);
      steps := [Work(w, k)] + rest;
    }
  }

  lemma WorkKeepsMain(s: State, w: nat, step: WorkStep)
    requires WorkEnabled(s, w, step)
    ensures DoWork(s, w, step).main == s.main
  {
  }

  lemma {:induction false} SomeOrder(names: set<string>) returns (order: seq<string>)
    ensures Enumerates(order, names)
  {
    if names == {} {
      order := [];
    } else {
      var name :| name in names;
      var rest := SomeOrder(names - {name});
      order := [name] + rest;
    }
  }

  lemma FlushCanSucceed(s: State) returns (steps: seq<Step>)
    requires s.main.FlushStart? || s.main.FlushSwapped? || s.main.Flushing?
    ensures Legal(s, steps) && Exec(s, steps).main == Returned(Clean)
    decreases if s.main.FlushStart? then 2 else if s.main.FlushSwapped? then 1 else 0
  {
    match s.main {
      case FlushStart =>
        var rest := FlushCanSucceed(Do(s, Run(FlushSwap)));
        ExecCons(s, Run(FlushSwap), rest);
        steps := [Run(FlushSwap)] + rest;
      case FlushSwapped(_) =>
        var order := SomeOrder(s.gauges.Keys);
        var rest := FlushCanSucceed(Do(s, Run(FlushSnapshot(order))));
        ExecCons(s, Run(FlushSnapshot(order)), rest);
        steps := [Run(FlushSnapshot(order))] + rest;
      case Flushing(_, _) =>
        ExecCons(s, Run(FlushAttempt(Ack)), []);
        steps := [Run(FlushAttempt(Ack))] + [];
    }
  }

  lemma FromWorkers(s: State) returns (steps: seq<Step>)
    requires Inv(s) && s.main.AwaitWorkers?
    ensures Legal(s, steps) && Exec(s, steps).main == Returned(Clean)
  {
    var drain := QueueCanDrain(s);
    var t := Exec(s, drain);
    var flush := FlushCanSucceed(Do(t, Run(WorkersJoined)));
    ExecCons(t, Run(WorkersJoined), flush);
    ExecConcat(s, drain, [Run(WorkersJoined)] + flush);
    steps := drain + ([Run(WorkersJoined)] + flush);
  }

  lemma FromClosing(s: State) returns (steps: seq<Step>)
    requires Inv(s) && s.main.Closing?
    ensures Legal(s, steps) && Exec(s, steps).main == Returned(Clean)
  {
    InvKept(s, Run(CloseQueue));
    var rest := FromWorkers(Do(s, Run(CloseQueue)));
    ExecCons(s, Run(CloseQueue), rest);
    steps := [Run(CloseQueue)] + rest;
  }

  lemma FromLoops(s: State) returns (steps: seq<Step>)
    requires Inv(s) && s.main.AwaitLoops?
    ensures Legal(s, steps) && Exec(s, steps).main == Returned(Clean)
  {
    var leave := LoopsCanLeave(s);
    var t := Exec(s, leave);
    InvKept(t, Run(LoopsJoined));
    var rest := FromClosing(Do(t, Run(LoopsJoined)));
    ExecCons(t, Run(LoopsJoined), rest);
    ExecConcat(s, leave, [Run(LoopsJoined)] + rest);
    steps := leave + ([Run(LoopsJoined)] + rest);
  }

  lemma FromServing(s: State) returns (steps: seq<Step>)
    requires Inv(s) && s.main.Serving?
    ensures Legal(s, steps) && Exec(s, steps).main == Returned(Clean)
  {
    var t := s;
    if !s.cancelled {
      InvKept(s, Cancel);
      t := Do(s, Cancel);
    }
    InvKept(t, Run(Begin));
    var rest := FromLoops(Do(t, Run(Begin)));
    ExecCons(t, Run(Begin), rest);
    steps := [Run(Begin)] + rest;
    if !s.cancelled {
      ExecCons(s, Cancel, steps);
      steps := [Cancel] + steps;
    }
  }

  /** From every reachable state in which Run has not returned and its final report has not failed, some
      run ends with Run returning nil. */
  lemma RunCanSucceed(s: State)
    requires Reachable(s) && MaySucceed(s.main)
    ensures exists steps :: Legal(s, steps) && Exec(s, steps).main == Returned(Clean)
  {
    ReachableInv(s);
    var steps;
    match s.main {
      case Serving => steps := FromServing(s);
      case AwaitLoops => steps := FromLoops(s);
      case Closing => steps := FromClosing(s);
      case AwaitWorkers => steps := FromWorkers(s);
      case _ => steps := FlushCanSucceed(s);
    }
  }

  // ---------------------------------------------------------------------------
  // Timeouts and what they leave
  // ---------------------------------------------------------------------------

  /** While Run waits for the loops or the workers its timeout may fire, whatever state they are in. */
  lemma TimeoutMayFire(s: State)
    requires s.main.AwaitLoops? || s.main.AwaitWorkers?
    ensures exists step :: Enabled(s, Run(step)) && Do(s, Run(step)).sendCancelled
                           && Do(s, Run(step)).main == Returned(if s.main.AwaitLoops? then LoopsTimedOut else WorkersTimedOut)
  {
    if s.main.AwaitLoops? {
      assert Enabled(s, Run(LoopsTimeout));
    } else {
      assert Enabled(s, Run(WorkersTimeout));
    }
  }

  // After either return on a timeout the workers see their own context cancelled

  /** Steps a worker is away from its exit, if it takes no further report. */
  function StepsToExit(worker: Worker): nat {
    match worker
    case Exited => 0
    case Ready => 1
    case Failed(_) => 2
    case Sending(_, attempt) => if attempt < RETRIES then 3 + RETRIES - attempt else 3
  }

  lemma ExitIsEnabled(s: State, w: nat) returns (k: WorkStep)
    requires s.sendCancelled && w < |s.workers| && StepsToExit(s.workers[w]) > 0
    ensures Enabled(s, Work(w, k)) && !k.Dequeue?
  {
    k := match s.workers[w] case Sending(_, _) => Attempt(Lost(false, false)) case Failed(_) => RestoreFailed case _ => Exit;
  }

  lemma WorkTowardsExit(s: State, w: nat, v: nat, step: WorkStep)
    requires Inv(s) && w < |s.workers| && WorkEnabled(s, v, step) && (v == w ==> !step.Dequeue?)
    ensures var t := DoWork(s, v, step);
            && |t.workers| == |s.workers| && t.sendCancelled == s.sendCancelled
            && if v == w then StepsToExit(t.workers[w]) < StepsToExit(s.workers[w]) else t.workers[w] == s.workers[w]
  {
    assert WorkerInOrder(s, s.workers[w]);
  }

  lemma OthersKeepWorkers(s: State, step: Step)
    requires Enabled(s, step) && !step.Work?
    ensures Do(s, step).workers == s.workers && (s.sendCancelled ==> Do(s, step).sendCancelled)
  {
    match step
    case Periodic(r) => ReportKeepsWorkers(s, r);
    case Run(m) => RunKeepsWorkers(s, m);
    case _ =>
  }

  lemma ReportKeepsWorkers(s: State, step: ReportStep)
    requires ReportEnabled(s, step)
    ensures DoReport(s, step).workers == s.workers && DoReport(s, step).sendCancelled == s.sendCancelled
  {
  }

  lemma RunKeepsWorkers(s: State, step: MainStep)
    requires RunEnabled(s, step)
    ensures DoRun(s, step).workers == s.workers && (s.sendCancelled ==> DoRun(s, step).sendCancelled)
  {
  }

  predicate OfWorker(step: Step, w: nat) {
    step.Work? && step.w == w
  }

  lemma StepTowardsExit(s: State, w: nat, step: Step)
    requires Inv(s) && s.sendCancelled && w < |s.workers| && Enabled(s, step) && step != Work(w, Dequeue)
    ensures var t := Do(s, step);
            && Inv(t) && t.sendCancelled && |t.workers| == |s.workers|
            && if OfWorker(step, w) then StepsToExit(t.workers[w]) < StepsToExit(s.workers[w])
               else t.workers[w] == s.workers[w]
  {
    InvKept(s, step);
    if step.Work? {
      WorkTowardsExit(s, w, step.w, step.work);
    } else {
      OthersKeepWorkers(s, step);
    }
  }

  function OwnWork(steps: seq<Step>, w: nat): nat {
    if steps == [] then 0 else (if OfWorker(steps[0], w) then 1 else 0) + OwnWork(steps[1..], w)
  }

  /** Once Run has returned, in any run in which the worker takes no further report, whatever the others do: it
      makes no more steps than it was away from its exit, and can take another until it has exited. */
  lemma {:induction false} WorkerLeaves(s: State, w: nat, steps: seq<Step>)
    requires Inv(s) && s.sendCancelled && w < |s.workers| && Legal(s, steps)
    requires forall i | 0 <= i < |steps| :: steps[i] != Work(w, Dequeue)
    ensures var t := Exec(s, steps);
            && |t.workers| == |s.workers|
            && OwnWork(steps, w) + StepsToExit(t.workers[w]) <= StepsToExit(s.workers[w]) <= 3 + RETRIES
            && (StepsToExit(t.workers[w]) > 0 ==> exists k :: Enabled(t, Work(w, k)) && !k.Dequeue?)
    decreases |steps|
  {
    if steps == [] {
      if StepsToExit(s.workers[w]) > 0 {
        var k := ExitIsEnabled(s, w);
      }
    } else {
      assert steps[0] != Work(w, Dequeue) && forall i | 0 <= i < |steps[1..]| :: steps[1..][i] == steps[i + 1];
      StepTowardsExit(s, w, steps[0]);
      WorkerLeaves(Do(s, steps[0]), w, steps[1..]);
    }
  }

  // ---------------------------------------------------------------------------
  // While the Agent serves
  // ---------------------------------------------------------------------------

  predicate NoneExited(workers: seq<Worker>) {
    forall i | 0 <= i < |workers| :: !workers[i].Exited?
  }

  /** Nothing has stopped. */
  predicate Serves(s: State) {
    !s.runtime.Stopped? && !s.system.Stopped? && !s.reporter.Quit? && NoneExited(s.workers)
  }

  lemma ServesKept(s: State, step: Step)
    requires Inv(s) && Enabled(s, step) && (!s.cancelled ==> Serves(s))
    ensures !Do(s, step).cancelled ==> Serves(Do(s, step))
  {
    match step
    case Work(w, k) =>
      WorkKeepsLoops(s, w, k);
      if !s.cancelled {
        assert NoneExited(DoWork(s, w, k).workers);
      }
    case Run(m) => RunKeepsLoops(s, m);
      OthersKeepWorkers(s, step);
    case _ => OthersKeepWorkers(s, step);
  }

  lemma {:induction false} ServesAlong(s: State, steps: seq<Step>)
    requires Inv(s) && Legal(s, steps) && (!s.cancelled ==> Serves(s))
    ensures !Exec(s, steps).cancelled ==> Serves(Exec(s, steps))
    decreases |steps|
  {
    if steps != [] {
      ServesKept(s, steps[0]);
      InvKept(s, steps[0]);
      ServesAlong(Do(s, steps[0]), steps[1..]);
    }
  }

  /** Without a cancellation no loop and no worker ever leaves, and Run does not go on. */
  lemma NothingLeavesEarly(s: State)
    requires Reachable(s) && !s.cancelled
    ensures Serves(s) && s.main.Serving? && !s.closed
  {
    var first, steps :| Init(first) && Legal(first, steps) && Exec(first, steps) == s;
    InitInv(first);
    ServesAlong(first, steps);
    ReachableInv(s);
  }

  /** What a delivery leaves alone. */
  predicate SameAgent(s: State, t: State) {
    && t.cancelled == s.cancelled && t.main == s.main && t.polls == s.polls && t.rateLimit == s.rateLimit
    && t.runtime == s.runtime && t.system == s.system && |t.workers| == |s.workers|
  }

  lemma {:induction false} ReporterToIdle(s: State) returns (steps: seq<Step>)
    requires !s.reporter.Quit?
    ensures Legal(s, steps)
    ensures var t := Exec(s, steps); t.reporter.Idle? && t.workers == s.workers && SameAgent(s, t)
    decreases ReportEffort(s.reporter)
  {
    if s.reporter.Idle? {
      steps := [];
    } else {
      var r := match s.reporter
               case Swapped(_) => SnapshotError
               case Offering(_) => if |s.queue| < s.rateLimit then Enqueue else Refuse
               case _ => Restore;
      var rest := ReporterToIdle(DoReport(s, r));
      ExecCons(s, Periodic(r), rest);
      steps := [Periodic(r)] + rest;
    }
  }

  lemma WorkerToReady(s: State, w: nat) returns (steps: seq<Step>)
    requires w < |s.workers| && !s.workers[w].Exited?
    ensures Legal(s, steps)
    ensures var t := Exec(s, steps);
            t.workers == s.workers[w := Ready] && t.reporter == s.reporter && SameAgent(s, t)
  {
    if s.workers[w].Ready? {
      steps := [];
      assert s.workers[w := Ready] == s.workers;
    } else {
      var k := if s.workers[w].Failed? then RestoreFailed else Attempt(Ack);
      ExecCons(s, Work(w, k), []);
      steps := [Work(w, k)] + [];
    }
  }

  predicate AllReady(workers: seq<Worker>) {
    forall i | 0 <= i < |workers| :: workers[i].Ready?
  }

  lemma {:induction false} WorkersToReady(s: State, n: nat) returns (steps: seq<Step>)
    requires NoneExited(s.workers) && n <= |s.workers| && forall i | n <= i < |s.workers| :: s.workers[i].Ready?
    ensures Legal(s, steps)
    ensures var t := Exec(s, steps); AllReady(t.workers) && t.reporter == s.reporter && SameAgent(s, t)
    decreases n
  {
    if n == 0 {
      steps := [];
    } else {
      var one := WorkerToReady(s, n - 1);
      var rest := WorkersToReady(Exec(s, one), n - 1);
      ExecConcat(s, one, rest);
      steps := one + rest;
    }
  }

  lemma {:induction false} QueueToServer(s: State) returns (steps: seq<Step>)
    requires s.workers != [] && s.workers[0].Ready?
    ensures Legal(s, steps)
    ensures var t := Exec(s, steps);
            && t.queue == [] && t.workers == s.workers && t.reporter == s.reporter && t.pending == s.pending
            && SameAgent(s, t)
    decreases |s.queue|
  {
    if s.queue == [] {
      steps := [];
    } else {
      SendOneRunExec(s, 0, false);
      var rest := QueueToServer(Exec(s, SendOneRun(0, false)));
      ExecConcat(s, SendOneRun(0, false), rest);
      steps := SendOneRun(0, false) + rest;
    }
  }

  /** Nothing is on its way. */
  predicate Settled(s: State) {
    s.pending == 0 && s.reporter.Idle? && s.queue == [] && AllReady(s.workers)
  }

  lemma LastReport(s: State) returns (steps: seq<Step>)
    requires s.rateLimit > 0 && s.reporter.Idle? && s.queue == [] && s.workers != [] && AllReady(s.workers)
    ensures Legal(s, steps)
    ensures var t := Exec(s, steps); Settled(t) && SameAgent(s, t)
  {
    if s.pending == 0 {
      steps := [];
    } else {
      var order := SomeOrder(s.gauges.Keys);
      ReportRunExec(s, order);
      var t := Exec(s, ReportRun(order, true));
      SendOneRunExec(t, 0, false);
      ExecConcat(s, ReportRun(order, true), SendOneRun(0, false));
      steps := ReportRun(order, true) + SendOneRun(0, false);
    }
  }

  lemma Deliver(s: State) returns (steps: seq<Step>)
    requires Control(s) && !s.reporter.Quit? && NoneExited(s.workers)
    ensures Legal(s, steps)
    ensures var t := Exec(s, steps); Settled(t) && SameAgent(s, t)
  {
    var idle := ReporterToIdle(s);
    var s1 := Exec(s, idle);
    var ready := WorkersToReady(s1, |s1.workers|);
    var s2 := Exec(s1, ready);
    var drain := QueueToServer(s2);
    var s3 := Exec(s2, drain);
    var last := LastReport(s3);
    ExecConcat(s2, drain, last);
    ExecConcat(s1, ready, drain + last);
    ExecConcat(s, idle, ready + (drain + last));
    steps := idle + (ready + (drain + last));
  }

  lemma {:induction false} ReadyCarryNothing(workers: seq<Worker>)
    requires AllReady(workers)
    ensures InFlight(workers) == 0
  {
    if workers != [] {
      ReadyCarryNothing(workers[1..]);
    }
  }

  lemma SettledAcked(s: State)
    requires Inv(s) && Settled(s) && s.main.Serving?
    ensures Wrap64(s.acked) == Wrap64(s.polls) && (FitsInt64(s.polls) ==> s.acked == s.polls)
  {
    ReadyCarryNothing(s.workers);
    assert Carried(s) == s.acked;
    WrapCongruent(Carried(s), s.polls);
  }

  /** From every reachable state before the cancellation some run, in which Run goes on serving, delivers
      every poll made so far: nothing is left anywhere, and the acknowledged counts sum to the polls. */
  lemma EveryPollCanArrive(s: State)
    requires Reachable(s) && !s.cancelled
    ensures exists steps :: Legal(s, steps) && Arrived(s, Exec(s, steps))
  {
    NothingLeavesEarly(s);
    ReachableInv(s);
    var steps := Deliver(s);
    InvAlong(s, steps);
    SettledAcked(Exec(s, steps));
  }

  predicate Arrived(s: State, t: State) {
    && Settled(t) && SameAgent(s, t)
    && Wrap64(t.acked) == Wrap64(s.polls) && (FitsInt64(s.polls) ==> t.acked == s.polls)
  }

  /** A report is refused exactly when the queue is full: of the two ways to go on from an offer, the
      other one is open otherwise. */
  lemma RefusedWhenFull(s: State)
    requires Reachable(s) && s.reporter.Offering?
    ensures Enabled(s, Periodic(Refuse)) <==> |s.queue| == s.rateLimit
    ensures Enabled(s, Periodic(Enqueue)) <==> |s.queue| < s.rateLimit
    ensures forall r :: Enabled(s, Periodic(r)) ==> r == Refuse || r == Enqueue
  {
    ReachableInv(s);
  }
}
