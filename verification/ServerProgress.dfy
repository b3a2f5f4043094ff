/** What the Server's saves come to in the end: a periodic save leaves the memory of its tick, a request's own
    save leaves what it updated, and from every state a shutdown can finish with the memory in the file
    (internal/server/server.go, internal/server/persistence.go, internal/server/service/metrics.go). */
module ServerProgress {
  import opened MetricStore
  import opened Persistence
  import opened ServerLifecycle

  /** In each mode, with any metrics restored and any handlers to come, there is a state to start from. */
  lemma StartExists(mode: Mode, size: Store -> nat, memory: Store, transports: seq<Transport>)
    ensures exists s :: Init(s) && s.mode == mode && s.size == size && s.memory == memory && s.transports == transports
  {
    var s := State(mode, size, memory, First, NotStarted, NotStarted, transports, seq(|transports|, (i: nat) => Idle),
                   if mode.Periodic? then Ticking else Absent, Fresh, Before, false, [memory], 0);
    assert Init(s);
  }

  // ---------------------------------------------------------------------------
  // The bytes behind a write
  // ---------------------------------------------------------------------------

  /** Data written from the start of a file by one call. */
  function Overwritten(content: seq<nat>, data: seq<nat>): seq<nat> {
    if |data| < |content| then data + content[|data|..] else data
  }

  /** The write carries as much of the list as it got through. */
  predicate Carries(written: Written, list: seq<nat>, data: seq<nat>) {
    if written.Only? then written.bytes < |list| && data == list[..written.bytes] else data == list
  }

  /** What a write makes of the file, in bytes: the length it is said to have; and after a write that got
      through, the list if it is said to be a save, and the list with something behind it if it is not. */
  lemma PutIsOverwrite(size: Store -> nat, disk: Disk, st: Store, written: Written,
                       list: seq<nat>, content: seq<nat>, data: seq<nat>)
    requires |list| == size(st) && |content| == Length(size, disk) && Carries(written, list, data)
    ensures var after := ServerLifecycle.Put(size, disk, st, written);
            && |Overwritten(content, data)| == Length(size, after)
            && (!written.Only? ==> (after == Saved(st) <==> Overwritten(content, data) == list))
            && (data == [] && written.Only? ==> after == disk)
            && (data != [] && written.Only? ==> after.Mixed?)
  {
    if |data| < |content| {
      assert |data + content[|data|..]| == |content|;
    }
  }

  // ---------------------------------------------------------------------------
  // Memory
  // ---------------------------------------------------------------------------

  /** The store the last update of the run left. */
  function LastUpdate(steps: seq<Step>, start: Store): Store
    decreases |steps|
  {
    if steps == [] then start else LastUpdate(steps[1..], if steps[0].Update? then steps[0].next else start)
  }

  /** Saving, failed or not, never changes the memory: it is what the last update made of it. */
  lemma {:induction false} MemoryIsLastUpdate(s: State, steps: seq<Step>)
    requires Legal(s, steps)
    ensures Exec(s, steps).memory == LastUpdate(steps, s.memory)
    decreases |steps|
  {
    if steps != [] {
      MemoryIsLastUpdate(Do(s, steps[0]), steps[1..]);
    }
  }

  // ---------------------------------------------------------------------------
  // Periodic saves
  // ---------------------------------------------------------------------------

  /** The memory as it was at the last tick of the run. */
  ghost function AtLastTick(s: State, steps: seq<Step>, before: Store): Store
    requires Legal(s, steps)
    decreases |steps|
  {
    if steps == [] then before
    else AtLastTick(Do(s, steps[0]), steps[1..], if steps[0].Tick? then s.memory else before)
  }

  /** The periodic save under way is of that memory, and while it has the file open nobody else writes it. */
  ghost predicate OfTick(s: State, ticked: Store) {
    && s.mode.Periodic?
    && (s.saver.Taken? || s.saver.TickOpened? ==> s.saver.snapshot == ticked)
    && (s.saver.TickOpened? ==> s.disk == Cleared)
  }

  lemma OfTickKept(s: State, step: Step, ticked: Store)
    requires Inv(s) && OfTick(s, ticked) && Enabled(s, step)
    ensures OfTick(Do(s, step), if step.Tick? then s.memory else ticked)
    ensures step == TickSave(All) ==> Do(s, step).disk == Saved(ticked)
  {
    if s.saver.TickOpened? {
      assert WriterOf(step).None? || step.TickSave?;
    }
  }

  lemma {:induction false} SavesTick(s: State, steps: seq<Step>, ticked: Store)
    requires Inv(s) && OfTick(s, ticked) && Legal(s, steps)
    requires steps != [] && steps[|steps| - 1] == TickSave(All)
    ensures Exec(s, steps).disk == Saved(AtLastTick(s, steps, ticked))
    decreases |steps|
  {
    OfTickKept(s, steps[0], ticked);
    InvKept(s, steps[0]);
    if |steps| > 1 {
      SavesTick(Do(s, steps[0]), steps[1..], if steps[0].Tick? then s.memory else ticked);
    } else {
      assert steps[1..] == [];
    }
  }

  /** Whenever a periodic save ends, in any run, the file holds the memory as it was at the saver's last tick. */
  lemma PeriodicSaveIsTick(first: State, steps: seq<Step>)
    requires Init(first) && first.mode.Periodic? && Legal(first, steps)
    requires steps != [] && steps[|steps| - 1] == TickSave(All)
    ensures Exec(first, steps).disk == Saved(AtLastTick(first, steps, first.memory))
  {
    SavesTick(first, steps, first.memory);
  }

  /** What one save leaves in the file when nothing comes between its steps. */
  ghost function Outcome(s: State, st: Store, fails: bool, written: Written): Disk {
    if !Encodable(st) || fails then s.disk
    else if !written.Only? then Saved(st)
    else if written.bytes == 0 then Cleared
    else Mixed(written.bytes)
  }

  ghost function TickRun(s: State, fails: bool, written: Written): seq<Step> {
    [Tick] + ([TickOpen(fails)] + (if Encodable(s.memory) && !fails then [TickSave(written)] + [] else []))
  }

  /** From every state in which the saver waits for its ticker, a save can be made, and it is of the memory as it
      is; if it fails, the saver goes on waiting. */
  lemma TickRound(s: State, fails: bool, written: Written)
    requires s.saver.Ticking? && Fits(s, s.memory, written)
    ensures Legal(s, TickRun(s, fails, written))
    ensures var t := Exec(s, TickRun(s, fails, written));
            t == s.(disk := Outcome(s, s.memory, fails, written))
  {
    var s1 := Do(s, Tick);
    var s2 := Do(s1, TickOpen(fails));
    if Encodable(s.memory) && !fails {
      ExecCons(s2, TickSave(written), []);
      ExecCons(s1, TickOpen(fails), [TickSave(written)] + []);
      ExecCons(s, Tick, [TickOpen(fails)] + ([TickSave(written)] + []));
    } else {
      ExecCons(s1, TickOpen(fails), []);
      ExecCons(s, Tick, [TickOpen(fails)] + []);
    }
  }

  // ---------------------------------------------------------------------------
  // One request
  // ---------------------------------------------------------------------------

  ghost function RequestRun(s: State, h: nat, next: Store, fails: bool, written: Written): seq<Step> {
    [Update(h, next)] + if s.mode.Synchronous? then SaveRun(h, next, fails, written) else []
  }

  ghost function SaveRun(h: nat, st: Store, fails: bool, written: Written): seq<Step> {
    [TakeSnapshot(h)] + ([Open(h, fails)] + (if Encodable(st) && !fails then [Save(h, written)] + [] else []))
  }

  lemma SaveRound(s: State, h: nat, fails: bool, written: Written)
    requires s.mode.Synchronous? && h < |s.handlers| && s.handlers[h].Updated? && Fits(s, s.memory, written)
    ensures Legal(s, SaveRun(h, s.memory, fails, written))
    ensures Exec(s, SaveRun(h, s.memory, fails, written))
         == s.(disk := Outcome(s, s.memory, fails, written), handlers := s.handlers[h := Idle])
  {
    var s1 := Do(s, TakeSnapshot(h));
    var s2 := Do(s1, Open(h, fails));
    assert s1.handlers[h := Idle] == s.handlers[h := Idle];
    if Encodable(s.memory) && !fails {
      assert s2.handlers[h := Idle] == s.handlers[h := Idle];
      ExecCons(s2, Save(h, written), []);
      ExecCons(s1, Open(h, fails), [Save(h, written)] + []);
      ExecCons(s, TakeSnapshot(h), [Open(h, fails)] + ([Save(h, written)] + []));
    } else {
      ExecCons(s1, Open(h, fails), []);
      ExecCons(s, TakeSnapshot(h), [Open(h, fails)] + []);
    }
  }

  /** A request whose steps nothing comes between: the update stays whatever becomes of the save, and the save,
      made exactly in synchronous mode, is of the updated memory. */
  lemma RequestRound(s: State, h: nat, next: Store, fails: bool, written: Written)
    requires h < |s.handlers| && s.handlers[h].Admitted? && Fits(s, next, written)
    ensures Legal(s, RequestRun(s, h, next, fails, written))
    ensures Exec(s, RequestRun(s, h, next, fails, written))
         == s.(memory := next, past := s.past + [next], handlers := s.handlers[h := Idle],
               disk := if s.mode.Synchronous? then Outcome(s, next, fails, written) else s.disk)
  {
    var t := Do(s, Update(h, next));
    if s.mode.Synchronous? {
      assert t.handlers[h := Idle] == s.handlers[h := Idle];
      SaveRound(t, h, fails, written);
      ExecCons(s, Update(h, next), SaveRun(h, next, fails, written));
    } else {
      ExecCons(s, Update(h, next), []);
    }
  }

  /** Steps a request is away from its end. */
  function StepsLeft(mode: Mode, handler: Handler): nat {
    match handler
    case Idle => 0
    case Admitted => if mode.Synchronous? then 4 else 1
    case Updated => 3
    case Holding(_) => 2
    case Opened(_) => 1
  }

  function OwnSteps(steps: seq<Step>, h: nat): nat {
    if steps == [] then 0 else (if OfHandler(steps[0]) && steps[0].h == h then 1 else 0) + OwnSteps(steps[1..], h)
  }

  /** The transport of the handler takes no more requests. */
  predicate Refusing(s: State, h: nat)
    requires h < |s.transports|
  {
    ServiceOf(s, s.transports[h]).Draining? || ServiceOf(s, s.transports[h]).Down?
  }

  /** One more step, by this handler or by anyone else. */
  ghost predicate Nearer(s: State, h: nat, own: bool, t: State)
    requires h < |s.handlers| == |s.transports|
  {
    && |t.handlers| == |s.handlers| && t.transports == s.transports && t.mode == s.mode && Refusing(t, h)
    && if own then StepsLeft(t.mode, t.handlers[h]) < StepsLeft(s.mode, s.handlers[h]) else t.handlers[h] == s.handlers[h]
  }

  lemma HandlerMoves(s: State, h: nat, step: Step)
    requires Inv(s) && h < |s.handlers| == |s.transports| && Refusing(s, h) && Enabled(s, step) && OfHandler(step)
    ensures Nearer(s, h, step.h == h, Do(s, step))
  {
    var t := Do(s, step);
    assert t.http == s.http && t.grpc == s.grpc && t.transports == s.transports && t.mode == s.mode;
    assert |t.handlers| == |s.handlers| && (step.h != h ==> t.handlers[h] == s.handlers[h]);
  }

  lemma TransportMoves(s: State, h: nat, step: Step)
    requires Inv(s) && h < |s.handlers| == |s.transports| && Refusing(s, h) && Enabled(s, step) && OfTransport(step)
    ensures Nearer(s, h, false, Do(s, step))
  {
    var t := Do(s, step);
    assert t.handlers == s.handlers && t.transports == s.transports && !step.Start?;
  }

  lemma SavingMoves(s: State, h: nat, step: Step)
    requires Inv(s) && h < |s.handlers| == |s.transports| && Refusing(s, h) && Enabled(s, step)
    requires !OfHandler(step) && !OfTransport(step)
    ensures Nearer(s, h, false, Do(s, step))
  {
    var t := Do(s, step);
    assert t.http == s.http && t.grpc == s.grpc && t.handlers == s.handlers && t.transports == s.transports;
  }

  lemma RequestMoves(s: State, h: nat, step: Step)
    requires Inv(s) && h < |s.handlers| == |s.transports| && Refusing(s, h) && Enabled(s, step)
    ensures Nearer(s, h, OfHandler(step) && step.h == h, Do(s, step))
  {
    if OfHandler(step) {
      HandlerMoves(s, h, step);
    } else if OfTransport(step) {
      TransportMoves(s, h, step);
    } else {
      SavingMoves(s, h, step);
    }
  }

  lemma RequestCanMove(s: State, h: nat) returns (step: Step)
    requires Inv(s) && h < |s.handlers| && !s.handlers[h].Idle?
    ensures Enabled(s, step) && OfHandler(step) && step.h == h
  {
    step := match s.handlers[h]
            case Admitted => Update(h, s.memory)
            case Updated => TakeSnapshot(h)
            case Holding(_) => Open(h, false)
            case _ => Save(h, All);
  }

  /** Once its transport takes no more requests, a handler gets none; the one it is at makes at most four more
      steps, whatever else happens, and can take another until it has ended. */
  lemma {:induction false} RequestRunsOut(s: State, h: nat, steps: seq<Step>)
    requires Inv(s) && h < |s.handlers| == |s.transports| && Refusing(s, h) && Legal(s, steps)
    ensures var t := Exec(s, steps);
            && |t.handlers| == |s.handlers|
            && OwnSteps(steps, h) + StepsLeft(t.mode, t.handlers[h]) <= StepsLeft(s.mode, s.handlers[h]) <= 4
            && (!t.handlers[h].Idle? ==> exists step :: Enabled(t, step) && OfHandler(step) && step.h == h)
    ensures forall i | 0 <= i < |steps| :: steps[i] != Admit(h)
    decreases |steps|
  {
    if steps == [] {
      if !s.handlers[h].Idle? {
        var step := RequestCanMove(s, h);
      }
    } else {
      RequestMoves(s, h, steps[0]);
      InvKept(s, steps[0]);
      RequestRunsOut(Do(s, steps[0]), h, steps[1..]);
      assert forall i | 0 < i < |steps| :: steps[i] == steps[1..][i - 1];
    }
  }

  // ---------------------------------------------------------------------------
  // A shutdown can finish
  // ---------------------------------------------------------------------------

  /** The requests in progress go on; nothing but them and the file moves. */
  ghost predicate OnlyRequests(s: State, t: State) {
    t == s.(disk := t.disk, handlers := t.handlers, past := t.past) && |t.handlers| == |s.handlers|
  }

  /** Its next step, which leaves the memory as it is. */
  lemma NextOfRequest(s: State, h: nat) returns (step: Step)
    requires Inv(s) && h < |s.handlers| && !s.handlers[h].Idle?
    ensures Enabled(s, step)
    ensures var t := Do(s, step);
            && OnlyRequests(s, t) && t.handlers[h := Idle] == s.handlers[h := Idle]
            && StepsLeft(t.mode, t.handlers[h]) < StepsLeft(s.mode, s.handlers[h])
  {
    step := match s.handlers[h]
            case Admitted => Update(h, s.memory)
            case Updated => TakeSnapshot(h)
            case Holding(_) => Open(h, false)
            case _ => Save(h, All);
  }

  /** A request can end in any state, without changing the memory. */
  lemma {:induction false} EndRequest(s: State, h: nat) returns (steps: seq<Step>)
    requires Inv(s) && h < |s.handlers|
    ensures Legal(s, steps)
    ensures var t := Exec(s, steps); Inv(t) && OnlyRequests(s, t) && t.handlers == s.handlers[h := Idle]
    decreases StepsLeft(s.mode, s.handlers[h])
  {
    if s.handlers[h].Idle? {
      steps := [];
      assert s.handlers[h := Idle] == s.handlers;
    } else {
      var step := NextOfRequest(s, h);
      InvKept(s, step);
      var rest := EndRequest(Do(s, step), h);
      ExecCons(s, step, rest);
      steps := [step] + rest;
    }
  }

  lemma {:induction false} EndRequests(s: State, n: nat) returns (steps: seq<Step>)
    requires Inv(s) && n <= |s.handlers| && forall i | n <= i < |s.handlers| :: s.handlers[i].Idle?
    ensures Legal(s, steps)
    ensures var t := Exec(s, steps); Inv(t) && OnlyRequests(s, t) && AllIdle(t)
    decreases n
  {
    if n == 0 {
      steps := [];
    } else {
      var one := EndRequest(s, n - 1);
      var rest := EndRequests(Exec(s, one), n - 1);
      ExecConcat(s, one, rest);
      steps := one + rest;
    }
  }

  /** Neither transport was stopped by force. */
  predicate NoneForced(s: State) {
    s.http != Down(false) && s.grpc != Down(false)
  }

  /** Up to the shutdown function, with the requests over. */
  lemma {:induction false} StopTransports(s: State) returns (steps: seq<Step>)
    requires Inv(s) && s.main.Running? && AllIdle(s)
    ensures Legal(s, steps)
    ensures var t := Exec(s, steps);
            && Inv(t) && AllIdle(t) && t.main.Leaving? && (NoneForced(s) ==> Quiet(t))
            && !t.once.Fresh? && (s.once.Fresh? ==> t.once == if s.mode.NoFile? then Finished(true) else Stopping)
            && t.memory == s.memory && t.mode == s.mode && t.finals == s.finals
    decreases Up(s.http) + Up(s.grpc)
  {
    if s.http.Down? && s.grpc.Down? {
      InvKept(s, RunStop);
      ExecCons(s, RunStop, []);
      steps := [RunStop] + [];
    } else {
      var step := if s.http.Accepting? || s.grpc.Accepting? then Cancel
                  else if s.http.Draining? then Graceful(HTTP) else Graceful(GRPC);
      InvKept(s, step);
      var rest := StopTransports(Do(s, step));
      ExecCons(s, step, rest);
      steps := [step] + rest;
    }
  }

  function Up(service: Service): nat {
    match service
    case Accepting => 2
    case Draining => 1
    case _ => 0
  }

  /** The final save has not been begun, there is a file, and the memory can be encoded. */
  ghost predicate WillSave(s: State) {
    s.finals == 0 && !s.mode.NoFile? && Encodable(s.memory)
  }

  /** How far the shutdown function and, once it waits for it, the saver are from their end. */
  function OnceLeft(once: Once): nat {
    match once
    case Stopping => 10
    case Joining => 9
    case Snapshotting => 3
    case LastTaken(_) => 2
    case LastOpened(_) => 1
    case _ => 0
  }

  function SaverLeft(saver: Saver): nat {
    match saver
    case TickOpened(_) => 3
    case Taken(_) => 2
    case Ticking => 1
    case _ => 0
  }

  /** The next step to the end. */
  function OnceStep(s: State): Step
    requires !s.once.Fresh? && !s.once.Finished?
  {
    match s.once
    case Stopping => SignalSaver
    case Joining =>
      (match s.saver
       case TickOpened(_) => TickSave(All)
       case Taken(_) => TickOpen(true)
       case Ticking => SaverStop
       case _ => JoinSaver)
    case Snapshotting => FinalSnapshot
    case LastTaken(_) => FinalOpen(false)
    case _ => FinalSave(All)
  }

  /** The final save, as far as it has come, is of the memory, and only it has the file open. */
  ghost predicate SavesMemory(s: State) {
    && !s.mode.NoFile? && Encodable(s.memory) && !s.once.Fresh?
    && (LastSaving(s.once) ==> s.once.snapshot == s.memory)
    && (s.once.LastOpened? ==> s.disk == Cleared)
    && (s.once.Finished? ==> s.once.saved && s.disk == Saved(s.memory))
  }

  lemma OnceMoves(s: State)
    requires Inv(s) && !s.once.Fresh? && !s.once.Finished?
    ensures Enabled(s, OnceStep(s))
    ensures var t := Do(s, OnceStep(s));
            && OnceLeft(t.once) + SaverLeft(t.saver) < OnceLeft(s.once) + SaverLeft(s.saver)
            && !t.once.Fresh? && (SavesMemory(s) ==> SavesMemory(t)) && SameButSaving(s, t)
  {
  }

  ghost predicate SameButSaving(s: State, t: State) {
    t == s.(disk := t.disk, saver := t.saver, once := t.once, finals := t.finals)
  }

  lemma {:induction false} OnceFinishes(s: State) returns (steps: seq<Step>)
    requires Inv(s) && !s.once.Fresh?
    ensures Legal(s, steps)
    ensures var t := Exec(s, steps);
            Inv(t) && t.once.Finished? && (SavesMemory(s) ==> SavesMemory(t)) && SameButSaving(s, t)
    decreases OnceLeft(s.once) + SaverLeft(s.saver)
  {
    if s.once.Finished? {
      steps := [];
    } else {
      OnceMoves(s);
      InvKept(s, OnceStep(s));
      var rest := OnceFinishes(Do(s, OnceStep(s)));
      ExecCons(s, OnceStep(s), rest);
      steps := [OnceStep(s)] + rest;
    }
  }

  /** Run on its way out, and Close, have called the shutdown function. */
  predicate Entered(s: State) {
    s.main.Leaving? || s.closed ==> !s.once.Fresh?
  }

  lemma {:induction false} EnteredAlong(s: State, steps: seq<Step>)
    requires Entered(s) && Legal(s, steps)
    ensures Entered(Exec(s, steps))
    decreases |steps|
  {
    if steps != [] {
      EnteredAlong(Do(s, steps[0]), steps[1..]);
    }
  }

  lemma ReachableEntered(s: State)
    requires Reachable(s)
    ensures Entered(s)
  {
    var first, steps :| Init(first) && Legal(first, steps) && Exec(first, steps) == s;
    EnteredAlong(first, steps);
  }

  /** Run or Close gets to the shutdown function. */
  lemma EnterShutdown(s: State) returns (steps: seq<Step>)
    requires Inv(s) && Entered(s) && AllIdle(s)
    ensures Legal(s, steps)
    ensures var t := Exec(s, steps);
            && Inv(t) && AllIdle(t) && !t.once.Fresh? && !t.main.Running? && (t.main.Before? ==> t.closed)
            && (t.main.Before? <==> s.main.Before?)
            && (NoneForced(s) ==> Quiet(t)) && t.memory == s.memory && (WillSave(s) ==> SavesMemory(t))
  {
    if s.main.Running? {
      steps := StopTransports(s);
    } else if s.main.Before? && !s.closed {
      InvKept(s, CloseStop);
      ExecCons(s, CloseStop, []);
      steps := [CloseStop] + [];
    } else {
      steps := [];
    }
  }

  /** With the shutdown function done, Run returns and Close is called. */
  lemma ReturnAndClose(s: State) returns (steps: seq<Step>)
    requires Inv(s) && s.once.Finished? && !s.main.Running? && (s.main.Before? ==> s.closed)
    ensures Legal(s, steps)
    ensures var t := Exec(s, steps);
            t == s.(main := if s.main.Before? then Before else Returned, closed := true)
  {
    var returned := if s.main.Leaving? then Do(s, RunReturn) else s;
    steps := [];
    if !returned.closed {
      ExecCons(returned, CloseStop, []);
      steps := [CloseStop] + [];
    }
    if s.main.Leaving? {
      ExecCons(s, RunReturn, steps);
      steps := [RunReturn] + steps;
    }
  }

  /** From every reachable state some run ends with Run, if it was started, returned, Close called and no request
      in progress. If the final save had not been begun, there is a file and the memory can be encoded, that
      save succeeds and leaves the memory in the file; if no transport had been stopped by force, none is. */
  lemma ShutdownCanFinish(s: State)
    requires Reachable(s)
    ensures exists steps :: Legal(s, steps) && ShutDown(s, Exec(s, steps))
  {
    ReachableInv(s);
    ReachableEntered(s);
    var steps := ShutDownFrom(s);
  }

  lemma ShutDownFrom(s: State) returns (steps: seq<Step>)
    requires Inv(s) && Entered(s)
    ensures Legal(s, steps) && ShutDown(s, Exec(s, steps))
  {
    var idle := EndRequests(s, |s.handlers|);
    var s1 := Exec(s, idle);
    var enter := EnterShutdown(s1);
    var s2 := Exec(s1, enter);
    var finish := OnceFinishes(s2);
    var s3 := Exec(s2, finish);
    var leave := ReturnAndClose(s3);
    ExecConcat(s2, finish, leave);
    ExecConcat(s1, enter, finish + leave);
    ExecConcat(s, idle, enter + (finish + leave));
    steps := idle + (enter + (finish + leave));
  }

  ghost predicate ShutDown(s: State, t: State) {
    && t.closed && t.once.Finished? && t.main == (if s.main.Before? then Before else Returned) && AllIdle(t)
    && t.memory == s.memory
    && (WillSave(s) ==> t.once == Finished(true) && t.disk == Saved(t.memory))
    && (NoneForced(s) ==> Quiet(t))
  }

  /** A transport can go down by force at any time it is up, with its requests still in progress. */
  lemma ForcedLeavesRequests(s: State, t: Transport)
    requires Reachable(s) && s.main.Running? && !ServiceOf(s, t).Down?
    ensures Enabled(s, Forced(t))
    ensures var next := Do(s, Forced(t));
            && ServiceOf(next, t) == Down(false) && next.handlers == s.handlers
            && ServiceOf(next, if t.HTTP? then GRPC else HTTP) == ServiceOf(s, if t.HTTP? then GRPC else HTTP)
  {
    ReachableInv(s);
  }
}
