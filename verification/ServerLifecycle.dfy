/** How the Server's handlers, the periodic saver and the shutdown sequence interleave their saves
    (internal/server/server.go, internal/server/persistence.go, internal/server/grpc.go,
    internal/server/service/metrics.go). Starts from a Server that New returned without an error. */
module ServerLifecycle {
  import opened Options
  import opened MetricStore
  import opened Persistence

  /** The file as it was when the Server started; emptied by an open that is to replace it; a complete save
      of a store; or neither empty nor a list, so many bytes of it. */
  datatype Disk = First | Cleared | Saved(store: Store) | Mixed(length: nat)

  /** How a write into the opened file ends: with all data in it and no error, with all data and an error, or
      with an error after fewer bytes than all. */
  datatype Written = All | AllButError | Only(bytes: nat)

  datatype Transport = HTTP | GRPC

  /** Draining: the graceful stop waits for requests in progress. Down(false): the wait timed out or
      the listener failed, so requests may still be running. */
  datatype Service = NotStarted | Accepting | Draining | Down(graceful: bool)

  /** A request in progress: admitted; its update done and, in synchronous mode, a save owed; the save's
      snapshot taken; the file opened for it, and thereby emptied. */
  datatype Handler = Idle | Admitted | Updated | Holding(snapshot: Store) | Opened(snapshot: Store)

  datatype Mode = NoFile | Synchronous | Periodic

  datatype Saver = Absent | Ticking | Taken(snapshot: Store) | TickOpened(snapshot: Store) | Stopped

  /** persistenceOnce, and how far the shutdown function inside it got. */
  datatype Once =
    | Fresh | Stopping | Joining | Snapshotting
    | LastTaken(snapshot: Store) | LastOpened(snapshot: Store) | Finished(saved: bool)

  datatype Main = Before | Running | Leaving | Returned

  datatype State = State(
    mode: Mode,
    size: Store -> nat,          // the bytes of a store's list; any order of its metrics has as many
    memory: Store,
    disk: Disk,
    http: Service,
    grpc: Service,
    transports: seq<Transport>,  // of the handlers
    handlers: seq<Handler>,
    saver: Saver,
    once: Once,
    main: Main,
    closed: bool,
    // history
    past: seq<Store>,            // every memory state so far
    finals: nat                  // final saves begun
  )

  datatype Step =
    | Start
    | Admit(h: nat) | Update(h: nat, next: Store) | TakeSnapshot(h: nat) | Open(h: nat, fails: bool) | Save(h: nat, written: Written)
    | Cancel | Graceful(t: Transport) | Forced(t: Transport)
    | Tick | TickOpen(fails: bool) | TickSave(written: Written) | SaverStop
    | RunStop | CloseStop | SignalSaver | JoinSaver | FinalSnapshot | FinalOpen(fails: bool) | FinalSave(written: Written) | RunReturn

  function ServiceOf(s: State, t: Transport): Service {
    if t.HTTP? then s.http else s.grpc
  }

  function SetService(s: State, t: Transport, service: Service): State {
    if t.HTTP? then s.(http := service) else s.(grpc := service)
  }

  function SetHandler(s: State, h: nat, handler: Handler): State
    requires h < |s.handlers|
  {
    s.(handlers := s.handlers[h := handler])
  }

  ghost predicate Init(s: State) {
    && s.disk == First && s.http == NotStarted && s.grpc == NotStarted
    && |s.transports| == |s.handlers| && (forall i | 0 <= i < |s.handlers| :: s.handlers[i] == Idle)
    && s.saver == (if s.mode.Periodic? then Ticking else Absent)
    && s.once == Fresh && s.main == Before && !s.closed
    && s.past == [s.memory] && s.finals == 0
  }

  predicate NoneActive(s: State, t: Transport) {
    forall i | 0 <= i < |s.handlers| && i < |s.transports| :: s.transports[i] == t ==> s.handlers[i].Idle?
  }

  /** Encoding comes before opening; if either fails, the save is over and the file as it was. */
  ghost predicate Opens(st: Store, fails: bool) {
    Encodable(st) && !fails
  }

  function Length(size: Store -> nat, disk: Disk): nat {
    match disk
    case Saved(st) => size(st)
    case Mixed(length) => length
    case _ => 0
  }

  /** Data go in from the start of the file by one call. Whatever another save wrote since this one emptied
      the file is overwritten as far as the data reach, and what is longer stays behind them. */
  function Put(size: Store -> nat, disk: Disk, st: Store, written: Written): Disk {
    if written.Only? then
      if written.bytes == 0 then disk
      else Mixed(if written.bytes < Length(size, disk) then Length(size, disk) else written.bytes)
    else if Length(size, disk) <= size(st) then Saved(st)
    else Mixed(Length(size, disk))
  }

  function WriteTo(s: State, st: Store, written: Written): State {
    s.(disk := Put(s.size, s.disk, st, written))
  }

  predicate Fits(s: State, st: Store, written: Written) {
    written.Only? ==> written.bytes < s.size(st)
  }

  ghost predicate Enabled(s: State, step: Step) {
    match step
    case Start => s.main == Before && !s.closed
    case Admit(h) => h < |s.handlers| == |s.transports| && s.handlers[h].Idle? && ServiceOf(s, s.transports[h]).Accepting?
    case Update(h, _) => h < |s.handlers| && s.handlers[h].Admitted?
    case TakeSnapshot(h) => h < |s.handlers| && s.handlers[h].Updated? && s.mode.Synchronous?
    case Open(h, _) => h < |s.handlers| && s.handlers[h].Holding?
    case Save(h, written) => h < |s.handlers| && s.handlers[h].Opened? && Fits(s, s.handlers[h].snapshot, written)
    case Cancel => s.http.Accepting? || s.grpc.Accepting?
    case Graceful(t) => ServiceOf(s, t).Draining? && NoneActive(s, t)
    case Forced(t) => ServiceOf(s, t).Accepting? || ServiceOf(s, t).Draining?
    case Tick => s.saver.Ticking?
    case TickOpen(_) => s.saver.Taken?
    case TickSave(written) => s.saver.TickOpened? && Fits(s, s.saver.snapshot, written)
    case SaverStop => s.saver.Ticking? && s.once.Joining?
    case RunStop => s.main.Running? && s.http.Down? && s.grpc.Down?
    case CloseStop => !s.closed && (s.main.Before? || s.main.Returned?)
    case SignalSaver => s.once.Stopping?
    case JoinSaver => s.once.Joining? && (s.saver.Stopped? || s.saver.Absent?)
    case FinalSnapshot => s.once.Snapshotting?
    case FinalOpen(_) => s.once.LastTaken?
    case FinalSave(written) => s.once.LastOpened? && Fits(s, s.once.snapshot, written)
    case RunReturn => s.main.Leaving? && s.once.Finished?
  }

  /** The first caller of stopPersistence runs the shutdown function, which without a file does nothing. */
  function EnterOnce(s: State): State {
    if !s.once.Fresh? then s
    else s.(once := if s.mode.NoFile? then Finished(true) else Stopping)
  }

  ghost function Do(s: State, step: Step): State
    requires Enabled(s, step)
  {
    match step
    case Start => s.(main := Running, http := Accepting, grpc := Accepting)
    case Admit(h) => SetHandler(s, h, Admitted)
    case Update(h, next) =>
      SetHandler(s.(memory := next, past := s.past + [next]), h, if s.mode.Synchronous? then Updated else Idle)
    case TakeSnapshot(h) => SetHandler(s, h, Holding(s.memory))
    case Open(h, fails) =>
      var st := s.handlers[h].snapshot;
      if Opens(st, fails) then SetHandler(s.(disk := Cleared), h, Opened(st)) else SetHandler(s, h, Idle)
    case Save(h, written) => SetHandler(WriteTo(s, s.handlers[h].snapshot, written), h, Idle)
    case Cancel => s.(http := if s.http.Accepting? then Draining else s.http,
                      grpc := if s.grpc.Accepting? then Draining else s.grpc)
    case Graceful(t) => SetService(s, t, Down(true))
    case Forced(t) => SetService(s, t, Down(false))
    case Tick => s.(saver := Taken(s.memory))
    case TickOpen(fails) =>
      var st := s.saver.snapshot;
      if Opens(st, fails) then s.(disk := Cleared, saver := TickOpened(st)) else s.(saver := Ticking)
    case TickSave(written) => WriteTo(s, s.saver.snapshot, written).(saver := Ticking)
    case SaverStop => s.(saver := Stopped)
    case RunStop => EnterOnce(s).(main := Leaving)
    case CloseStop => EnterOnce(s).(closed := true)
    case SignalSaver => s.(once := Joining)
    case JoinSaver => s.(once := Snapshotting)
    case FinalSnapshot => s.(once := LastTaken(s.memory), finals := s.finals + 1)
    case FinalOpen(fails) =>
      var st := s.once.snapshot;
      if Opens(st, fails) then s.(disk := Cleared, once := LastOpened(st)) else s.(once := Finished(false))
    case FinalSave(written) => WriteTo(s, s.once.snapshot, written).(once := Finished(written.All?))
    case RunReturn => s.(main := Returned)
  }

  ghost predicate Legal(s: State, steps: seq<Step>)
    decreases |steps|
  {
    steps != [] ==> Enabled(s, steps[0]) && Legal(Do(s, steps[0]), steps[1..])
  }

  ghost function Exec(s: State, steps: seq<Step>): State
    requires Legal(s, steps)
    decreases |steps|
  {
    if steps == [] then s else Exec(Do(s, steps[0]), steps[1..])
  }

  ghost predicate Reachable(s: State) {
    exists first, steps :: Init(first) && Legal(first, steps) && Exec(first, steps) == s
  }

  // ---------------------------------------------------------------------------
  // What every step keeps
  // ---------------------------------------------------------------------------

  predicate AllIdle(s: State) {
    forall i | 0 <= i < |s.handlers| :: s.handlers[i].Idle?
  }

  /** Both transports stopped gracefully, or were never started: no request is or will be in progress. */
  predicate Quiet(s: State) {
    (s.http == Down(true) && s.grpc == Down(true)) || (s.http.NotStarted? && s.grpc.NotStarted?)
  }

  predicate StoppedOrAbsent(saver: Saver) {
    saver.Stopped? || saver.Absent?
  }

  predicate HasSnapshot(handler: Handler) {
    handler.Holding? || handler.Opened?
  }

  /** The final save has been begun and is not over. */
  predicate LastSaving(once: Once) {
    once.LastTaken? || once.LastOpened?
  }

  /** A list in the file is a save of a memory state there has been; so is every save under way. */
  ghost predicate Snapshots(s: State) {
    && s.past != [] && s.memory == s.past[|s.past| - 1]
    && (s.disk.Saved? ==> s.disk.store in s.past)
    && (forall i | 0 <= i < |s.handlers| :: HasSnapshot(s.handlers[i]) ==> s.handlers[i].snapshot in s.past)
    && (s.saver.Taken? || s.saver.TickOpened? ==> s.saver.snapshot in s.past)
    && (LastSaving(s.once) ==> s.once.snapshot in s.past)
  }

  ghost predicate Order(s: State) {
    && |s.transports| == |s.handlers|
    && (s.main.Before? <==> s.http.NotStarted?) && (s.main.Before? <==> s.grpc.NotStarted?)
    && (!s.once.Fresh? ==> (s.http.Down? && s.grpc.Down?) || (s.main.Before? && s.closed))
    && (forall i | 0 <= i < |s.handlers| ::
          ServiceOf(s, s.transports[i]).NotStarted? || ServiceOf(s, s.transports[i]) == Down(true)
          ==> s.handlers[i].Idle?)
    && (s.once.Snapshotting? || LastSaving(s.once) || s.once.Finished? ==> StoppedOrAbsent(s.saver))
    && (s.saver.Absent? <==> !s.mode.Periodic?)
    && (s.mode.NoFile? ==> s.once.Fresh? || s.once == Finished(true))
    && (forall i | 0 <= i < |s.handlers| :: s.handlers[i].Updated? || HasSnapshot(s.handlers[i]) ==> s.mode.Synchronous?)
    && s.finals == (if LastSaving(s.once) || (s.once.Finished? && !s.mode.NoFile?) then 1 else 0)
    && (s.main.Returned? ==> s.once.Finished?)
  }

  /** Once requests have ended, the final save holds the memory as it is and as it stays. */
  ghost predicate Final(s: State) {
    Quiet(s) ==>
      && (LastSaving(s.once) ==> s.once.snapshot == s.memory)
      && (s.once.LastOpened? ==> s.disk == Cleared)
      && (s.once == Finished(true) && !s.mode.NoFile? ==> s.disk == Saved(s.memory))
  }

  ghost predicate Inv(s: State) {
    Snapshots(s) && Order(s) && Final(s)
  }

  predicate OfHandler(step: Step) {
    step.Admit? || step.Update? || step.TakeSnapshot? || step.Open? || step.Save?
  }

  lemma HandlerKeepsSnapshots(s: State, step: Step)
    requires Snapshots(s) && Enabled(s, step) && OfHandler(step)
    ensures Snapshots(Do(s, step))
  {
    var t := Do(s, step);
    assert s.memory in s.past && s.past <= t.past;
    forall i | 0 <= i < |t.handlers| && HasSnapshot(t.handlers[i]) ensures t.handlers[i].snapshot in t.past {
      assert i != step.h ==> t.handlers[i] == s.handlers[i];
    }
  }

  lemma OtherKeepsSnapshots(s: State, step: Step)
    requires Snapshots(s) && Enabled(s, step) && !OfHandler(step)
    ensures Snapshots(Do(s, step))
  {
    var t := Do(s, step);
    assert s.memory in s.past && t.past == s.past && t.handlers == s.handlers && t.memory == s.memory;
  }

  lemma HandlerKeepsOrder(s: State, step: Step)
    requires Order(s) && Enabled(s, step) && OfHandler(step)
    ensures Order(Do(s, step))
  {
    var t := Do(s, step);
    assert t.http == s.http && t.grpc == s.grpc && t.transports == s.transports;
    assert !s.handlers[step.h].Idle? || ServiceOf(s, s.transports[step.h]).Accepting?;
  }

  predicate OfTransport(step: Step) {
    step.Start? || step.Cancel? || step.Graceful? || step.Forced?
  }

  lemma TransportKeepsOrder(s: State, step: Step)
    requires Order(s) && Enabled(s, step) && OfTransport(step)
    ensures Order(Do(s, step))
  {
    var t := Do(s, step);
    assert t.handlers == s.handlers && t.transports == s.transports && t.once == s.once;
  }

  lemma SavingKeepsOrder(s: State, step: Step)
    requires Order(s) && Enabled(s, step) && !OfHandler(step) && !OfTransport(step)
    ensures Order(Do(s, step))
  {
    var t := Do(s, step);
    assert t.handlers == s.handlers && t.transports == s.transports && t.http == s.http && t.grpc == s.grpc;
  }

  lemma QuietIsIdle(s: State)
    requires Order(s) && Quiet(s)
    ensures AllIdle(s)
  {
  }

  lemma HandlerKeepsFinal(s: State, step: Step)
    requires Order(s) && Final(s) && Enabled(s, step) && OfHandler(step)
    ensures Final(Do(s, step))
  {
    if Quiet(s) {
      QuietIsIdle(s);
    }
  }

  lemma OtherKeepsFinal(s: State, step: Step)
    requires Order(s) && Final(s) && Enabled(s, step) && !OfHandler(step)
    ensures Final(Do(s, step))
  {
    assert Do(s, step).memory == s.memory && Do(s, step).mode == s.mode;
  }

  lemma InvKept(s: State, step: Step)
    requires Inv(s) && Enabled(s, step)
    ensures Inv(Do(s, step))
  {
    if OfHandler(step) {
      HandlerKeepsSnapshots(s, step);
      HandlerKeepsOrder(s, step);
      HandlerKeepsFinal(s, step);
    } else {
      OtherKeepsSnapshots(s, step);
      OtherKeepsFinal(s, step);
      if OfTransport(step) {
        TransportKeepsOrder(s, step);
      } else {
        SavingKeepsOrder(s, step);
      }
    }
  }

  lemma {:induction false} InvAlong(s: State, steps: seq<Step>)
    requires Inv(s) && Legal(s, steps)
    ensures Inv(Exec(s, steps))
    decreases |steps|
  {
    if steps != [] {
      InvKept(s, steps[0]);
      InvAlong(Do(s, steps[0]), steps[1..]);
    }
  }

  lemma ReachableInv(s: State)
    requires Reachable(s)
    ensures Inv(s)
  {
    var first, steps :| Init(first) && Legal(first, steps) && Exec(first, steps) == s;
    InvAlong(first, steps);
  }

  // ---------------------------------------------------------------------------
  // Results
  // ---------------------------------------------------------------------------

  // What the file can be

  datatype Writer = ByHandler(h: nat) | ByTicker | ByShutdown

  /** The writer has the file open: emptied it, and not written yet. */
  predicate HasOpen(s: State, writer: Writer) {
    match writer
    case ByHandler(h) => h < |s.handlers| && s.handlers[h].Opened?
    case ByTicker => s.saver.TickOpened?
    case ByShutdown => s.once.LastOpened?
  }

  ghost predicate TwoOpen(s: State) {
    exists a, b :: a != b && HasOpen(s, a) && HasOpen(s, b)
  }

  ghost predicate NeverTwoOpen(s: State, steps: seq<Step>)
    requires Legal(s, steps)
    decreases |steps|
  {
    !TwoOpen(s) && (steps != [] ==> NeverTwoOpen(Do(s, steps[0]), steps[1..]))
  }

  /** The step's write is cut short. */
  predicate Tears(step: Step) {
    (step.Save? || step.TickSave? || step.FinalSave?) && step.written.Only?
  }

  /** Whole unless it is open, and then empty. */
  ghost predicate Sound(s: State) {
    if exists writer :: HasOpen(s, writer) then s.disk == Cleared else s.disk.First? || s.disk.Saved?
  }

  /** The writer a step is of, if it opens or writes the file. */
  function WriterOf(step: Step): Option<Writer> {
    match step
    case Open(h, _) => Some(ByHandler(h))
    case Save(h, _) => Some(ByHandler(h))
    case TickOpen(_) => Some(ByTicker)
    case TickSave(_) => Some(ByTicker)
    case FinalOpen(_) => Some(ByShutdown)
    case FinalSave(_) => Some(ByShutdown)
    case _ => None
  }

  lemma OthersOpenStay(s: State, step: Step, writer: Writer)
    requires Enabled(s, step) && WriterOf(step) != Some(writer)
    ensures HasOpen(Do(s, step), writer) <==> HasOpen(s, writer)
  {
  }

  lemma SoundKept(s: State, step: Step)
    requires Sound(s) && !TwoOpen(s) && Enabled(s, step) && !Tears(step) && !TwoOpen(Do(s, step))
    ensures Sound(Do(s, step))
  {
    var t := Do(s, step);
    forall writer | WriterOf(step) != Some(writer) ensures HasOpen(t, writer) <==> HasOpen(s, writer) {
      OthersOpenStay(s, step, writer);
    }
    if WriterOf(step).Some? {
      var own := WriterOf(step).value;
      if step.Save? || step.TickSave? || step.FinalSave? {
        assert HasOpen(s, own) && s.disk == Cleared && !HasOpen(t, own);
        assert forall writer :: HasOpen(s, writer) ==> writer == own;
      } else if HasOpen(t, own) {
        assert t.disk == Cleared;
      } else {
        assert !HasOpen(s, own) && t.disk == s.disk;
      }
    } else {
      assert t.disk == s.disk;
    }
  }

  lemma {:induction false} SoundAlong(s: State, steps: seq<Step>)
    requires Sound(s) && Legal(s, steps) && NeverTwoOpen(s, steps)
    requires forall i | 0 <= i < |steps| :: !Tears(steps[i])
    ensures Sound(Exec(s, steps))
    decreases |steps|
  {
    if steps != [] {
      assert !Tears(steps[0]) && forall i | 0 <= i < |steps[1..]| :: steps[1..][i] == steps[i + 1];
      assert NeverTwoOpen(Do(s, steps[0]), steps[1..]);
      SoundKept(s, steps[0]);
      SoundAlong(Do(s, steps[0]), steps[1..]);
    }
  }

  /** At every moment of every run the file is the one found at the start or a save of some state the memory
      was in, except while a save has it open, after a write that was cut short, and after two saves had it
      open at the same time. */
  lemma FileIsSnapshot(first: State, steps: seq<Step>)
    requires Init(first) && Legal(first, steps)
    ensures var s := Exec(first, steps);
            || s.disk == First
            || (s.disk.Saved? && s.disk.store in s.past)
            || (exists writer :: HasOpen(s, writer))
            || (exists i | 0 <= i < |steps| :: Tears(steps[i]))
            || !NeverTwoOpen(first, steps)
  {
    InvAlong(first, steps);
    if NeverTwoOpen(first, steps) && forall i | 0 <= i < |steps| :: !Tears(steps[i]) {
      NoneOpenAtFirst(first);
      SoundAlong(first, steps);
    }
  }

  lemma NoneOpenAtFirst(s: State)
    requires Init(s)
    ensures forall writer :: !HasOpen(s, writer)
  {
  }

  lemma OneWriter(s: State)
    requires Order(s) && !s.mode.Synchronous?
    ensures !TwoOpen(s)
  {
    forall h: nat ensures !HasOpen(s, ByHandler(h)) {
    }
    assert !(HasOpen(s, ByTicker) && HasOpen(s, ByShutdown));
  }

  /** Without synchronous saving the last exception does not arise: the ticker is gone before the final save. */
  lemma {:induction false} NeverTwoWriters(s: State, steps: seq<Step>)
    requires Inv(s) && Legal(s, steps) && !s.mode.Synchronous?
    ensures NeverTwoOpen(s, steps)
    decreases |steps|
  {
    OneWriter(s);
    if steps != [] {
      InvKept(s, steps[0]);
      NeverTwoWriters(Do(s, steps[0]), steps[1..]);
    }
  }

  /** Run followed by Close, or Close alone, begins the final save at most once; when Run has returned
      and there is a file, exactly once. */
  lemma FinalSaveOnce(s: State)
    requires Reachable(s)
    ensures s.finals <= 1
    ensures s.main.Returned? && !s.mode.NoFile? ==> s.finals == 1
    ensures s.mode.NoFile? ==> s.finals == 0
  {
    ReachableInv(s);
  }

  /** The step changes the memory or opens or writes the file. */
  predicate Writes(step: Step) {
    step.Update? || WriterOf(step).Some? || step.FinalSnapshot?
  }

  lemma IdleStep(s: State, step: Step)
    requires Inv(s) && s.once.Finished? && AllIdle(s) && Enabled(s, step)
    ensures !Writes(step)
    ensures var t := Do(s, step);
            AllIdle(t) && t.once == s.once && t.disk == s.disk && t.memory == s.memory && t.finals == s.finals
  {
    assert (s.http.Down? && s.grpc.Down?) || (s.main.Before? && s.closed);
  }

  lemma {:induction false} IdleRun(s: State, steps: seq<Step>)
    requires Inv(s) && s.once.Finished? && AllIdle(s) && Legal(s, steps)
    ensures forall i | 0 <= i < |steps| :: !Writes(steps[i])
    ensures var t := Exec(s, steps); t.disk == s.disk && t.memory == s.memory && t.finals == s.finals
    decreases |steps|
  {
    if steps != [] {
      IdleStep(s, steps[0]);
      InvKept(s, steps[0]);
      IdleRun(Do(s, steps[0]), steps[1..]);
      assert forall i | 0 < i < |steps| :: steps[i] == steps[1..][i - 1];
    }
  }

  /** The rest of an active handler's work up to its next update, open or write. */
  lemma ActiveWrites(s: State, h: nat) returns (steps: seq<Step>)
    requires Inv(s) && h < |s.handlers| && !s.handlers[h].Idle?
    ensures Legal(s, steps) && exists i | 0 <= i < |steps| :: Writes(steps[i])
  {
    match s.handlers[h] {
      case Admitted =>
        ExecCons(s, Update(h, s.memory), []);
        steps := [Update(h, s.memory)] + [];
        assert Writes(steps[0]);
      case Updated =>
        var t := Do(s, TakeSnapshot(h));
        ExecCons(t, Open(h, false), []);
        ExecCons(s, TakeSnapshot(h), [Open(h, false)] + []);
        steps := [TakeSnapshot(h)] + ([Open(h, false)] + []);
        assert Writes(steps[1]);
      case Holding(_) =>
        ExecCons(s, Open(h, false), []);
        steps := [Open(h, false)] + [];
        assert Writes(steps[0]);
      case Opened(_) =>
        ExecCons(s, Save(h, All), []);
        steps := [Save(h, All)] + [];
        assert Writes(steps[0]);
    }
  }

  /** After the final save no run, with Close in it or not, updates the memory or opens or writes the file any
      more if and only if no request is still in progress. */
  lemma NothingFollowsIff(s: State)
    requires Reachable(s) && s.once.Finished?
    ensures AllIdle(s) <==> forall steps, i | Legal(s, steps) && 0 <= i < |steps| :: !Writes(steps[i])
  {
    ReachableInv(s);
    if AllIdle(s) {
      forall steps, i | Legal(s, steps) && 0 <= i < |steps| ensures !Writes(steps[i]) {
        IdleRun(s, steps);
      }
    } else {
      var h :| 0 <= h < |s.handlers| && !s.handlers[h].Idle?;
      var steps := ActiveWrites(s, h);
    }
  }

  /** So it is when both transports stopped gracefully: the final save is the last write of the file, and
      the memory stays what it was. */
  lemma FinalSaveIsLast(s: State, steps: seq<Step>)
    requires Reachable(s) && Quiet(s) && s.once.Finished? && Legal(s, steps)
    ensures Exec(s, steps).disk == s.disk && Exec(s, steps).memory == s.memory && Exec(s, steps).finals == s.finals
    ensures forall i | 0 <= i < |steps| :: !Writes(steps[i])
  {
    ReachableInv(s);
    QuietIsIdle(s);
    IdleRun(s, steps);
  }

  /** And when that save succeeded, the file loads back to the final memory. */
  lemma FinalFileIsMemory(s: State, ms: seq<Metrics.Metric>)
    requires Reachable(s) && Quiet(s) && s.once == Finished(true) && !s.mode.NoFile?
    requires s.disk.Saved? ==> Lists(ms, s.disk.store)
    ensures Loaded(EMPTY, Json(ms)) == s.memory
  {
    ReachableInv(s);
    RoundTrip(s.memory, ms);
  }

  /** The final save may go wrong in two places. At the first, a gauge that cannot be encoded or a file that
      cannot be opened leaves the file as it was; after it, the file is empty. */
  lemma FinalOpenOutcome(s: State, fails: bool)
    requires Reachable(s) && Quiet(s) && Enabled(s, FinalOpen(fails))
    ensures var t := Do(s, FinalOpen(fails));
            if Encodable(s.memory) && !fails then t.once == LastOpened(s.memory) && t.disk == Cleared
            else t.once == Finished(false) && t.disk == s.disk
  {
    ReachableInv(s);
  }

  /** At the second, the write leaves the memory in the file, with or without an error, or only so many bytes. */
  lemma FinalSaveOutcome(s: State, written: Written)
    requires Reachable(s) && Quiet(s) && Enabled(s, FinalSave(written))
    ensures var t := Do(s, FinalSave(written));
            && (t.once == Finished(true) <==> written == All)
            && t.disk == (if !written.Only? then Saved(s.memory)
                          else if written.bytes == 0 then Cleared
                          else Mixed(written.bytes))
  {
    ReachableInv(s);
  }

  // ---------------------------------------------------------------------------
  // Runs put together
  // ---------------------------------------------------------------------------

  lemma ExecCons(s: State, step: Step, rest: seq<Step>)
    requires Enabled(s, step) && Legal(Do(s, step), rest)
    ensures Legal(s, [step] + rest) && Exec(s, [step] + rest) == Exec(Do(s, step), rest)
  {
    assert ([step] + rest)[1..] == rest;
  }

  lemma {:induction false} ExecConcat(s: State, a: seq<Step>, b: seq<Step>)
    requires Legal(s, a) && Legal(Exec(s, a), b)
    ensures Legal(s, a + b) && Exec(s, a + b) == Exec(Exec(s, a), b)
    decreases |a|
  {
    if a == [] {
      assert a + b == b;
    } else {
      ExecConcat(Do(s, a[0]), a[1..], b);
      assert (a + b)[0] == a[0] && (a + b)[1..] == a[1..] + b;
    }
  }

  // ---------------------------------------------------------------------------
  // A request that outlives a forced stop
  // ---------------------------------------------------------------------------

  lemma ForcedStop(s: State, h: nat) returns (steps: seq<Step>)
    requires Init(s) && !s.mode.NoFile? && h < |s.handlers| && s.transports[h] == HTTP
    ensures Legal(s, steps)
    ensures var t := Exec(s, steps);
            && t.once == Joining && t.memory == s.memory && t.mode == s.mode && t.saver == s.saver
            && t.handlers == s.handlers[h := Admitted]
  {
    var s1 := Do(s, Start);
    var s2 := Do(s1, Admit(h));
    var s3 := Do(s2, Cancel);
    var s4 := Do(s3, Forced(HTTP));
    var rest := TransportsDown(s4);
    ExecCons(s3, Forced(HTTP), rest);
    ExecCons(s2, Cancel, [Forced(HTTP)] + rest);
    ExecCons(s1, Admit(h), [Cancel] + ([Forced(HTTP)] + rest));
    ExecCons(s, Start, [Admit(h)] + ([Cancel] + ([Forced(HTTP)] + rest)));
    steps := [Start] + ([Admit(h)] + ([Cancel] + ([Forced(HTTP)] + rest)));
  }

  lemma TransportsDown(s: State) returns (steps: seq<Step>)
    requires s.main.Running? && s.http.Down? && s.grpc.Draining? && NoneActive(s, GRPC)
    requires s.once.Fresh? && !s.mode.NoFile?
    ensures Legal(s, steps)
    ensures var t := Exec(s, steps);
            t.once == Joining && t.memory == s.memory && t.mode == s.mode && t.saver == s.saver && t.handlers == s.handlers
  {
    var s1 := Do(s, Graceful(GRPC));
    var s2 := Do(s1, RunStop);
    ExecCons(s2, SignalSaver, []);
    ExecCons(s1, RunStop, [SignalSaver] + []);
    ExecCons(s, Graceful(GRPC), [RunStop] + ([SignalSaver] + []));
    steps := [Graceful(GRPC)] + ([RunStop] + ([SignalSaver] + []));
  }

  lemma FinalSaved(s: State) returns (steps: seq<Step>)
    requires s.once == Joining && (s.saver == Ticking || s.saver == Absent) && Encodable(s.memory)
    ensures Legal(s, steps)
    ensures var t := Exec(s, steps);
            t.once == Finished(true) && t.memory == s.memory && t.disk == Saved(s.memory) && t.handlers == s.handlers
  {
    var s0 := if s.saver == Ticking then Do(s, SaverStop) else s;
    var s1 := Do(s0, JoinSaver);
    var rest := LastSaved(s1);
    ExecCons(s0, JoinSaver, rest);
    steps := [JoinSaver] + rest;
    if s.saver == Ticking {
      ExecCons(s, SaverStop, steps);
      steps := [SaverStop] + steps;
    }
  }

  lemma LastSaved(s: State) returns (steps: seq<Step>)
    requires s.once == Snapshotting && Encodable(s.memory)
    ensures Legal(s, steps)
    ensures var t := Exec(s, steps);
            t.once == Finished(true) && t.memory == s.memory && t.disk == Saved(s.memory) && t.handlers == s.handlers
  {
    var s1 := Do(s, FinalSnapshot);
    var s2 := Do(s1, FinalOpen(false));
    ExecCons(s2, FinalSave(All), []);
    ExecCons(s1, FinalOpen(false), [FinalSave(All)] + []);
    ExecCons(s, FinalSnapshot, [FinalOpen(false)] + ([FinalSave(All)] + []));
    steps := [FinalSnapshot] + ([FinalOpen(false)] + ([FinalSave(All)] + []));
  }

  /** Without synchronous saving nothing touches the file after the final save. */
  lemma {:induction false} DiskFrozen(s: State, steps: seq<Step>)
    requires Inv(s) && s.once.Finished? && !s.mode.Synchronous? && Legal(s, steps)
    ensures Exec(s, steps).disk == s.disk
    decreases |steps|
  {
    if steps != [] {
      assert WriterOf(steps[0]).None?;
      assert Do(s, steps[0]).once == s.once && Do(s, steps[0]).disk == s.disk;
      InvKept(s, steps[0]);
      DiskFrozen(Do(s, steps[0]), steps[1..]);
    }
  }

  /** From any start with an HTTP handler and a file: the shutdown of the HTTP server may time out while a
      request is in progress, the final save succeeds all the same, and the request's update is then in the
      memory but not in the file. With periodic saving it never gets there, whatever follows. */
  lemma OutlivingRequestIsLost(s: State, h: nat, next: Store)
    requires Init(s) && !s.mode.NoFile? && Encodable(s.memory) && next != s.memory
    requires h < |s.handlers| && s.transports[h] == HTTP
    ensures exists steps ::
              && Legal(s, steps) && Exec(s, steps).once == Finished(true) && Enabled(Exec(s, steps), Update(h, next))
              && Exec(s, steps).disk == Saved(Exec(s, steps).memory)
              && IsLost(Do(Exec(s, steps), Update(h, next)))
  {
    var stop := ForcedStop(s, h);
    var mid := Exec(s, stop);
    var save := FinalSaved(mid);
    ExecConcat(s, stop, save);
    InvAlong(s, stop + save);
    var t := Exec(s, stop + save);
    UpdateIsLost(t, h, next);
    assert Legal(s, stop + save) && t == Exec(s, stop + save);
  }

  /** The memory is not in the file and, with periodic saving, what it is now never gets there. */
  ghost predicate IsLost(s: State) {
    && s.once == Finished(true) && s.disk != Saved(s.memory)
    && (s.mode.Periodic? ==> forall steps | Legal(s, steps) :: Exec(s, steps).disk == s.disk)
  }

  lemma UpdateIsLost(s: State, h: nat, next: Store)
    requires Inv(s) && s.once == Finished(true) && next != s.memory
    requires h < |s.handlers| && s.handlers[h] == Admitted && s.disk == Saved(s.memory)
    ensures Enabled(s, Update(h, next)) && IsLost(Do(s, Update(h, next)))
  {
    var t := Do(s, Update(h, next));
    InvKept(s, Update(h, next));
    if t.mode.Periodic? {
      forall steps | Legal(t, steps) ensures Exec(t, steps).disk == t.disk {
        DiskFrozen(t, steps);
      }
    }
  }

  // ---------------------------------------------------------------------------
  // Saving after every update
  // ---------------------------------------------------------------------------

  /** Steps of requests already admitted, all of whose saves succeed. */
  predicate Plain(step: Step) {
    OfHandler(step) && !step.Admit? && (step.Open? ==> !step.fails) && (step.Save? ==> step.written.All?)
  }

  ghost predicate Finishing(steps: seq<Step>) {
    forall i | 0 <= i < |steps| :: Plain(steps[i]) && (steps[i].Update? ==> Encodable(steps[i].next))
  }

  /** The memory and every snapshot still to be written can be encoded. */
  ghost predicate FiniteGauges(s: State) {
    && Encodable(s.memory)
    && forall i | 0 <= i < |s.handlers| :: HasSnapshot(s.handlers[i]) ==> Encodable(s.handlers[i].snapshot)
  }

  /** No snapshot still to be written is older than the memory. */
  ghost predicate NoneOlder(s: State) {
    forall i | 0 <= i < |s.handlers| :: HasSnapshot(s.handlers[i]) ==> s.handlers[i].snapshot == s.memory
  }

  predicate NoneAdmitted(s: State) {
    forall i | 0 <= i < |s.handlers| :: !s.handlers[i].Admitted?
  }

  predicate Alone(s: State) {
    forall i, j | 0 <= i < |s.handlers| && 0 <= j < |s.handlers| && !s.handlers[i].Idle? && !s.handlers[j].Idle? :: i == j
  }

  predicate ToOpen(handler: Handler) {
    handler.Admitted? || handler.Updated? || handler.Holding?
  }

  /** Some request has still to open, and thereby to empty, the file; or what is in it is no longer than the
      memory's list, which will cover it. */
  predicate Covers(s: State) {
    (exists i | 0 <= i < |s.handlers| :: ToOpen(s.handlers[i])) || Length(s.size, s.disk) <= s.size(s.memory)
  }

  /** The requests in progress can only end with the memory in the file: none holds an older snapshot, none
      can still change the memory beside another, and no longer list is left behind the last write. */
  ghost predicate Settles(s: State) {
    if AllIdle(s) then s.disk == Saved(s.memory)
    else NoneOlder(s) && (NoneAdmitted(s) || Alone(s)) && Covers(s)
  }

  ghost predicate Settling(s: State) {
    s.mode.Synchronous? && FiniteGauges(s) && NoneOlder(s) && (NoneAdmitted(s) || Alone(s)) && Settles(s)
  }

  lemma UpdateSettles(s: State, h: nat, next: Store)
    requires Settling(s) && Enabled(s, Update(h, next)) && Encodable(next)
    ensures Settling(Do(s, Update(h, next)))
  {
    var t := Do(s, Update(h, next));
    assert !NoneAdmitted(s) && Alone(s);
    assert forall i | 0 <= i < |s.handlers| && i != h :: t.handlers[i] == s.handlers[i] && s.handlers[i].Idle?;
    assert t.handlers[h] == Updated && ToOpen(t.handlers[h]) && !AllIdle(t);
  }

  lemma SnapshotSettles(s: State, h: nat)
    requires Settling(s) && Enabled(s, TakeSnapshot(h))
    ensures Settling(Do(s, TakeSnapshot(h)))
  {
    var t := Do(s, TakeSnapshot(h));
    assert forall i | 0 <= i < |s.handlers| && i != h :: t.handlers[i] == s.handlers[i];
    assert t.handlers[h] == Holding(s.memory) && ToOpen(t.handlers[h]) && !AllIdle(t);
    assert (NoneAdmitted(s) ==> NoneAdmitted(t)) && (Alone(s) ==> Alone(t));
  }

  lemma OpenSettles(s: State, h: nat)
    requires Settling(s) && Enabled(s, Open(h, false))
    ensures Settling(Do(s, Open(h, false)))
  {
    var t := Do(s, Open(h, false));
    assert forall i | 0 <= i < |s.handlers| && i != h :: t.handlers[i] == s.handlers[i];
    assert t.handlers[h] == Opened(s.memory) && !AllIdle(t) && t.disk == Cleared;
    assert (NoneAdmitted(s) ==> NoneAdmitted(t)) && (Alone(s) ==> Alone(t));
  }

  lemma SaveSettles(s: State, h: nat)
    requires Settling(s) && Enabled(s, Save(h, All))
    ensures Settling(Do(s, Save(h, All)))
  {
    var t := Do(s, Save(h, All));
    assert forall i | 0 <= i < |s.handlers| && i != h :: t.handlers[i] == s.handlers[i];
    assert t.handlers[h] == Idle && !s.handlers[h].Idle? && s.handlers[h].snapshot == s.memory;
    assert (NoneAdmitted(s) ==> NoneAdmitted(t)) && (Alone(s) ==> Alone(t));
    if i :| 0 <= i < |s.handlers| && ToOpen(s.handlers[i]) {
      assert ToOpen(t.handlers[i]) && !AllIdle(t);
    } else {
      assert t.disk == Saved(s.memory);
    }
  }

  lemma SettlingStep(s: State, step: Step)
    requires Settling(s) && Enabled(s, step) && Plain(step) && (step.Update? ==> Encodable(step.next))
    ensures Settling(Do(s, step))
  {
    match step
    case Update(h, next) => UpdateSettles(s, h, next);
    case TakeSnapshot(h) => SnapshotSettles(s, h);
    case Open(h, _) => OpenSettles(s, h);
    case Save(h, _) => SaveSettles(s, h);
  }

  lemma {:induction false} SettlingRun(s: State, steps: seq<Step>)
    requires Settling(s) && Legal(s, steps) && Finishing(steps)
    ensures Settling(Exec(s, steps))
    decreases |steps|
  {
    if steps != [] {
      SettlingStep(s, steps[0]);
      SettlingRun(Do(s, steps[0]), steps[1..]);
    }
  }

  lemma FinishingCons(step: Step, rest: seq<Step>)
    requires Plain(step) && (step.Update? ==> Encodable(step.next)) && Finishing(rest)
    ensures Finishing([step] + rest)
  {
  }

  lemma FinishingConcat(a: seq<Step>, b: seq<Step>)
    requires Finishing(a) && Finishing(b)
    ensures Finishing(a + b)
  {
  }

  /** A handler with a snapshot opens the file, if it has not, and writes. */
  lemma WriteNow(s: State, j: nat) returns (steps: seq<Step>)
    requires j < |s.handlers| && HasSnapshot(s.handlers[j]) && Encodable(s.handlers[j].snapshot)
    ensures Legal(s, steps) && Finishing(steps)
    ensures var t := Exec(s, steps);
            && t.memory == s.memory && t.mode == s.mode && t.size == s.size && t.handlers == s.handlers[j := Idle]
            && t.disk == Put(s.size, if s.handlers[j].Holding? then Cleared else s.disk, s.handlers[j].snapshot, All)
  {
    var t := if s.handlers[j].Holding? then Do(s, Open(j, false)) else s;
    ExecCons(t, Save(j, All), []);
    steps := [Save(j, All)] + [];
    if s.handlers[j].Holding? {
      ExecCons(s, Open(j, false), steps);
      steps := [Open(j, false)] + steps;
    }
  }

  /** A handler comes to hold the memory as it is, without changing it. */
  lemma HoldNow(s: State, b: nat) returns (steps: seq<Step>)
    requires s.mode.Synchronous? && Encodable(s.memory) && b < |s.handlers| && !s.handlers[b].Idle?
    ensures Legal(s, steps) && Finishing(steps)
    ensures var t := Exec(s, steps);
            && t.mode == s.mode && t.memory == s.memory && t.size == s.size && t.disk == s.disk
            && t.handlers == if HasSnapshot(s.handlers[b]) then s.handlers else s.handlers[b := Holding(s.memory)]
  {
    steps := [];
    if s.handlers[b].Updated? {
      ExecCons(s, TakeSnapshot(b), []);
      steps := [TakeSnapshot(b)] + [];
    } else if s.handlers[b].Admitted? {
      var t := Do(s, Update(b, s.memory));
      ExecCons(t, TakeSnapshot(b), []);
      ExecCons(s, Update(b, s.memory), [TakeSnapshot(b)] + []);
      steps := [Update(b, s.memory)] + ([TakeSnapshot(b)] + []);
    }
  }

  /** A handler can finish without changing the memory, whatever becomes of the file. */
  lemma FinishOne(s: State, j: nat) returns (steps: seq<Step>)
    requires s.mode.Synchronous? && FiniteGauges(s) && j < |s.handlers|
    ensures Legal(s, steps) && Finishing(steps)
    ensures var t := Exec(s, steps);
            t.memory == s.memory && t.mode == s.mode && t.size == s.size && t.handlers == s.handlers[j := Idle]
  {
    if s.handlers[j].Idle? {
      steps := [];
      assert s.handlers[j := Idle] == s.handlers;
    } else {
      var hold := HoldNow(s, j);
      var t := Exec(s, hold);
      assert HasSnapshot(t.handlers[j]) && t.handlers[j := Idle] == s.handlers[j := Idle];
      var write := WriteNow(t, j);
      ExecConcat(s, hold, write);
      FinishingConcat(hold, write);
      steps := hold + write;
    }
  }

  /** All handlers from the i-th on but one finish. */
  lemma {:induction false} FinishOthers(s: State, h: nat, i: nat) returns (steps: seq<Step>)
    requires s.mode.Synchronous? && FiniteGauges(s) && h < |s.handlers| && i <= |s.handlers|
    ensures Legal(s, steps) && Finishing(steps)
    ensures var t := Exec(s, steps);
            && t.memory == s.memory && t.mode == s.mode && t.size == s.size && |t.handlers| == |s.handlers|
            && t.handlers[h] == s.handlers[h]
            && (forall k | 0 <= k < |s.handlers| && k != h ::
                  t.handlers[k] == if k < i then s.handlers[k] else Idle)
    decreases |s.handlers| - i
  {
    if i == |s.handlers| {
      steps := [];
    } else {
      var now: seq<Step> := [];
      if i != h {
        now := FinishOne(s, i);
      }
      var rest := FinishOthers(Exec(s, now), h, i + 1);
      ExecConcat(s, now, rest);
      FinishingConcat(now, rest);
      steps := now + rest;
    }
  }

  /** With an older snapshot still to be written, it may be written last. */
  lemma OlderLast(s: State, h: nat) returns (steps: seq<Step>)
    requires s.mode.Synchronous? && FiniteGauges(s) && h < |s.handlers|
    requires HasSnapshot(s.handlers[h]) && s.handlers[h].snapshot != s.memory
    ensures Legal(s, steps) && Finishing(steps)
    ensures var t := Exec(s, steps); AllIdle(t) && t.disk != Saved(t.memory)
  {
    var others := FinishOthers(s, h, 0);
    var t := Exec(s, others);
    var write := WriteNow(t, h);
    ExecConcat(s, others, write);
    FinishingConcat(others, write);
    steps := others + write;
  }

  /** A store that differs from this one and is as finite. */
  function Changed(st: Store): Store {
    AddCounter(st, "c", 1)
  }

  /** With a request that can still change the memory beside another, an older snapshot can arise. */
  lemma ChangedBeside(s: State, a: nat, b: nat) returns (steps: seq<Step>)
    requires s.mode.Synchronous? && FiniteGauges(s) && a < |s.handlers| && b < |s.handlers| && a != b
    requires s.handlers[a].Admitted? && !s.handlers[b].Idle? && NoneOlder(s)
    ensures Legal(s, steps) && Finishing(steps)
    ensures var t := Exec(s, steps);
            && t.mode == s.mode && FiniteGauges(t) && |t.handlers| == |s.handlers|
            && HasSnapshot(t.handlers[b]) && t.handlers[b].snapshot == s.memory && t.memory == Changed(s.memory)
  {
    var hold := HoldNow(s, b);
    var t := Exec(s, hold);
    var next := Changed(s.memory);
    assert next.gauges == s.memory.gauges;
    ExecCons(t, Update(a, next), []);
    ExecConcat(s, hold, [Update(a, next)] + []);
    FinishingConcat(hold, [Update(a, next)] + []);
    steps := hold + ([Update(a, next)] + []);
  }

  /** When all that are left have opened the file before something longer got into it, that stays behind their lists. */
  lemma {:induction false} LongerStays(s: State, i: nat) returns (steps: seq<Step>)
    requires i <= |s.handlers| && FiniteGauges(s) && NoneOlder(s) && Length(s.size, s.disk) > s.size(s.memory)
    requires forall k | 0 <= k < |s.handlers| :: s.handlers[k].Idle? || (k >= i && s.handlers[k].Opened?)
    ensures Legal(s, steps) && Finishing(steps)
    ensures var t := Exec(s, steps); AllIdle(t) && t.disk != Saved(t.memory)
    decreases |s.handlers| - i
  {
    if i == |s.handlers| {
      steps := [];
    } else if s.handlers[i].Idle? {
      steps := LongerStays(s, i + 1);
    } else {
      var now := WriteNow(s, i);
      var rest := LongerStays(Exec(s, now), i + 1);
      ExecConcat(s, now, rest);
      FinishingConcat(now, rest);
      steps := now + rest;
    }
  }

  lemma BadEnding(s: State) returns (steps: seq<Step>)
    requires s.mode.Synchronous? && FiniteGauges(s) && !Settles(s)
    ensures Legal(s, steps) && Finishing(steps) && AllIdle(Exec(s, steps))
    ensures Exec(s, steps).disk != Saved(Exec(s, steps).memory)
  {
    if AllIdle(s) {
      steps := [];
    } else if !NoneOlder(s) {
      var h :| 0 <= h < |s.handlers| && HasSnapshot(s.handlers[h]) && s.handlers[h].snapshot != s.memory;
      steps := OlderLast(s, h);
    } else if !NoneAdmitted(s) && !Alone(s) {
      var a :| 0 <= a < |s.handlers| && s.handlers[a].Admitted?;
      var i, j :| 0 <= i < |s.handlers| && 0 <= j < |s.handlers| && !s.handlers[i].Idle? && !s.handlers[j].Idle? && i != j;
      var b := if i == a then j else i;
      var first := ChangedBeside(s, a, b);
      var t := Exec(s, first);
      var rest := OlderLast(t, b);
      ExecConcat(s, first, rest);
      FinishingConcat(first, rest);
      steps := first + rest;
    } else {
      assert forall k | 0 <= k < |s.handlers| :: !ToOpen(s.handlers[k]);
      steps := LongerStays(s, 0);
    }
  }

  /** With saving after every update, finite gauges and a sound disk: however the requests in progress go
      on, once they have all ended the file holds the memory, if and only if none of them holds a
      snapshot older than the memory, none can still change the memory beside another, and no longer
      list can be left behind the last write. */
  lemma SynchronousSettles(s: State)
    requires s.mode.Synchronous? && FiniteGauges(s)
    ensures Settles(s)
       <==> forall steps | Legal(s, steps) && Finishing(steps) && AllIdle(Exec(s, steps)) ::
              Exec(s, steps).disk == Saved(Exec(s, steps).memory)
  {
    if Settles(s) {
      forall steps | Legal(s, steps) && Finishing(steps) && AllIdle(Exec(s, steps))
        ensures Exec(s, steps).disk == Saved(Exec(s, steps).memory)
      {
        if AllIdle(s) {
          IdleHasNoMore(s, steps);
        } else {
          SettlingRun(s, steps);
        }
      }
    } else {
      var steps := BadEnding(s);
    }
  }

  lemma NoneGoesOn(s: State, step: Step)
    requires AllIdle(s) && Plain(step)
    ensures !Enabled(s, step)
  {
  }

  lemma IdleHasNoMore(s: State, steps: seq<Step>)
    requires AllIdle(s) && Legal(s, steps) && Finishing(steps)
    ensures steps == []
  {
    if steps != [] {
      NoneGoesOn(s, steps[0]);
      assert false;
    }
  }

  /** Any two requests admitted together can end with an older state in the file. */
  lemma OverlapBreaks(s: State, a: nat, b: nat)
    requires Init(s) && s.mode.Synchronous? && Encodable(s.memory)
    requires a < |s.handlers| && b < |s.handlers| && a != b
    ensures exists steps ::
              && Finishing(steps) && Legal(s, [Start, Admit(a), Admit(b)] + steps)
              && var t := Exec(s, [Start, Admit(a), Admit(b)] + steps); AllIdle(t) && t.disk != Saved(t.memory)
  {
    var s3 := BothAdmitted(s, a, b);
    assert s3.handlers[a] == Admitted && s3.handlers[b] == Admitted;
    var steps := BadEnding(s3);
    ExecConcat(s, [Start, Admit(a), Admit(b)], steps);
  }

  lemma BothAdmitted(s: State, a: nat, b: nat) returns (t: State)
    requires Init(s) && a < |s.handlers| && b < |s.handlers| && a != b
    ensures Legal(s, [Start, Admit(a), Admit(b)]) && t == Exec(s, [Start, Admit(a), Admit(b)])
    ensures t == s.(main := Running, http := Accepting, grpc := Accepting, handlers := s.handlers[a := Admitted][b := Admitted])
  {
    var s1 := Do(s, Start);
    var s2 := Do(s1, Admit(a));
    t := Do(s2, Admit(b));
    ExecCons(s2, Admit(b), []);
    ExecCons(s1, Admit(a), [Admit(b)] + []);
    ExecCons(s, Start, [Admit(a)] + ([Admit(b)] + []));
    assert [Start] + ([Admit(a)] + ([Admit(b)] + [])) == [Start, Admit(a), Admit(b)];
  }

  /** Their saves can even leave a file that is no list at all, though no write was cut short: both open it,
      the longer list is written, and the shorter one over its beginning. */
  lemma OverlapGarbles(s: State, a: nat, b: nat, long: Store, short: Store)
    requires Init(s) && s.mode.Synchronous? && a < |s.handlers| && b < |s.handlers| && a != b
    requires Encodable(long) && Encodable(short) && s.size(short) < s.size(long)
    ensures exists steps ::
              && Finishing(steps) && Legal(s, [Start, Admit(a), Admit(b)] + steps)
              && var t := Exec(s, [Start, Admit(a), Admit(b)] + steps); AllIdle(t) && t.disk == Mixed(s.size(long))
  {
    var s3 := BothAdmitted(s, a, b);
    var steps := Garbling(s3, a, b, long, short);
    ExecConcat(s, [Start, Admit(a), Admit(b)], steps);
  }

  lemma Garbling(s: State, a: nat, b: nat, long: Store, short: Store) returns (steps: seq<Step>)
    requires s.mode.Synchronous? && a < |s.handlers| && b < |s.handlers| && a != b
    requires s.handlers[a].Admitted? && s.handlers[b].Admitted?
    requires forall i | 0 <= i < |s.handlers| && i != a && i != b :: s.handlers[i].Idle?
    requires Encodable(long) && Encodable(short) && s.size(short) < s.size(long)
    ensures Legal(s, steps) && Finishing(steps)
    ensures var t := Exec(s, steps); AllIdle(t) && t.disk == Mixed(s.size(long))
  {
    var first := OpenedWith(s, a, long);
    var s1 := Exec(s, first);
    var second := OpenedWith(s1, b, short);
    var s2 := Exec(s1, second);
    var rest := LongThenShort(s2, a, b, long, short);
    ExecConcat(s1, second, rest);
    ExecConcat(s, first, second + rest);
    FinishingConcat(second, rest);
    FinishingConcat(first, second + rest);
    steps := first + (second + rest);
  }

  lemma LongThenShort(s: State, a: nat, b: nat, long: Store, short: Store) returns (steps: seq<Step>)
    requires a < |s.handlers| && b < |s.handlers| && a != b
    requires s.disk == Cleared && s.handlers[a] == Opened(long) && s.handlers[b] == Opened(short)
    requires forall i | 0 <= i < |s.handlers| && i != a && i != b :: s.handlers[i].Idle?
    requires Encodable(long) && Encodable(short) && s.size(short) < s.size(long)
    ensures Legal(s, steps) && Finishing(steps)
    ensures var t := Exec(s, steps); AllIdle(t) && t.disk == Mixed(s.size(long))
  {
    var first := WriteNow(s, a);
    var t := Exec(s, first);
    assert t.disk == Saved(long);
    var second := WriteNow(t, b);
    ExecConcat(s, first, second);
    FinishingConcat(first, second);
    steps := first + second;
  }

  lemma OpenedWith(s: State, a: nat, st: Store) returns (steps: seq<Step>)
    requires s.mode.Synchronous? && a < |s.handlers| && s.handlers[a].Admitted? && Encodable(st)
    ensures Legal(s, steps) && Finishing(steps)
    ensures var t := Exec(s, steps);
            && t.mode == s.mode && t.size == s.size && t.disk == Cleared && t.handlers == s.handlers[a := Opened(st)]
  {
    var s1 := Do(s, Update(a, st));
    var s2 := Do(s1, TakeSnapshot(a));
    ExecCons(s2, Open(a, false), []);
    ExecCons(s1, TakeSnapshot(a), [Open(a, false)] + []);
    ExecCons(s, Update(a, st), [TakeSnapshot(a)] + ([Open(a, false)] + []));
    steps := [Update(a, st)] + ([TakeSnapshot(a)] + ([Open(a, false)] + []));
  }

  /** Each request is admitted after the one before has ended, no transport is stopped by force, and
      saves succeed. */
  ghost predicate OneAtATime(s: State, steps: seq<Step>)
    requires Legal(s, steps)
    decreases |steps|
  {
    steps != [] ==> Gentle(s, steps[0]) && OneAtATime(Do(s, steps[0]), steps[1..])
  }

  ghost predicate Gentle(s: State, step: Step) {
    && (step.Admit? ==> AllIdle(s)) && !step.Forced?
    && (step.Open? || step.FinalOpen? ==> !step.fails)
    && (step.Save? || step.FinalSave? ==> step.written.All?)
    && (step.Update? ==> Encodable(step.next))
  }

  /** Along such runs. */
  ghost predicate InStep(s: State) {
    && s.mode.Synchronous? && FiniteGauges(s) && NoneOlder(s) && Alone(s)
    && (forall i | 0 <= i < |s.handlers| :: s.handlers[i].Opened? ==> s.disk == Cleared)
    && (AllIdle(s) && !s.once.LastOpened? && |s.past| > 1 ==> s.disk == Saved(s.memory))
    && (s.http.Down? ==> s.http.graceful) && (s.grpc.Down? ==> s.grpc.graceful)
  }

  lemma HandlerInStep(s: State, step: Step)
    requires Inv(s) && InStep(s) && Enabled(s, step) && OfHandler(step) && Gentle(s, step)
    ensures InStep(Do(s, step))
  {
    var t, h := Do(s, step), step.h;
    assert forall i | 0 <= i < |s.handlers| && i != h :: t.handlers[i] == s.handlers[i] && s.handlers[i].Idle?;
    assert t.http == s.http && t.grpc == s.grpc && t.mode == s.mode && t.once == s.once;
    match step
    case Admit(_) => assert t.handlers[h] == Admitted;
    case Update(_, _) => assert t.handlers[h] == Updated;
    case TakeSnapshot(_) => assert t.handlers[h] == Holding(s.memory);
    case Open(_, _) => assert t.handlers[h] == Opened(s.memory);
    case Save(_, _) => assert t.disk == Saved(s.memory) && t.memory == s.memory;
  }

  lemma OtherInStep(s: State, step: Step)
    requires Inv(s) && InStep(s) && Enabled(s, step) && !OfHandler(step) && Gentle(s, step)
    ensures InStep(Do(s, step))
  {
    var t := Do(s, step);
    assert t.handlers == s.handlers && t.memory == s.memory && t.past == s.past && t.mode == s.mode;
    if step.FinalSave? || step.FinalOpen? {
      assert Quiet(s);
      QuietIsIdle(s);
    } else {
      assert t.disk == s.disk;
    }
  }

  lemma {:induction false} InStepRun(s: State, steps: seq<Step>)
    requires Inv(s) && InStep(s) && Legal(s, steps) && OneAtATime(s, steps)
    ensures InStep(Exec(s, steps))
    decreases |steps|
  {
    if steps != [] {
      if OfHandler(steps[0]) {
        HandlerInStep(s, steps[0]);
      } else {
        OtherInStep(s, steps[0]);
      }
      InvKept(s, steps[0]);
      InStepRun(Do(s, steps[0]), steps[1..]);
    }
  }

  /** A run that admits one request at a time keeps the file equal to the memory whenever no request is in
      progress and the final save does not have it open, from the first update to the end of the shutdown. */
  lemma OneAtATimeKeeps(first: State, steps: seq<Step>)
    requires Init(first) && first.mode.Synchronous? && Encodable(first.memory)
    requires Legal(first, steps) && OneAtATime(first, steps)
    ensures var s := Exec(first, steps);
            AllIdle(s) && !s.once.LastOpened? && |s.past| > 1 ==> s.disk == Saved(s.memory)
  {
    InStepRun(first, steps);
  }
}
