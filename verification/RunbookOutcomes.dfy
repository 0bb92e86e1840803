/** How a run ends: what its final status says about its rows and about what reached its executor, why
    a host was not started, and how many hosts are worked on or may fail. */
module RunbookOutcomes {
  import opened Options
  import opened RunbookProtocol

  // ---- What reached the executor ------------------------------------------------------------------

  predicate IsStep(w: World, a: Action, step: ExecAction) {
    a == Exec(0, step) && |w.executors| > 0 && Ongoing(w.executors[0].phase)
  }

  /** A shutdown reached the call before its tasks were through. */
  predicate HeardShutdown(cfg: Config, start: World, acts: seq<Action>) {
    acts != [] &&
      var before, last := Run(cfg, start, acts[..|acts| - 1]), acts[|acts| - 1];
      HeardShutdown(cfg, start, acts[..|acts| - 1]) || (IsStep(before, last, ShutDown) && before.executors[0].phase in {Loading, Working})
  }

  /** The call looked at its run before it decided, and cancelling had been requested. */
  predicate SawCancel(cfg: Config, start: World, acts: seq<Action>) {
    acts != [] &&
      var before, last := Run(cfg, start, acts[..|acts| - 1]), acts[|acts| - 1];
      SawCancel(cfg, start, acts[..|acts| - 1]) || (IsStep(before, last, SeeCancel) && before.db.run.cancelRequested)
  }

  /** Somebody requested to cancel the run while it was active. */
  predicate CancelAsked(cfg: Config, start: World, acts: seq<Action>) {
    acts != [] &&
      var before, last := Run(cfg, start, acts[..|acts| - 1]), acts[|acts| - 1];
      CancelAsked(cfg, start, acts[..|acts| - 1]) || (last == RequestCancel && before.db.run.status == Active)
  }

  /** The flags of an executor that has not decided, or those with which it decided. */
  predicate FlagsAre(w: World, heard: bool, saw: bool) {
    && (w.executors == [] ==> !heard && !saw)
    && (|w.executors| == 1 && Ongoing(w.executors[0].phase) ==>
          w.executors[0].shutdown == heard && w.executors[0].cancelled == saw)
    && (w.db.ending.ByHosts? ==> |w.executors| == 1 && !Ongoing(w.executors[0].phase) && w.db.ending == ByHosts(heard, saw))
  }

  lemma AdvanceFrame(cfg: Config, db: Db, e: Executor, h: nat, outcome: Outcome)
    ensures var (db', e') := AdvanceStep(cfg, db, e, h, outcome);
      && db'.run == db.run && e' == e.(tasks := e'.tasks, failures := e'.failures, stopped := e'.stopped)
      && (e.stopped ==> e'.stopped)
  {}

  lemma ShutdownAfter(cfg: Config, db: Db, e: Executor, step: ExecAction)
    ensures ExecStep(cfg, db, e, step).1.shutdown == (e.shutdown || (step == ShutDown && Listening(e)))
  {
    match step
    case Advance(h, outcome) => AdvanceFrame(cfg, db, e, h, outcome);
    case _ =>
  }

  lemma CancelledAfter(cfg: Config, db: Db, e: Executor, step: ExecAction)
    ensures ExecStep(cfg, db, e, step).1.cancelled == (e.cancelled || (step == SeeCancel && db.run.cancelRequested))
  {
    match step
    case Advance(h, outcome) => AdvanceFrame(cfg, db, e, h, outcome);
    case _ =>
  }

  lemma OngoingBefore(cfg: Config, db: Db, e: Executor, step: ExecAction)
    ensures Ongoing(ExecStep(cfg, db, e, step).1.phase) ==> Ongoing(e.phase)
  {
    match step
    case Advance(h, outcome) => AdvanceFrame(cfg, db, e, h, outcome);
    case _ =>
  }

  lemma EndingAfter(cfg: Config, db: Db, e: Executor, step: ExecAction)
    requires db.run.status == Active ==> db.ending == NotByExecutor
    ensures var (db', e') := ExecStep(cfg, db, e, step);
      db'.ending.ByHosts? && db'.ending != db.ending ==>
        step == Decide && Ongoing(e.phase) && !Ongoing(e'.phase) && db'.ending == ByHosts(e.shutdown, e.cancelled)
  {}

  lemma ExecFlags(cfg: Config, w: World, step: ExecAction, heard: bool, saw: bool)
    requires |w.executors| == 1 && FlagsAre(w, heard, saw) && (w.db.run.status == Active ==> w.db.ending == NotByExecutor)
    ensures var heard' := heard || (IsStep(w, Exec(0, step), ShutDown) && Listening(w.executors[0]));
      var saw' := saw || (IsStep(w, Exec(0, step), SeeCancel) && w.db.run.cancelRequested);
      FlagsAre(Step(cfg, w, Exec(0, step)), heard', saw')
  {
    ShutdownAfter(cfg, w.db, w.executors[0], step);
    CancelledAfter(cfg, w.db, w.executors[0], step);
    OngoingBefore(cfg, w.db, w.executors[0], step);
    EndingAfter(cfg, w.db, w.executors[0], step);
    EndingStays(cfg, w.db, w.executors[0], step);
  }

  lemma EndingStays(cfg: Config, db: Db, e: Executor, step: ExecAction)
    requires db.run.status == Active ==> db.ending == NotByExecutor
    ensures db.ending.ByHosts? ==> ExecStep(cfg, db, e, step).0.ending == db.ending
  {}

  lemma StepFlags(cfg: Config, w: World, a: Action, heard: bool, saw: bool)
    requires Inv(cfg, w) && FlagsAre(w, heard, saw)
    ensures var heard' := heard || (IsStep(w, a, ShutDown) && Listening(w.executors[0]));
      var saw' := saw || (IsStep(w, a, SeeCancel) && w.db.run.cancelRequested);
      FlagsAre(Step(cfg, w, a), heard', saw')
  {
    if a.Exec? && a.executor == 0 && |w.executors| == 1 {
      ExecFlags(cfg, w, a.step, heard, saw);
    }
  }

  lemma {:induction false} FlagsFollowHistory(cfg: Config, hosts: nat, approved: bool, acts: seq<Action>)
    ensures var start := StartWorld(hosts, approved);
      FlagsAre(Run(cfg, start, acts), HeardShutdown(cfg, start, acts), SawCancel(cfg, start, acts))
  {
    if acts != [] {
      var start, init := StartWorld(hosts, approved), acts[..|acts| - 1];
      FlagsFollowHistory(cfg, hosts, approved, init);
      RunKeepsInv(cfg, hosts, approved, init);
      StepFlags(cfg, Run(cfg, start, init), acts[|acts| - 1], HeardShutdown(cfg, start, init), SawCancel(cfg, start, init));
    }
  }

  lemma ExecAsksNothing(cfg: Config, db: Db, e: Executor, step: ExecAction)
    ensures ExecStep(cfg, db, e, step).0.run.cancelRequested == db.run.cancelRequested
  {}

  lemma {:induction false} AskedIff(cfg: Config, hosts: nat, approved: bool, acts: seq<Action>)
    ensures var start := StartWorld(hosts, approved);
      Run(cfg, start, acts).db.run.cancelRequested <==> CancelAsked(cfg, start, acts)
  {
    if acts != [] {
      var start, init, last := StartWorld(hosts, approved), acts[..|acts| - 1], acts[|acts| - 1];
      AskedIff(cfg, hosts, approved, init);
      var w := Run(cfg, start, init);
      if last.Exec? && last.executor < |w.executors| {
        ExecAsksNothing(cfg, w.db, w.executors[last.executor], last.step);
      }
    }
  }

  /** The status of a run that its executor ended through its hosts, from its rows and the history
      alone: cancelled exactly when the executor had seen a request to cancel and heard of no shutdown;
      completed, partially failed and failed as the rows say, or failed by a shutdown. */
  lemma StatusFollowsRowsAndHistory(cfg: Config, hosts: nat, approved: bool, acts: seq<Action>)
    requires Run(cfg, StartWorld(hosts, approved), acts).db.ending.ByHosts?
    ensures var start := StartWorld(hosts, approved);
      var db, heard, saw := Run(cfg, start, acts).db, HeardShutdown(cfg, start, acts), SawCancel(cfg, start, acts);
      var status, rows := db.run.status, db.hosts;
      && AllTerminal(rows)
      && (status == RunCancelled <==> saw && !heard)
      && (!heard && !saw ==>
           && (status == Completed <==> rows != [] && forall s :: s in rows ==> s == Succeeded)
           && (status == RunFailed <==> Succeeded !in rows || TooManyFailed(cfg, rows))
           && (status == PartiallyFailed <==>
                 !TooManyFailed(cfg, rows) && Succeeded in rows && exists s :: s in rows && s != Succeeded))
      && (heard ==> status == RunFailed)
  {
    FlagsFollowHistory(cfg, hosts, approved, acts);
    EndedByItsExecutor(cfg, hosts, approved, acts);
    var rows := Run(cfg, StartWorld(hosts, approved), acts).db.hosts;
    AllInRows(rows);
  }

  lemma AllInRows(rows: seq<HostStatus>)
    ensures AllSucceeded(rows) <==> rows != [] && forall s :: s in rows ==> s == Succeeded
  {
    if rows != [] && forall s :: s in rows ==> s == Succeeded {
      assert forall h :: 0 <= h < |rows| ==> rows[h] in rows;
    }
  }

  // ---- Why a host did not run -----------------------------------------------------------------------

  /** A row is given up only for a reason, and a script at work or ended was started. */
  predicate Excused(aborted: bool, stopped: bool, row: HostStatus, t: Task, starts: nat) {
    && (t == Dropping(Skipped) || row == Skipped ==> stopped)
    && (t == Dropping(Cancelled) || (row == Cancelled && starts == 0) ==> aborted)
    && starts == if InFlight(t) || t.Counting? || Ran(t) then 1 else 0
  }

  ghost predicate AllExcused(db: Db, tasks: seq<Task>, aborted: bool, stopped: bool) {
    && |tasks| == |db.hosts| == |db.starts|
    && forall h :: 0 <= h < |tasks| ==> Excused(aborted, stopped, db.hosts[h], tasks[h], db.starts[h])
  }

  ghost predicate AllPending(hosts: seq<HostStatus>) {
    forall h :: 0 <= h < |hosts| ==> hosts[h] == Pending
  }

  ghost predicate ExecExcused(db: Db, e: Executor) {
    && (e.lost ==> !OwnedBy(db.run, e.holder))
    && (e.phase == Loading ==> AllPending(db.hosts))
    && (e.phase != Loading && Ongoing(e.phase) ==> AllExcused(db, e.tasks, Aborted(e), e.stopped))
  }

  ghost predicate ExcusesOk(cfg: Config, w: World) {
    && (w.db.entered == 0 && w.db.run.status in {PendingApproval, Queued} ==> AllPending(w.db.hosts))
    && (w.closers == [] && |w.executors| == 1 ==>
          && ExecExcused(w.db, w.executors[0])
          && (w.db.ending.ByHosts? ==>
                AllDone(w.executors[0].tasks) &&
                AllExcused(w.db, w.executors[0].tasks, w.db.ending.shutdown || w.db.ending.cancelled, TooManyFailed(cfg, w.db.hosts))))
  }

  lemma AdvanceExcused(aborted: bool, stopped: bool, row: HostStatus, t: Task, starts: nat, outcome: Outcome)
    requires Excused(aborted, stopped, row, t, starts) && Tells(row, t) && Fits(row, t) && (row == Pending ==> starts == 0)
    requires !t.Counting?
    ensures Excused(aborted, stopped, RowAfter(row, t), TaskAfter(row, t, outcome),
                    if t.Claiming? && row == Pending then starts + 1 else starts)
  {}

  lemma MoreExcused(db: Db, tasks: seq<Task>, aborted: bool, stopped: bool, aborted': bool, stopped': bool)
    requires AllExcused(db, tasks, aborted, stopped) && (aborted ==> aborted') && (stopped ==> stopped')
    ensures AllExcused(db, tasks, aborted', stopped')
  {}

  lemma StatementKeepsExcuses(cfg: Config, db: Db, e: Executor, h: nat, outcome: Outcome, aborted: bool, stopped: bool)
    requires HostsOk(db) && RowsFit(db.hosts, e.tasks) && RowsTell(db.hosts, e.tasks) && TasksMove(e, h)
    requires AllExcused(db, e.tasks, aborted, stopped) && !e.tasks[h].Counting?
    ensures var (db', e') := AdvanceStep(cfg, db, e, h, outcome); AllExcused(db', e'.tasks, aborted, stopped)
  {
    AdvanceExcused(aborted, stopped, db.hosts[h], e.tasks[h], db.starts[h], outcome);
  }

  lemma CountKeepsExcuses(cfg: Config, db: Db, e: Executor, h: nat, aborted: bool, stopped: bool)
    requires h < |e.tasks| && AllExcused(db, e.tasks, aborted, stopped) && e.tasks[h].Counting?
    ensures AllExcused(db, Counted(cfg, e, h, e.tasks[h].outcome).tasks, aborted, stopped)
  {
    assert Excused(aborted, stopped, db.hosts[h], e.tasks[h], db.starts[h]);
  }

  /** A statement of a task, or its count. */
  lemma AdvanceKeepsExcuses(cfg: Config, db: Db, e: Executor, h: nat, outcome: Outcome, aborted: bool, stopped: bool)
    requires HostsOk(db) && RowsFit(db.hosts, e.tasks) && RowsTell(db.hosts, e.tasks)
    requires AllExcused(db, e.tasks, aborted, stopped)
    ensures var (db', e') := AdvanceStep(cfg, db, e, h, outcome); AllExcused(db', e'.tasks, aborted, stopped)
  {
    if TasksMove(e, h) {
      if e.tasks[h].Counting? {
        CountKeepsExcuses(cfg, db, e, h, aborted, stopped);
      } else {
        StatementKeepsExcuses(cfg, db, e, h, outcome, aborted, stopped);
      }
    }
  }

  lemma BeginKeepsExcuses(cfg: Config, db: Db, e: Executor, h: nat)
    requires AllExcused(db, e.tasks, Aborted(e), e.stopped)
    ensures AllExcused(db, BeginStep(cfg, e, h).tasks, Aborted(e), e.stopped)
  {}

  lemma LoadIsExcused(db: Db, tasks: seq<Task>, aborted: bool, stopped: bool)
    requires HostsOk(db) && AllPending(db.hosts) && tasks == NewTasks(db.hosts)
    ensures AllExcused(db, tasks, aborted, stopped)
  {}

  lemma AdvanceExecExcused(cfg: Config, db: Db, e: Executor, h: nat, outcome: Outcome)
    requires HostsOk(db) && ExecOk(cfg, db.hosts, e) && RowsTell(db.hosts, e.tasks) && ExecExcused(db, e)
    requires e.phase != Loading && Ongoing(e.phase)
    ensures var (db', e') := AdvanceStep(cfg, db, e, h, outcome); ExecExcused(db', e')
  {
    AdvanceFrame(cfg, db, e, h, outcome);
    AdvanceKeepsExcuses(cfg, db, e, h, outcome, Aborted(e), e.stopped);
    var (db', e') := AdvanceStep(cfg, db, e, h, outcome);
    MoreExcused(db', e'.tasks, Aborted(e), e.stopped, Aborted(e'), e'.stopped);
  }

  lemma QuietFrame(cfg: Config, db: Db, e: Executor, a: ExecAction)
    requires IsQuiet(a)
    ensures var (db', e') := ExecStep(cfg, db, e, a);
      && db'.hosts == db.hosts && db'.starts == db.starts && e'.tasks == e.tasks && e'.stopped == e.stopped
      && (Aborted(e) ==> Aborted(e')) && (e'.phase == Loading ==> e.phase == Loading)
  {}

  lemma QuietExecExcused(cfg: Config, db: Db, e: Executor, a: ExecAction)
    requires IsQuiet(a) && ExecExcused(db, e)
    ensures var (db', e') := ExecStep(cfg, db, e, a); ExecExcused(db', e')
  {
    var (db', e') := ExecStep(cfg, db, e, a);
    QuietFrame(cfg, db, e, a);
    OngoingBefore(cfg, db, e, a);
    LostStays(cfg, db, e, a);
    if e.phase == Loading { QuietLoads(cfg, db, e, a); }
    if e.phase != Loading && Ongoing(e.phase) {
      MoreExcused(db, e.tasks, Aborted(e), e.stopped, Aborted(e'), e'.stopped);
    }
  }

  lemma QuietLoads(cfg: Config, db: Db, e: Executor, a: ExecAction)
    requires IsQuiet(a) && e.phase == Loading
    ensures var e' := ExecStep(cfg, db, e, a).1; e'.phase == Loading || !Ongoing(e'.phase)
  {}

  lemma LoadExecExcused(db: Db, e: Executor, decodable: bool)
    requires HostsOk(db) && ExecExcused(db, e)
    ensures ExecExcused(db, LoadStep(db, e, decodable))
  {
    var e' := LoadStep(db, e, decodable);
    if e.phase == Loading && e'.phase == Working {
      LoadIsExcused(db, e'.tasks, Aborted(e), e.stopped);
    }
  }

  /** A step of an executor that is still at work, and does not end the run. */
  lemma WorkKeepsExcuses(cfg: Config, db: Db, e: Executor, a: ExecAction)
    requires HostsOk(db) && ExecOk(cfg, db.hosts, e) && RowsTell(db.hosts, e.tasks) && ExecExcused(db, e) && Ongoing(e.phase)
    requires !a.Decide? && !a.FailDecide? && !a.FailHosts?
    ensures var (db', e') := ExecStep(cfg, db, e, a); ExecExcused(db', e')
  {
    match a {
      case Load(decodable) => LoadExecExcused(db, e, decodable);
      case Begin(h) => if e.phase != Loading { BeginKeepsExcuses(cfg, db, e, h); }
      case Advance(h, outcome) => if e.phase != Loading { AdvanceExecExcused(cfg, db, e, h, outcome); }
      case Throw(h) => ThrowKeepsExec(cfg, db.hosts, e, h);
      case _ => QuietExecExcused(cfg, db, e, a);
    }
  }

  lemma DecideKeepsExcuses(cfg: Config, w: World)
    requires Inv(cfg, w) && ExcusesOk(cfg, w) && |w.executors| == 1 && w.closers == []
    requires w.executors[0].phase.Deciding? && OwnedBy(w.db.run, w.executors[0].holder)
    ensures var (db, e) := DecideStep(w.db, w.executors[0]); ExcusesOk(cfg, World(db, [e], []))
  {
    var e, hosts := w.executors[0], w.db.hosts;
    assert ExecOk(cfg, hosts, e);
    StoppedIff(cfg, hosts, e);
    MoreExcused(w.db, e.tasks, Aborted(e), e.stopped, e.shutdown || e.cancelled, TooManyFailed(cfg, hosts));
  }

  /** A call that no longer works on its hosts does not end the run through them. */
  lemma IdleStays(cfg: Config, db: Db, e: Executor, a: ExecAction)
    requires !Ongoing(e.phase)
    ensures var (db', e') := ExecStep(cfg, db, e, a);
      !Ongoing(e'.phase) && (db'.ending.ByHosts? ==> db'.ending == db.ending)
  {
    OngoingBefore(cfg, db, e, a);
    if !a.Decide? && !a.FailDecide? {
      EndsOnlyByDeciding(cfg, db, e, a);
    }
  }

  /** No step gives an executor its run back. */
  lemma OwnerStays(cfg: Config, db: Db, e: Executor, a: ExecAction)
    ensures var (db', e') := ExecStep(cfg, db, e, a);
      db'.entered == db.entered && e'.holder == e.holder && (OwnedBy(db'.run, e.holder) ==> OwnedBy(db.run, e.holder))
  {}

  lemma LostWhen(cfg: Config, db: Db, e: Executor, a: ExecAction)
    ensures ExecStep(cfg, db, e, a).1.lost ==> e.lost || !OwnedBy(db.run, e.holder)
  {}

  lemma LostStays(cfg: Config, db: Db, e: Executor, a: ExecAction)
    requires e.lost ==> !OwnedBy(db.run, e.holder)
    ensures var (db', e') := ExecStep(cfg, db, e, a);
      (e'.lost ==> !OwnedBy(db'.run, e'.holder)) && db'.entered == db.entered
  {
    OwnerStays(cfg, db, e, a);
    LostWhen(cfg, db, e, a);
  }

  lemma DoneTasksStay(cfg: Config, db: Db, e: Executor, a: ExecAction)
    requires AllDone(e.tasks) && |e.tasks| == |db.hosts| && !OwnedBy(db.run, e.holder)
    ensures var (db', e') := ExecStep(cfg, db, e, a); e'.tasks == e.tasks && db'.ending == db.ending
  {
    match a
    case Advance(h, outcome) => if h < |e.tasks| { assert e.tasks[h].Done?; }
    case _ =>
  }

  lemma DoneStays(cfg: Config, db: Db, e: Executor, a: ExecAction)
    requires AllDone(e.tasks) && AllTerminal(db.hosts) && |e.tasks| == |db.hosts| && !OwnedBy(db.run, e.holder)
    ensures var (db', e') := ExecStep(cfg, db, e, a);
      e'.tasks == e.tasks && db'.hosts == db.hosts && db'.starts == db.starts && db'.ending == db.ending
  {
    DoneTasksStay(cfg, db, e, a);
    ExecMovesForward(cfg, db, e, a);
    TerminalStays(db.hosts, ExecStep(cfg, db, e, a).0.hosts);
  }

  lemma EndedKeepsExcuses(cfg: Config, w: World, a: ExecAction)
    requires Inv(cfg, w) && ExcusesOk(cfg, w) && |w.executors| == 1 && w.closers == [] && w.db.ending.ByHosts?
    requires !Ongoing(w.executors[0].phase)
    ensures var (db, e) := ExecStep(cfg, w.db, w.executors[0], a); ExcusesOk(cfg, World(db, [e], []))
  {
    DoneStays(cfg, w.db, w.executors[0], a);
    IdleStays(cfg, w.db, w.executors[0], a);
    LostStays(cfg, w.db, w.executors[0], a);
  }

  lemma ExecKeepsExcuses(cfg: Config, w: World, a: ExecAction)
    requires Inv(cfg, w) && ExcusesOk(cfg, w) && |w.executors| == 1 && w.closers == []
    requires w.db.ending.ByHosts? ==> !Ongoing(w.executors[0].phase)
    ensures var (db, e) := ExecStep(cfg, w.db, w.executors[0], a); ExcusesOk(cfg, World(db, [e], []))
  {
    var e0 := w.executors[0];
    assert ExecOk(cfg, w.db.hosts, e0);
    LostStays(cfg, w.db, e0, a);
    if w.db.ending.ByHosts? {
      EndedKeepsExcuses(cfg, w, a);
    } else if !Ongoing(e0.phase) {
      IdleStays(cfg, w.db, e0, a);
    } else if a.Decide? && e0.phase.Deciding? && OwnedBy(w.db.run, e0.holder) {
      DecideKeepsExcuses(cfg, w);
    } else if !a.Decide? && !a.FailDecide? && !a.FailHosts? {
      WorkKeepsExcuses(cfg, w.db, e0, a);
      EndsOnlyByDeciding(cfg, w.db, e0, a);
    }
  }

  lemma EndsOnlyByDeciding(cfg: Config, db: Db, e: Executor, a: ExecAction)
    requires !a.Decide? && !a.FailDecide?
    ensures ExecStep(cfg, db, e, a).0.ending == db.ending
  {}

  lemma StepKeepsExcuses(cfg: Config, w: World, a: Action)
    requires Inv(cfg, w) && ExcusesOk(cfg, w) && !a.DropPending?
    requires w.db.ending.ByHosts? && |w.executors| == 1 ==> !Ongoing(w.executors[0].phase)
    ensures ExcusesOk(cfg, Step(cfg, w, a))
  {
    if a.Exec? && a.executor < |w.executors| && w.closers == [] {
      ExecKeepsExcuses(cfg, w, a.step);
      var (db, e) := ExecStep(cfg, w.db, w.executors[0], a.step);
      assert w.executors[0 := e] == [e];
    }
  }

  lemma {:induction false} RunKeepsExcuses(cfg: Config, hosts: nat, approved: bool, acts: seq<Action>)
    requires forall a :: a in acts ==> !a.DropPending?
    ensures ExcusesOk(cfg, Run(cfg, StartWorld(hosts, approved), acts))
  {
    if acts != [] {
      var init := acts[..|acts| - 1];
      assert acts[|acts| - 1] in acts;
      RunKeepsExcuses(cfg, hosts, approved, init);
      RunKeepsInv(cfg, hosts, approved, init);
      FlagsFollowHistory(cfg, hosts, approved, init);
      StepKeepsExcuses(cfg, Run(cfg, StartWorld(hosts, approved), init), acts[|acts| - 1]);
    }
  }

  /** No host is left out without a reason: when the executor was through its hosts, and no route dropped
      any of them, a host that was not started was cancelled because of a shutdown or a request to
      cancel, or skipped because too many had failed; the row of every other one says how its one
      script ended. */
  lemma NoHostIsForgotten(cfg: Config, hosts: nat, approved: bool, acts: seq<Action>, h: nat)
    requires forall a :: a in acts ==> !a.DropPending?
    requires var w := Run(cfg, StartWorld(hosts, approved), acts); w.db.ending.ByHosts? && h < |w.db.hosts|
    ensures var w := Run(cfg, StartWorld(hosts, approved), acts);
      var row, ending := w.db.hosts[h], w.db.ending;
      && |w.executors| == 1 && h < |w.executors[0].tasks| && h < |w.db.starts|
      && (w.db.starts[h] == 0 ==> row == Skipped || row == Cancelled)
      && (row == Skipped ==> TooManyFailed(cfg, w.db.hosts))
      && (w.db.starts[h] == 0 && row == Cancelled ==> ending.shutdown || ending.cancelled)
      && (w.db.starts[h] != 0 ==> w.db.starts[h] == 1 && Ran(w.executors[0].tasks[h]) && row == w.executors[0].tasks[h].ran.value)
  {
    RunKeepsExcuses(cfg, hosts, approved, acts);
    RunKeepsInv(cfg, hosts, approved, acts);
    FlagsFollowHistory(cfg, hosts, approved, acts);
    var w := Run(cfg, StartWorld(hosts, approved), acts);
    ForgottenIn(cfg, w, h);
  }

  lemma ForgottenIn(cfg: Config, w: World, h: nat)
    requires Inv(cfg, w) && ExcusesOk(cfg, w) && w.db.ending.ByHosts? && h < |w.db.hosts| && |w.executors| == 1
    ensures var tasks, row, ending := w.executors[0].tasks, w.db.hosts[h], w.db.ending;
      && h < |tasks| && h < |w.db.starts|
      && (w.db.starts[h] == 0 ==> row == Skipped || row == Cancelled)
      && (row == Skipped ==> TooManyFailed(cfg, w.db.hosts))
      && (w.db.starts[h] == 0 && row == Cancelled ==> ending.shutdown || ending.cancelled)
      && (w.db.starts[h] != 0 ==> w.db.starts[h] == 1 && Ran(tasks[h]) && row == tasks[h].ran.value)
  {
    var e := w.executors[0];
    assert RowsTell(w.db.hosts, e.tasks) && Tells(w.db.hosts[h], e.tasks[h]);
    assert ExecOk(cfg, w.db.hosts, e) && Fits(w.db.hosts[h], e.tasks[h]);
  }

  // ---- No host is started after a stop --------------------------------------------------------------

  predicate Halted(e: Executor) {
    Aborted(e) || e.stopped
  }

  /** A host that has not been started, and will not be once its call has halted. */
  predicate NotStarting(t: Task) {
    t == Waiting || t.Dropping? || t == Done(None) || t == Thrown
  }

  lemma HaltedStays(cfg: Config, db: Db, e: Executor, a: ExecAction)
    ensures var e' := ExecStep(cfg, db, e, a).1; (e.stopped ==> e'.stopped) && (Aborted(e) ==> Aborted(e'))
  {
    match a
    case Advance(h, outcome) => AdvanceFrame(cfg, db, e, h, outcome);
    case _ =>
  }

  /** From one moment to the next a host's task has not come nearer to a start. */
  predicate StillNotStarting(db: Db, e: Executor, db': Db, e': Executor, h: nat) {
    && h < |e'.tasks| && NotStarting(e'.tasks[h])
    && |db'.starts| == |db.starts| && h < |db.starts| && db'.starts[h] == db.starts[h]
    && e'.phase != Loading
  }

  lemma StatementStartsNot(cfg: Config, db: Db, e: Executor, k: nat, outcome: Outcome, h: nat)
    requires e.phase != Loading && h < |e.tasks| && h < |db.starts| && NotStarting(e.tasks[h])
    ensures var (db', e') := AdvanceStep(cfg, db, e, k, outcome); StillNotStarting(db, e, db', e', h)
  {
    AdvanceFrame(cfg, db, e, k, outcome);
  }

  lemma TurnStartsNot(cfg: Config, db: Db, e: Executor, k: nat, h: nat)
    requires Halted(e) && e.phase != Loading && h < |e.tasks| && h < |db.starts| && NotStarting(e.tasks[h])
    ensures StillNotStarting(db, e, db, BeginStep(cfg, e, k), h)
  {}

  /** With its call halted, a waiting host's task can only be given up. */
  lemma NothingStarts(cfg: Config, db: Db, e: Executor, a: ExecAction, h: nat)
    requires Halted(e) && e.phase != Loading && h < |e.tasks| && h < |db.starts| && NotStarting(e.tasks[h])
    ensures var (db', e') := ExecStep(cfg, db, e, a); StillNotStarting(db, e, db', e', h)
  {
    match a
    case Advance(k, outcome) => StatementStartsNot(cfg, db, e, k, outcome, h);
    case Begin(k) => TurnStartsNot(cfg, db, e, k, h);
    case _ =>
      if IsQuiet(a) {
        QuietFrame(cfg, db, e, a);
      }
  }

  /** Once a call has seen a cancel, a shutdown, the loss of its run or too many failures, no host that was
      still waiting, or on its way out, is ever started, in any continuation. */
  lemma {:induction false} NoStartOnceHalted(cfg: Config, hosts: nat, approved: bool, acts: seq<Action>, more: seq<Action>, h: nat)
    requires var w := Run(cfg, StartWorld(hosts, approved), acts);
      && |w.executors| == 1 && w.executors[0].phase != Loading && Halted(w.executors[0])
      && h < |w.executors[0].tasks| && h < |w.db.starts| && NotStarting(w.executors[0].tasks[h])
    ensures var w, later := Run(cfg, StartWorld(hosts, approved), acts), Run(cfg, StartWorld(hosts, approved), acts + more);
      && |later.executors| == 1 && later.executors[0].phase != Loading && Halted(later.executors[0])
      && h < |later.executors[0].tasks| && NotStarting(later.executors[0].tasks[h])
      && h < |later.db.starts| && later.db.starts[h] == w.db.starts[h]
    decreases |more|
  {
    if more == [] {
      assert acts + more == acts;
    } else {
      var init, last := more[..|more| - 1], more[|more| - 1];
      assert (acts + more)[..|acts + more| - 1] == acts + init && (acts + more)[|acts + more| - 1] == last;
      NoStartOnceHalted(cfg, hosts, approved, acts, init, h);
      RunKeepsInv(cfg, hosts, approved, acts + init);
      HaltedStep(cfg, Run(cfg, StartWorld(hosts, approved), acts + init), last, h);
    }
  }

  lemma HaltedStep(cfg: Config, w: World, a: Action, h: nat)
    requires Inv(cfg, w) && |w.executors| == 1 && w.executors[0].phase != Loading && Halted(w.executors[0])
    requires h < |w.executors[0].tasks| && h < |w.db.starts| && NotStarting(w.executors[0].tasks[h])
    ensures var w' := Step(cfg, w, a);
      && |w'.executors| == 1 && w'.executors[0].phase != Loading && Halted(w'.executors[0])
      && h < |w'.executors[0].tasks| && NotStarting(w'.executors[0].tasks[h])
      && h < |w'.db.starts| && w'.db.starts[h] == w.db.starts[h]
  {
    if a.Exec? && a.executor == 0 {
      HaltedStays(cfg, w.db, w.executors[0], a.step);
      NothingStarts(cfg, w.db, w.executors[0], a.step, h);
    }
  }

  /** A waiting host whose turn comes: cancelled after a cancel, a shutdown or a loss, skipped after too many
      failures, and started otherwise; with all slots taken it goes on waiting. */
  lemma TurnSays(cfg: Config, e: Executor, h: nat)
    requires e.phase != Gone && h < |e.tasks| && e.tasks[h] == Waiting
    ensures var e' := BeginStep(cfg, e, h);
      && e' == e.(tasks := e'.tasks) && |e'.tasks| == |e.tasks| && (forall k :: 0 <= k < |e.tasks| && k != h ==> e'.tasks[k] == e.tasks[k])
      && e'.tasks[h] ==
           if |Those(e.tasks, Occupying)| >= (if cfg.concurrency >= 1 then cfg.concurrency else 1) then Waiting
           else if e.cancelled || e.lost || e.shutdown then Dropping(Cancelled)
           else if e.stopped then Dropping(Skipped)
           else Claiming
  {
    NumberIsCount(e.tasks, Occupying);
  }

  /** A call that finds the run is not its own leaves everything alone; one that cannot read its parameters
      goes on to fail the run; and any other queues exactly the pending hosts. */
  lemma LoadSays(db: Db, e: Executor, decodable: bool)
    requires e.phase == Loading
    ensures var e' := LoadStep(db, e, decodable);
      if db.run.status != Active || db.run.claimedBy != Some(e.holder) then e' == e.(phase := Returned)
      else if !decodable then e' == e.(phase := FailingHosts)
      else
        && e' == e.(phase := Working, tasks := e'.tasks) && |e'.tasks| == |db.hosts|
        && forall h :: 0 <= h < |db.hosts| ==> e'.tasks[h] == if db.hosts[h] == Pending then Waiting else Done(None)
  {}

  // ---- How many at once, and how many failures -----------------------------------------------------

  ghost function Those(tasks: seq<Task>, kind: Kind): set<nat> {
    set h: nat | h < |tasks| && Is(tasks[h], kind)
  }

  lemma ThoseStep(init: seq<Task>, last: Task, kind: Kind)
    ensures Those(init + [last], kind) == Those(init, kind) + if Is(last, kind) then {|init|} else {}
  {
    forall h: nat
      ensures h in Those(init + [last], kind) <==> h in Those(init, kind) || (h == |init| && Is(last, kind))
    {
      assert h < |init| ==> (init + [last])[h] == init[h];
    }
  }

  lemma {:induction false} NumberIsCount(tasks: seq<Task>, kind: Kind)
    ensures Number(tasks, kind) == |Those(tasks, kind)|
  {
    if tasks != [] {
      var init, last := tasks[..|tasks| - 1], tasks[|tasks| - 1];
      NumberIsCount(init, kind);
      ThoseStep(init, last, kind);
      assert tasks == init + [last] && |init| !in Those(init, kind);
    }
  }

  /** At no moment are more hosts worked on than the run's concurrency allows, one at least. */
  lemma ConcurrencyIsKept(cfg: Config, hosts: nat, approved: bool, acts: seq<Action>, i: nat)
    requires i < |Run(cfg, StartWorld(hosts, approved), acts).executors|
    ensures var tasks := Run(cfg, StartWorld(hosts, approved), acts).executors[i].tasks;
      |Those(tasks, Occupying)| <= if cfg.concurrency >= 1 then cfg.concurrency else 1
  {
    RunKeepsInv(cfg, hosts, approved, acts);
    var w := Run(cfg, StartWorld(hosts, approved), acts);
    assert ExecOk(cfg, w.db.hosts, w.executors[i]);
    NumberIsCount(w.executors[i].tasks, Occupying);
  }

  /** However long a run goes on, the scripts it saw fail never exceed the limit. */
  lemma FailuresNeverExceedTheLimit(cfg: Config, hosts: nat, approved: bool, acts: seq<Action>, i: nat)
    requires cfg.maxFailures.Some? && i < |Run(cfg, StartWorld(hosts, approved), acts).executors|
    ensures var w, m, c := Run(cfg, StartWorld(hosts, approved), acts), cfg.maxFailures.value, cfg.concurrency;
      && w.executors[i].failures == |Those(w.executors[i].tasks, FailedOnes)|
      && w.executors[i].failures <= (if m >= 1 then m - 1 else 0) + (if c >= 1 then c else 1)
  {
    RunKeepsInv(cfg, hosts, approved, acts);
    var w := Run(cfg, StartWorld(hosts, approved), acts);
    assert ExecOk(cfg, w.db.hosts, w.executors[i]);
    NumberIsCount(w.executors[i].tasks, FailedOnes);
  }

  // ---- Runs that are not approved -------------------------------------------------------------------

  /** Waiting for approval, or ended without ever having run. */
  predicate NotApproved(w: World) {
    w.db.entered == 0 && w.db.run.status in {PendingApproval, Rejected, Expired, RunCancelled} && w.executors == []
  }

  /** Nothing of a run that nobody approves is ever started. */
  lemma {:induction false} UnapprovedNeverRuns(cfg: Config, hosts: nat, acts: seq<Action>)
    requires Approve !in acts
    ensures var w := Run(cfg, StartWorld(hosts, false), acts);
      NotApproved(w) && forall h :: 0 <= h < |w.db.starts| ==> w.db.starts[h] == 0
  {
    if acts != [] {
      var init, last := acts[..|acts| - 1], acts[|acts| - 1];
      assert last in acts;
      UnapprovedNeverRuns(cfg, hosts, init);
      RunKeepsInv(cfg, hosts, false, init);
      UnapprovedStep(cfg, Run(cfg, StartWorld(hosts, false), init), last);
    }
  }

  lemma UnapprovedStep(cfg: Config, w: World, a: Action)
    requires NotApproved(w) && a != Approve && |w.closers| <= w.db.left <= w.db.entered
    ensures NotApproved(Step(cfg, w, a)) && Step(cfg, w, a).db.starts == w.db.starts
  {}

  /** What the routes do to a run: approving queues one that waits for approval; rejecting and expiring end
      such a one, and cancelling also one that is queued; and no other run is changed by them. */
  lemma RoutesSay(cfg: Config, w: World, to: RunStatus)
    ensures var approved, ended := Step(cfg, w, Approve).db.run, Step(cfg, w, EndWaiting(to)).db.run;
      var waits, queued := w.db.run.status == PendingApproval, w.db.run.status == Queued;
      && approved == (if waits then w.db.run.(status := Queued) else w.db.run)
      && ended == (if (to in {Rejected, Expired} && waits) || (to == RunCancelled && (waits || queued)) then w.db.run.(status := to) else w.db.run)
  {}

  /** A run that was rejected or has expired never ran. */
  lemma {:induction false} RejectedNeverRan(cfg: Config, hosts: nat, approved: bool, acts: seq<Action>)
    ensures var w := Run(cfg, StartWorld(hosts, approved), acts);
      w.db.run.status in {Rejected, Expired} ==> w.db.entered == 0 && w.executors == []
  {
    if acts != [] {
      var init := acts[..|acts| - 1];
      RejectedNeverRan(cfg, hosts, approved, init);
      RunKeepsInv(cfg, hosts, approved, init);
      var w := Run(cfg, StartWorld(hosts, approved), init);
      StepRejects(cfg, w, acts[|acts| - 1]);
    }
  }

  lemma StepRejects(cfg: Config, w: World, a: Action)
    requires Inv(cfg, w) && (w.db.run.status in {Rejected, Expired} ==> w.db.entered == 0 && w.executors == [])
    ensures var w' := Step(cfg, w, a);
      w'.db.run.status in {Rejected, Expired} ==> w'.db.entered == 0 && w'.executors == []
  {
    if a.Exec? && a.executor < |w.executors| {
      ExecEnds(cfg, w.db, w.executors[a.executor], a.step);
    }
  }

  lemma ExecEnds(cfg: Config, db: Db, e: Executor, step: ExecAction)
    ensures ExecStep(cfg, db, e, step).0.run.status in {db.run.status, Completed, PartiallyFailed, RunFailed, RunCancelled}
  {
    match step
    case Advance(h, outcome) => AdvanceFrame(cfg, db, e, h, outcome);
    case _ =>
  }
}
