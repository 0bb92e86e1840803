/** One runbook run and its host rows, worked on by any number of replicas: the replica that
    claims it, reapers, shutdowns, and the routes that approve, reject, expire and cancel.
    They are synchronised only by the WHERE clauses of their updates, so every statement is a
    step of its own. */
module RunbookProtocol {
  import opened Options

  datatype RunStatus =
    PendingApproval | Queued | Active | Completed | PartiallyFailed | RunFailed | RunCancelled | Expired | Rejected

  datatype HostStatus = Pending | Running | Succeeded | Failed | TimedOut | Cancelled | Skipped

  /** What a finished host task may write. */
  type Outcome = s: HostStatus | s in {Succeeded, Failed, TimedOut, Cancelled} witness Succeeded

  /** What a host that never ran ends as. */
  type Unrun = s: HostStatus | s in {Cancelled, Skipped} witness Skipped

  datatype Summary = Summary(total: nat, succeeded: nat, failed: nat, timedOut: nat, cancelled: nat, skipped: nat)

  datatype RunRow = RunRow(
    status: RunStatus, claimedBy: Option<nat>, heartbeatAt: int, cancelRequested: bool, summary: Option<Summary>)

  predicate Ended(s: RunStatus) {
    s !in {PendingApproval, Queued, Active}
  }

  predicate Terminal(s: HostStatus) {
    s != Pending && s != Running
  }

  predicate Failing(s: HostStatus) {
    s == Failed || s == TimedOut
  }

  // ---- Summaries ------------------------------------------------------------------------

  function Times(hosts: seq<HostStatus>, s: HostStatus): nat {
    if hosts == [] then 0
    else Times(hosts[..|hosts| - 1], s) + (if hosts[|hosts| - 1] == s then 1 else 0)
  }

  /** Every status that is not one of the other four counts as failed. */
  function SummaryOf(hosts: seq<HostStatus>): Summary {
    Summary(|hosts|, Times(hosts, Succeeded), Times(hosts, Failed) + Times(hosts, Pending) + Times(hosts, Running),
            Times(hosts, TimedOut), Times(hosts, Cancelled), Times(hosts, Skipped))
  }

  method Summarize(hosts: seq<HostStatus>) returns (s: Summary)
    ensures s == SummaryOf(hosts)
  {
    s := Summary(0, 0, 0, 0, 0, 0);
    for k := 0 to |hosts|
      invariant s == SummaryOf(hosts[..k])
    {
      assert hosts[..k + 1][..k] == hosts[..k];
      s := s.(total := s.total + 1);
      match hosts[k] {
        case Succeeded => s := s.(succeeded := s.succeeded + 1);
        case TimedOut => s := s.(timedOut := s.timedOut + 1);
        case Cancelled => s := s.(cancelled := s.cancelled + 1);
        case Skipped => s := s.(skipped := s.skipped + 1);
        case _ => s := s.(failed := s.failed + 1);
      }
    }
    assert hosts[..|hosts|] == hosts;
  }

  /** The five counts add up to the number of hosts, whatever the rows say. */
  lemma {:induction false} CountsAddUp(hosts: seq<HostStatus>)
    ensures var s := SummaryOf(hosts);
      s.succeeded + s.failed + s.timedOut + s.cancelled + s.skipped == s.total == |hosts|
  {
    if hosts != [] { CountsAddUp(hosts[..|hosts| - 1]); }
  }

  lemma {:induction false} NoneOf(hosts: seq<HostStatus>, s: HostStatus)
    ensures Times(hosts, s) == 0 <==> s !in hosts
  {
    if hosts != [] {
      NoneOf(hosts[..|hosts| - 1], s);
      assert hosts == hosts[..|hosts| - 1] + [hosts[|hosts| - 1]];
    }
  }

  ghost function Rows(hosts: seq<HostStatus>, s: HostStatus): set<nat> {
    set h: nat | h < |hosts| && hosts[h] == s
  }

  lemma RowsStep(init: seq<HostStatus>, last: HostStatus, s: HostStatus)
    ensures Rows(init + [last], s) == Rows(init, s) + if last == s then {|init|} else {}
  {
    forall h: nat
      ensures h in Rows(init + [last], s) <==> h in Rows(init, s) || (h == |init| && last == s)
    {
      assert h < |init| ==> (init + [last])[h] == init[h];
    }
  }

  lemma {:induction false} TimesIsCount(hosts: seq<HostStatus>, s: HostStatus)
    ensures Times(hosts, s) == |Rows(hosts, s)|
  {
    if hosts != [] {
      var init, last := hosts[..|hosts| - 1], hosts[|hosts| - 1];
      TimesIsCount(init, s);
      RowsStep(init, last, s);
      assert hosts == init + [last] && |init| !in Rows(init, s);
    }
  }

  // ---- The executor's task pool -----------------------------------------------------------

  /** Where one host's task is: waiting for a slot; about to give its row up (`Dropping`), about
      to start it (`Claiming`), running its script, about to write the outcome, about to count
      it; done, with the outcome if the script ran; or ended because its statement failed. */
  datatype Task =
    | Waiting
    | Dropping(to: Unrun)
    | Claiming
    | Executing
    | Settling(outcome: Outcome)
    | Counting(outcome: Outcome)
    | Done(ran: Option<Outcome>)
    | Thrown

  /** Where the call is: the three `Fail` phases are those of `failWholeRun`, which `executeRun`
      calls when the parameters cannot be read, and `launch` when `executeRun` throws. A call
      that has returned may leave tasks behind that go on; nothing goes on when the process is gone. */
  datatype Phase =
    | Loading
    | Working
    | Reading
    | Deciding(read: seq<HostStatus>)
    | FailingHosts
    | FailReading
    | FailDeciding(read: seq<HostStatus>)
    | Announcing(summary: Summary)
    | Returned
    | Gone

  /** `caught`: `executeRun` has thrown, and what runs is the handler in `launch`. */
  datatype Executor = Executor(
    holder: nat, phase: Phase, tasks: seq<Task>,
    cancelled: bool, lost: bool, shutdown: bool, stopped: bool, failures: nat, caught: bool)

  function NewExecutor(holder: nat): Executor {
    Executor(holder, Loading, [], false, false, false, false, 0, false)
  }

  datatype Config = Config(concurrency: int, maxFailures: Option<nat>)

  predicate Aborted(e: Executor) {
    e.cancelled || e.lost || e.shutdown
  }

  function Max(a: int, b: int): int {
    if a >= b then a else b
  }

  function Slots(cfg: Config): int {
    Max(1, cfg.concurrency)
  }

  predicate InSlot(t: Task) {
    !t.Waiting? && !t.Done? && !t.Thrown?
  }

  /** Past the check for a stopped run, and not counted yet. */
  predicate Live(t: Task) {
    t.Claiming? || t.Executing? || t.Settling? || t.Counting?
  }

  predicate CountedFailure(t: Task) {
    t.Done? && t.ran.Some? && Failing(t.ran.value)
  }

  datatype Kind = Occupying | Unsettled | FailedOnes

  predicate Is(t: Task, kind: Kind) {
    match kind case Occupying => InSlot(t) case Unsettled => Live(t) case FailedOnes => CountedFailure(t)
  }

  function Number(tasks: seq<Task>, kind: Kind): nat {
    if tasks == [] then 0
    else Number(tasks[..|tasks| - 1], kind) + (if Is(tasks[|tasks| - 1], kind) then 1 else 0)
  }

  predicate AllDone(tasks: seq<Task>) {
    forall h :: 0 <= h < |tasks| ==> tasks[h].Done?
  }

  function NewTasks(hosts: seq<HostStatus>): seq<Task> {
    seq(|hosts|, h requires 0 <= h < |hosts| => if hosts[h] == Pending then Waiting else Done(None))
  }

  /** A task leaves the queue: what it will do is decided now, the statement comes later. */
  function FirstMove(e: Executor): Task {
    if Aborted(e) then Dropping(Cancelled) else if e.stopped then Dropping(Skipped) else Claiming
  }

  function Counted(cfg: Config, e: Executor, h: nat, outcome: Outcome): Executor
    requires h < |e.tasks|
  {
    var tasks := e.tasks[h := Done(Some(outcome))];
    if !Failing(outcome) then e.(tasks := tasks)
    else
      var reached := cfg.maxFailures.Some? && e.failures + 1 >= cfg.maxFailures.value;
      e.(tasks := tasks, failures := e.failures + 1, stopped := e.stopped || reached)
  }

  function FinalStatus(e: Executor, s: Summary): RunStatus {
    if e.shutdown then RunFailed
    else if e.cancelled then RunCancelled
    else if e.stopped then RunFailed
    else if s.total > 0 && s.succeeded == s.total then Completed
    else if s.succeeded == 0 then RunFailed
    else PartiallyFailed
  }

  // ---- The rows -----------------------------------------------------------------------------

  /** Whether the executor ended the run: through its hosts, and if so after a shutdown or a
      request to cancel had reached it, or because a statement failed. */
  datatype Ending = NotByExecutor | ByHosts(shutdown: bool, cancelled: bool) | ByFailure

  /** The rows of one run, and what has happened to them: how often the run entered and left
      `Active`, how often its end was announced, whether its executor ended it, and how often
      each host was started. */  datatype Db = Db(
    run: RunRow, hosts: seq<HostStatus>,
    entered: nat, left: nat, announced: nat, ending: Ending, starts: seq<nat>)

  function Retire(hosts: seq<HostStatus>, from: set<HostStatus>, to: HostStatus): seq<HostStatus> {
    seq(|hosts|, h requires 0 <= h < |hosts| => if hosts[h] in from then to else hosts[h])
  }

  predicate OwnedBy(run: RunRow, holder: nat) {
    run.status == Active && run.claimedBy == Some(holder)
  }

  function Claimed(run: RunRow, holder: nat, now: int): RunRow {
    run.(status := Active, claimedBy := Some(holder), heartbeatAt := now)
  }

  /** The run leaves `Active`. */
  function Leave(db: Db, status: RunStatus): Db {
    db.(run := db.run.(status := status), left := db.left + 1)
  }

  // ---- Executor steps -----------------------------------------------------------------------

  datatype ExecAction =
    | Load(decodable: bool)
    | Begin(host: nat)
    | Advance(host: nat, outcome: Outcome)
    | Throw(host: nat)
    | Heartbeat(now: int)
    | SeeCancel
    | SeeLost
    | ShutDown
    | Finish
    | ReadHosts
    | Decide
    | FailHosts
    | FailRead
    | FailDecide
    | Announce
    | Fault
    | Crash

  function LoadStep(db: Db, e: Executor, decodable: bool): Executor {
    if e.phase != Loading then e
    else if !OwnedBy(db.run, e.holder) then e.(phase := Returned)
    else if !decodable then e.(phase := FailingHosts)
    else e.(phase := Working, tasks := NewTasks(db.hosts))
  }

  /** Tasks go on whatever the call does, even when it has failed the run or returned. */
  predicate TasksMove(e: Executor, h: nat) {
    e.phase != Gone && h < |e.tasks|
  }

  function BeginStep(cfg: Config, e: Executor, h: nat): Executor {
    if TasksMove(e, h) && e.tasks[h].Waiting? && Number(e.tasks, Occupying) < Slots(cfg)
    then e.(tasks := e.tasks[h := FirstMove(e)])
    else e
  }

  /** One host's row as its task's next statement leaves it. */
  function RowAfter(row: HostStatus, t: Task): HostStatus {
    match t
    case Dropping(to) => if row == Pending then to else row
    case Claiming => if row == Pending then Running else row
    case Settling(outcome) => if row == Running then outcome else row
    case _ => row
  }

  function TaskAfter(row: HostStatus, t: Task, outcome: Outcome): Task {
    match t
    case Dropping(_) => Done(None)
    case Claiming => if row == Pending then Executing else Done(None)
    case Executing => Settling(outcome)
    case Settling(o) => Counting(o)
    case _ => t
  }

  function AdvanceStep(cfg: Config, db: Db, e: Executor, h: nat, outcome: Outcome): (Db, Executor)
  {
    if !TasksMove(e, h) || h >= |db.hosts| || h >= |db.starts| then (db, e)
    else
      var t, row := e.tasks[h], db.hosts[h];
      if t.Counting? then (db, Counted(cfg, e, h, t.outcome))
      else
        var starts := if t.Claiming? && row == Pending then db.starts[h := db.starts[h] + 1] else db.starts;
        (db.(hosts := db.hosts[h := RowAfter(row, t)], starts := starts), e.(tasks := e.tasks[h := TaskAfter(row, t, outcome)]))
  }

  /** The statement of a task fails: the task is over and its slot free. The first one makes
      `executeRun` throw, and the handler goes on to fail the whole run. */
  function ThrowStep(e: Executor, h: nat): Executor {
    if !TasksMove(e, h) || !(e.tasks[h].Dropping? || e.tasks[h].Claiming? || e.tasks[h].Settling?) then e
    else
      var tasks := e.tasks[h := Thrown];
      if e.phase == Working then e.(tasks := tasks, phase := FailingHosts, caught := true) else e.(tasks := tasks)
  }

  /** A statement of the call itself fails. */
  function FaultStep(e: Executor): Executor {
    if e.phase == Working || e.phase == Returned || e.phase == Gone then e
    else if e.caught then e.(phase := Returned)
    else e.(phase := FailingHosts, caught := true)
  }

  function HeartbeatStep(db: Db, e: Executor, now: int): (Db, Executor) {
    if e.phase == Gone then (db, e)
    else if OwnedBy(db.run, e.holder) then (db.(run := db.run.(heartbeatAt := now)), e)
    else (db, e.(lost := true))
  }

  function DecideStep(db: Db, e: Executor): (Db, Executor) {
    if !e.phase.Deciding? then (db, e)
    else if !OwnedBy(db.run, e.holder) then (db, e.(phase := Returned))
    else
      var s := SummaryOf(e.phase.read);
      var ended := Leave(db, FinalStatus(e, s));
      (ended.(run := ended.run.(summary := Some(s)), ending := ByHosts(e.shutdown, e.cancelled)), e.(phase := Announcing(s)))
  }

  function FailDecideStep(db: Db, e: Executor): (Db, Executor) {
    if !e.phase.FailDeciding? then (db, e)
    else if !OwnedBy(db.run, e.holder) then (db, e.(phase := Returned))
    else
      var s := SummaryOf(e.phase.read);
      var ended := Leave(db, RunFailed);
      (ended.(run := ended.run.(summary := Some(s)), ending := ByFailure), e.(phase := Announcing(s)))
  }

  /** The call heeds a shutdown until its tasks are through. */
  predicate Listening(e: Executor) {
    e.phase == Loading || e.phase == Working
  }

  function ExecStep(cfg: Config, db: Db, e: Executor, a: ExecAction): (Db, Executor)
  {
    match a
    case Load(decodable) => (db, LoadStep(db, e, decodable))
    case Begin(h) => (db, BeginStep(cfg, e, h))
    case Advance(h, outcome) => AdvanceStep(cfg, db, e, h, outcome)
    case Throw(h) => (db, ThrowStep(e, h))
    case Heartbeat(now) => HeartbeatStep(db, e, now)
    case SeeCancel => (db, if db.run.cancelRequested then e.(cancelled := true) else e)
    case SeeLost => (db, if OwnedBy(db.run, e.holder) then e else e.(lost := true))
    case ShutDown => (db, if Listening(e) then e.(shutdown := true) else e)
    case Finish => (db, if e.phase == Working && AllDone(e.tasks) then e.(phase := if e.lost then Returned else Reading) else e)
    case ReadHosts => (db, if e.phase == Reading then e.(phase := Deciding(db.hosts)) else e)
    case Decide => DecideStep(db, e)
    case FailHosts =>
      if e.phase == FailingHosts then (db.(hosts := Retire(db.hosts, {Pending, Running}, Failed)), e.(phase := FailReading)) else (db, e)
    case FailRead => (db, if e.phase == FailReading then e.(phase := FailDeciding(db.hosts)) else e)
    case FailDecide => FailDecideStep(db, e)
    case Announce =>
      if e.phase.Announcing? then (db.(announced := db.announced + 1), e.(phase := Returned)) else (db, e)
    case Fault => (db, FaultStep(e))
    case Crash => (db, e.(phase := Gone))
  }

  // ---- Reapers and shutdowns ------------------------------------------------------------------

  /** A call that has failed the run and now cleans up behind it; a shutdown announces nothing.
      `seen` holds the rows as its two updates left them and as it then read them. */
  datatype CloserPhase = MarkRunning | MarkPending | ReadRows | WriteSummary | Tell | Finished

  datatype Closer = Closer(announces: bool, phase: CloserPhase, seen: seq<seq<HostStatus>>)

  function NewCloser(announces: bool): Closer {
    Closer(announces, MarkRunning, [])
  }

  function LastSeen(c: Closer): seq<HostStatus> {
    if c.seen == [] then [] else c.seen[|c.seen| - 1]
  }

  /** The rows after a closer's next statement. */
  function CloserRows(hosts: seq<HostStatus>, c: Closer): seq<HostStatus> {
    match c.phase
    case MarkRunning => Retire(hosts, {Running}, Failed)
    case MarkPending => Retire(hosts, {Pending}, Skipped)
    case _ => hosts
  }

  function CloserStep(db: Db, c: Closer): (Db, Closer) {
    var hosts := CloserRows(db.hosts, c);
    match c.phase
    case MarkRunning => (db.(hosts := hosts), c.(phase := MarkPending, seen := c.seen + [hosts]))
    case MarkPending => (db.(hosts := hosts), c.(phase := ReadRows, seen := c.seen + [hosts]))
    case ReadRows => (db, c.(phase := WriteSummary, seen := c.seen + [hosts]))
    case WriteSummary =>
      (db.(run := db.run.(summary := Some(SummaryOf(LastSeen(c))))), c.(phase := if c.announces then Tell else Finished))
    case Tell => (db.(announced := db.announced + 1), c.(phase := Finished))
    case Finished => (db, c)
  }

  // ---- The statements on the rows ---------------------------------------------------------------

  /** The run's rows. Each method is one conditional update, or the read and the update that
      `finalizeRun` makes of them; `count` says whether the WHERE clause matched. */
  class RunTable {
    var run: RunRow
    var hosts: seq<HostStatus>

    constructor (run: RunRow, hosts: seq<HostStatus>)
      ensures this.run == run && this.hosts == hosts
    {
      this.run, this.hosts := run, hosts;
    }

    method ClaimRun(holder: nat, now: int) returns (count: nat)
      modifies this`run
      ensures count == if old(run).status == Queued then 1 else 0
      ensures run == if count == 1 then Claimed(old(run), holder, now) else old(run)
    {
      if run.status != Queued { return 0; }
      run := run.(status := Active, claimedBy := Some(holder), heartbeatAt := now);
      return 1;
    }

    /** One host row, if its status is one of `from`. */
    method SettleHost(h: nat, from: set<HostStatus>, to: HostStatus) returns (count: nat)
      requires h < |hosts|
      modifies this`hosts
      ensures count == if old(hosts)[h] in from then 1 else 0
      ensures hosts == if count == 1 then old(hosts)[h := to] else old(hosts)
    {
      if hosts[h] !in from { return 0; }
      hosts := hosts[h := to];
      return 1;
    }

    /** Every host row whose status is one of `from`. */
    method RetireHosts(from: set<HostStatus>, to: HostStatus)
      modifies this`hosts
      ensures hosts == Retire(old(hosts), from, to)
    {
      var h := 0;
      while h < |hosts|
        invariant h <= |hosts| == |old(hosts)|
        invariant forall k :: 0 <= k < |hosts| ==> hosts[k] == if k < h && old(hosts)[k] in from then to else old(hosts)[k]
      {
        if hosts[h] in from { hosts := hosts[h := to]; }
        h := h + 1;
      }
    }

    method MarkHostsLost()
      modifies this`hosts
      ensures hosts == Retire(Retire(old(hosts), {Running}, Failed), {Pending}, Skipped)
    {
      RetireHosts({Running}, Failed);
      RetireHosts({Pending}, Skipped);
    }

    /** With nobody else at the rows this is a read and a decision of the executor. */
    method FinalizeRun(e: Executor) returns (status: Option<RunStatus>)
      modifies this`run
      ensures var db := Db(old(run), hosts, 1, 0, 0, NotByExecutor, []);
        var (db', e') := DecideStep(db, e.(phase := Deciding(hosts)));
        run == db'.run && status == (if e'.phase.Announcing? then Some(run.status) else None)
    {
      var summary := Summarize(hosts);
      var decided;
      if e.shutdown { decided := RunFailed; }
      else if e.cancelled { decided := RunCancelled; }
      else if e.stopped { decided := RunFailed; }
      else if summary.total > 0 && summary.succeeded == summary.total { decided := Completed; }
      else if summary.succeeded == 0 { decided := RunFailed; }
      else { decided := PartiallyFailed; }
      if run.status != Active || run.claimedBy != Some(e.holder) { return None; }
      run := run.(status := decided, summary := Some(summary));
      return Some(decided);
    }
  }

  /** What `executeRun` keeps about its hosts while they run. */
  class PoolState {
    var failures: nat
    var stopped: bool

    constructor ()
      ensures failures == 0 && !stopped
    {
      failures, stopped := 0, false;
    }

    method CountOutcome(maxFailures: Option<nat>, outcome: Outcome)
      modifies this
      ensures forall cfg: Config, e: Executor, h: nat ::
        cfg.maxFailures == maxFailures && h < |e.tasks| && e.failures == old(failures) && e.stopped == old(stopped) ==>
          Counted(cfg, e, h, outcome).failures == failures && Counted(cfg, e, h, outcome).stopped == stopped
    {
      if outcome == Failed || outcome == TimedOut {
        failures := failures + 1;
        if maxFailures.Some? && failures >= maxFailures.value { stopped := true; }
      }
    }
  }

  // ---- The system -----------------------------------------------------------------------------

  datatype World = World(db: Db, executors: seq<Executor>, closers: seq<Closer>)

  datatype Action =
    | Approve
    | EndWaiting(to: RunStatus)
    | RequestCancel
    | DropPending(dropped: Unrun)
    | Claim(holder: nat, now: int)
    | Exec(executor: nat, step: ExecAction)
    | Reap(cutoff: int)
    | FailOwn(holder: nat)
    | Clean(closer: nat)
    | CleanerCrash(crashed: nat)

  function StartWorld(hosts: nat, approved: bool): World {
    var run := RunRow(if approved then Queued else PendingApproval, None, 0, false, None);
    World(Db(run, seq(hosts, _ => Pending), 0, 0, 0, NotByExecutor, seq(hosts, _ => 0)), [], [])
  }

  /** Which waiting statuses each route may end, and how. */
  predicate MayEnd(from: RunStatus, to: RunStatus) {
    match to
    case Rejected => from == PendingApproval
    case Expired => from == PendingApproval
    case RunCancelled => from == PendingApproval || from == Queued
    case _ => false
  }

  function Step(cfg: Config, w: World, a: Action): World
  {
    var run := w.db.run;
    match a
    case Approve => if run.status == PendingApproval then w.(db := w.db.(run := run.(status := Queued))) else w
    case EndWaiting(to) => if MayEnd(run.status, to) then w.(db := w.db.(run := run.(status := to))) else w
    case RequestCancel => if run.status == Active then w.(db := w.db.(run := run.(cancelRequested := true))) else w
    // The routes update host rows in a second statement that does not look at the run again.
    case DropPending(dropped) =>
      w.(db := w.db.(hosts := Retire(w.db.hosts, {Pending}, dropped)))
    case Claim(holder, now) =>
      if run.status != Queued then w
      else
        World(w.db.(run := Claimed(run, holder, now), entered := w.db.entered + 1),
              w.executors + [NewExecutor(holder)], w.closers)
    case Exec(i, step) =>
      if i >= |w.executors| then w
      else
        var (db, e) := ExecStep(cfg, w.db, w.executors[i], step);
        World(db, w.executors[i := e], w.closers)
    case Reap(cutoff) =>
      if run.status == Active && run.heartbeatAt < cutoff
      then World(Leave(w.db, RunFailed), w.executors, w.closers + [NewCloser(true)])
      else w
    case FailOwn(holder) =>
      if OwnedBy(run, holder)
      then World(Leave(w.db, RunFailed), w.executors, w.closers + [NewCloser(false)])
      else w
    case Clean(j) =>
      if j >= |w.closers| then w
      else
        var (db, c) := CloserStep(w.db, w.closers[j]);
        World(db, w.executors, w.closers[j := c])
    case CleanerCrash(j) => if j >= |w.closers| then w else w.(closers := w.closers[j := w.closers[j].(phase := Finished)])
  }

  function Run(cfg: Config, start: World, acts: seq<Action>): World {
    if acts == [] then start else Step(cfg, Run(cfg, start, acts[..|acts| - 1]), acts[|acts| - 1])
  }

  // ---- Rows only move forward -------------------------------------------------------------------

  /** Rows move from pending to running to a terminal status, and stay there. */
  ghost predicate Forward(before: seq<HostStatus>, after: seq<HostStatus>) {
    && |after| == |before|
    && (forall h :: 0 <= h < |before| && Terminal(before[h]) ==> after[h] == before[h])
    && (forall h :: 0 <= h < |before| && before[h] != Pending ==> after[h] != Pending)
  }

  /** Beside that, no row starts. */
  ghost predicate Quiet(before: seq<HostStatus>, after: seq<HostStatus>) {
    && Forward(before, after)
    && (forall h :: 0 <= h < |before| && !Terminal(after[h]) ==> after[h] == before[h])
  }

  ghost predicate AllTerminal(hosts: seq<HostStatus>) {
    forall h :: 0 <= h < |hosts| ==> Terminal(hosts[h])
  }

  lemma TerminalStays(before: seq<HostStatus>, after: seq<HostStatus>)
    requires Forward(before, after) && AllTerminal(before)
    ensures after == before
  {}

  lemma ForwardTwice(a: seq<HostStatus>, b: seq<HostStatus>, c: seq<HostStatus>)
    requires Forward(a, b) && Forward(b, c)
    ensures Forward(a, c)
  {}

  lemma ExecMovesForward(cfg: Config, db: Db, e: Executor, a: ExecAction)
    ensures Ended(db.run.status) ==> ExecStep(cfg, db, e, a).0.run.status == db.run.status
    ensures Forward(db.hosts, ExecStep(cfg, db, e, a).0.hosts)
    ensures AllTerminal(db.hosts) ==> ExecStep(cfg, db, e, a).0.starts == db.starts
  {}

  /** One step never changes the status of a run that has ended, never moves a host row backwards,
      and starts no host when all rows are terminal. */
  lemma StepMovesForward(cfg: Config, w: World, a: Action)
    ensures Ended(w.db.run.status) ==> Step(cfg, w, a).db.run.status == w.db.run.status
    ensures Forward(w.db.hosts, Step(cfg, w, a).db.hosts)
    ensures AllTerminal(w.db.hosts) ==> Step(cfg, w, a).db.starts == w.db.starts
  {
    if a.Exec? && a.executor < |w.executors| {
      ExecMovesForward(cfg, w.db, w.executors[a.executor], a.step);
    }
  }

  /** A run that has ended keeps its status, a terminal host row its outcome, and once all rows are
      terminal no host is started, in every continuation of every run of the system. */
  lemma {:induction false} EndedForGood(cfg: Config, start: World, acts: seq<Action>, more: seq<Action>)
    ensures var w, later := Run(cfg, start, acts), Run(cfg, start, acts + more);
      && (Ended(w.db.run.status) ==> later.db.run.status == w.db.run.status)
      && Forward(w.db.hosts, later.db.hosts)
      && (AllTerminal(w.db.hosts) ==> later.db.hosts == w.db.hosts && later.db.starts == w.db.starts)
    decreases |more|
  {
    if more == [] {
      assert acts + more == acts;
    } else {
      var init, last := more[..|more| - 1], more[|more| - 1];
      assert (acts + more)[..|acts + more| - 1] == acts + init;
      EndedForGood(cfg, start, acts, init);
      var w, between, later := Run(cfg, start, acts), Run(cfg, start, acts + init), Run(cfg, start, acts + more);
      StepMovesForward(cfg, between, last);
      ForwardTwice(w.db.hosts, between.db.hosts, later.db.hosts);
      if AllTerminal(w.db.hosts) { TerminalStays(w.db.hosts, later.db.hosts); }
    }
  }

  // ---- What every reachable world satisfies -------------------------------------------------------

  predicate InFlight(t: Task) {
    t.Executing? || t.Settling?
  }

  predicate Ran(t: Task) {
    t.Done? && t.ran.Some?
  }

  /** A status that only a script's end gives a row. */
  predicate FromScript(s: HostStatus) {
    s == Succeeded || Failing(s)
  }

  ghost predicate HostsOk(db: Db) {
    && |db.starts| == |db.hosts|
    && (forall h :: 0 <= h < |db.starts| ==> db.starts[h] <= 1)
    && (forall h :: 0 <= h < |db.hosts| && db.hosts[h] == Pending ==> db.starts[h] == 0)
  }

  ghost predicate NoneStarted(hosts: seq<HostStatus>) {
    forall h :: 0 <= h < |hosts| ==> hosts[h] != Running && !FromScript(hosts[h])
  }

  /** A running row has its task at work on it, or lost it to a failed statement; the row of a
      settled task is terminal. */
  predicate Fits(row: HostStatus, t: Task) {
    && (row == Running ==> InFlight(t) || t.Thrown?)
    && (t.Done? || t.Counting? ==> Terminal(row))
    && (InFlight(t) ==> row != Pending)
  }

  ghost predicate RowsFit(hosts: seq<HostStatus>, tasks: seq<Task>) {
    && |tasks| <= |hosts|
    && (forall h :: 0 <= h < |tasks| ==> Fits(hosts[h], tasks[h]))
    && (forall h :: |tasks| <= h < |hosts| ==> hosts[h] != Running)
  }

  /** A row whose script is at work is running, one whose script has ended has its outcome, and no
      other row looks as if a script had ended. */
  predicate Tells(row: HostStatus, t: Task) {
    && (InFlight(t) ==> row == Running)
    && (t.Counting? ==> row == t.outcome)
    && (Ran(t) ==> row == t.ran.value)
    && (FromScript(row) ==> t.Counting? || Ran(t))
  }

  ghost predicate RowsTell(hosts: seq<HostStatus>, tasks: seq<Task>) {
    && |tasks| <= |hosts|
    && (forall h :: 0 <= h < |tasks| ==> Tells(hosts[h], tasks[h]))
    && (forall h :: |tasks| <= h < |hosts| ==> !FromScript(hosts[h]))
  }

  function Limit(cfg: Config): int
    requires cfg.maxFailures.Some?
  {
    Max(1, cfg.maxFailures.value) - 1 + Slots(cfg)
  }

  ghost predicate PoolOk(cfg: Config, e: Executor) {
    && Number(e.tasks, Occupying) <= Slots(cfg)
    && Number(e.tasks, FailedOnes) == e.failures
    && (e.stopped <==> cfg.maxFailures.Some? && e.failures >= Max(1, cfg.maxFailures.value))
    && (cfg.maxFailures.Some? ==> e.failures + Number(e.tasks, Unsettled) <= Limit(cfg))
  }

  ghost predicate NoneThrown(tasks: seq<Task>) {
    forall h :: 0 <= h < |tasks| ==> !tasks[h].Thrown?
  }

  ghost predicate PhaseOk(hosts: seq<HostStatus>, e: Executor) {
    match e.phase
    case Loading => e.tasks == []
    case Working => |e.tasks| == |hosts| && NoneThrown(e.tasks)
    case Reading => |e.tasks| == |hosts| && AllDone(e.tasks)
    case Deciding(read) => |e.tasks| == |hosts| && AllDone(e.tasks) && read == hosts
    case FailReading => AllTerminal(hosts)
    case FailDeciding(read) => AllTerminal(hosts) && read == hosts
    case _ => true
  }

  ghost predicate ExecOk(cfg: Config, hosts: seq<HostStatus>, e: Executor) {
    RowsFit(hosts, e.tasks) && PoolOk(cfg, e) && PhaseOk(hosts, e)
  }

  /** The run may still be ended by what its tasks did. */
  predicate Ongoing(p: Phase) {
    p == Loading || p == Working || p == Reading || p.Deciding?
  }

  ghost predicate RunOk(w: World) {
    && |w.executors| == w.db.entered <= 1
    && w.db.left <= w.db.entered
    && (w.db.run.status == Active <==> w.db.left < w.db.entered)
    && (w.db.run.status == Queued || w.db.run.status == PendingApproval ==> w.db.entered == 0)
    && (w.db.entered == 0 ==> NoneStarted(w.db.hosts))
  }

  /** Who ended the run, and whether that has been announced. */
  ghost predicate EndOk(w: World) {
    && |w.closers| <= w.db.left
    && w.db.announced <= w.db.left
    && (forall j :: 0 <= j < |w.closers| && w.closers[j].phase != Finished ==> w.db.announced == 0)
    && (forall i :: 0 <= i < |w.executors| && w.executors[i].phase.Announcing? ==>
          w.closers == [] && w.db.left == 1 && w.db.announced == 0)
  }

  ghost predicate FailuresBounded(cfg: Config, hosts: seq<HostStatus>) {
    cfg.maxFailures.Some? ==> Times(hosts, Failed) + Times(hosts, TimedOut) <= Limit(cfg)
  }

  /** The failure limit was reached. */
  ghost predicate TooManyFailed(cfg: Config, hosts: seq<HostStatus>) {
    cfg.maxFailures.Some? && Times(hosts, Failed) + Times(hosts, TimedOut) >= Max(1, cfg.maxFailures.value)
  }

  ghost predicate AllSucceeded(hosts: seq<HostStatus>) {
    hosts != [] && forall h :: 0 <= h < |hosts| ==> hosts[h] == Succeeded
  }

  /** What the status of a run says about its rows, and about what reached its executor. */
  ghost predicate StatusTells(cfg: Config, status: RunStatus, ending: Ending, hosts: seq<HostStatus>)
    requires ending.ByHosts?
  {
    var undisturbed := !ending.shutdown && !ending.cancelled;
    && (status == Completed <==> undisturbed && AllSucceeded(hosts))
    && (status == PartiallyFailed <==>
          undisturbed && !TooManyFailed(cfg, hosts) && Succeeded in hosts && !AllSucceeded(hosts))
    && (status == RunCancelled <==> !ending.shutdown && ending.cancelled)
    && (status == RunFailed <==>
          ending.shutdown || (undisturbed && (TooManyFailed(cfg, hosts) || Succeeded !in hosts)))
  }

  ghost predicate FinalOk(cfg: Config, w: World) {
    w.db.ending != NotByExecutor ==>
      && w.db.left == 1 && w.closers == []
      && AllTerminal(w.db.hosts)
      && w.db.run.summary == Some(SummaryOf(w.db.hosts))
      && Ended(w.db.run.status)
      && (w.db.ending == ByFailure ==> w.db.run.status == RunFailed)
      && (w.db.ending.ByHosts? ==>
           FailuresBounded(cfg, w.db.hosts) && StatusTells(cfg, w.db.run.status, w.db.ending, w.db.hosts))
  }

  /** While nobody else has ended the run, and after its executor has through its hosts, the rows
      tell how the scripts ended. */
  ghost predicate RowsOk(w: World) {
    w.closers == [] ==>
      forall i :: 0 <= i < |w.executors| && (Ongoing(w.executors[i].phase) || w.db.ending.ByHosts?) ==>
        RowsTell(w.db.hosts, w.executors[i].tasks)
  }

  ghost predicate ExecsOk(cfg: Config, w: World) {
    forall i :: 0 <= i < |w.executors| ==> ExecOk(cfg, w.db.hosts, w.executors[i])
  }

  /** How often a closer has looked at the rows. */
  predicate SeenSoFar(p: CloserPhase, n: nat) {
    match p
    case MarkRunning => n == 0
    case MarkPending => n == 1
    case ReadRows => n == 2
    case WriteSummary => n == 3
    case Tell => n == 3
    case Finished => n <= 3
  }

  /** Since its first update no row was running at that moment and since its second none pending,
      and rows have only moved forward. */
  ghost predicate SeenOk(hosts: seq<HostStatus>, c: Closer) {
    && SeenSoFar(c.phase, |c.seen|)
    && (|c.seen| > 0 ==> Running !in c.seen[0])
    && (|c.seen| > 1 ==> Pending !in c.seen[1] && Forward(c.seen[0], c.seen[1]))
    && (|c.seen| > 2 ==> Forward(c.seen[1], c.seen[2]))
    && (c.seen != [] ==> Forward(LastSeen(c), hosts))
  }

  /** A summary is stored by the executor that ended the run, or is that of the rows a closer read. */
  ghost predicate SummaryOk(w: World) {
    && (w.closers == [] && w.db.ending == NotByExecutor ==> w.db.run.summary == None)
    && forall j :: 0 <= j < |w.closers| ==>
         && SeenOk(w.db.hosts, w.closers[j])
         && (w.db.run.summary.Some? ==> |w.closers[j].seen| == 3 && w.db.run.summary == Some(SummaryOf(w.closers[j].seen[2])))
  }

  ghost predicate Inv(cfg: Config, w: World) {
    HostsOk(w.db) && RunOk(w) && EndOk(w) && ExecsOk(cfg, w) && RowsOk(w) && FinalOk(cfg, w) && SummaryOk(w)
  }

  // ---- Steps outside the executor -----------------------------------------------------------------

  lemma QuietKeepsExec(cfg: Config, before: seq<HostStatus>, after: seq<HostStatus>, e: Executor)
    requires ExecOk(cfg, before, e) && Quiet(before, after)
    ensures ExecOk(cfg, after, e)
  {
    if e.phase == Reading || e.phase.Deciding? {
      assert AllTerminal(before);
    }
    if AllTerminal(before) { TerminalStays(before, after); }
  }

  lemma SeenStays(before: seq<HostStatus>, after: seq<HostStatus>, c: Closer)
    requires SeenOk(before, c) && Forward(before, after)
    ensures SeenOk(after, c)
  {
    if c.seen != [] { ForwardTwice(LastSeen(c), before, after); }
  }

  /** Rows that move on leave what is known about closers and summaries as it is. */
  lemma ForwardKeepsSummary(w: World, hosts: seq<HostStatus>)
    requires SummaryOk(w) && Forward(w.db.hosts, hosts)
    ensures SummaryOk(w.(db := w.db.(hosts := hosts)))
  {
    forall j | 0 <= j < |w.closers|
      ensures SeenOk(hosts, w.closers[j])
    {
      SeenStays(w.db.hosts, hosts, w.closers[j]);
    }
  }

  /** Rows that are retired by someone else: the executor's bookkeeping stays right. */
  lemma QuietKeepsInv(cfg: Config, w: World, hosts: seq<HostStatus>)
    requires Inv(cfg, w) && Quiet(w.db.hosts, hosts)
    requires w.closers != [] || forall h :: 0 <= h < |hosts| && hosts[h] != w.db.hosts[h] ==> w.db.hosts[h] == Pending && !FromScript(hosts[h])
    ensures Inv(cfg, w.(db := w.db.(hosts := hosts)))
  {
    forall i | 0 <= i < |w.executors| ensures ExecOk(cfg, hosts, w.executors[i]) {
      QuietKeepsExec(cfg, w.db.hosts, hosts, w.executors[i]);
    }
    ForwardKeepsSummary(w, hosts);
    if w.db.ending != NotByExecutor { TerminalStays(w.db.hosts, hosts); }
  }

  lemma CloserRowsQuiet(hosts: seq<HostStatus>, c: Closer)
    ensures Quiet(hosts, CloserRows(hosts, c))
  {}

  lemma CloserSeesRows(db: Db, c: Closer)
    requires SeenOk(db.hosts, c)
    ensures var (db', c') := CloserStep(db, c);
      && SeenOk(db'.hosts, c')
      && (c.phase == WriteSummary ==> db'.run.summary == Some(SummaryOf(c'.seen[2])))
      && (|c.seen| == 3 ==> c'.seen == c.seen)
  {
    var (db', c') := CloserStep(db, c);
    CloserRowsQuiet(db.hosts, c);
    SeenStays(db.hosts, db'.hosts, c);
    if c'.seen != c.seen {
      assert LastSeen(c') == db'.hosts;
    }
  }

  lemma CleanKeepsInv(cfg: Config, w: World, j: nat)
    requires Inv(cfg, w) && j < |w.closers|
    ensures Inv(cfg, Step(cfg, w, Clean(j)))
  {
    var c := w.closers[j];
    var (db, c') := CloserStep(w.db, c);
    assert w.closers == [c] && w.closers[j := c'] == [c'];
    CloserRowsQuiet(w.db.hosts, c);
    QuietKeepsInv(cfg, w, db.hosts);
    CloserSeesRows(w.db, c);
  }

  lemma CloserStartsInv(cfg: Config, w: World, announces: bool)
    requires Inv(cfg, w) && w.db.run.status == Active
    ensures Inv(cfg, World(Leave(w.db, RunFailed), w.executors, w.closers + [NewCloser(announces)]))
  {
    assert w.closers == [] && w.closers + [NewCloser(announces)] == [NewCloser(announces)];
  }

  lemma ClaimKeepsInv(cfg: Config, w: World, holder: nat, now: int)
    requires Inv(cfg, w) && w.db.run.status == Queued
    ensures Inv(cfg, Step(cfg, w, Claim(holder, now)))
  {
    var w' := Step(cfg, w, Claim(holder, now));
    assert w'.executors == [NewExecutor(holder)];
  }

  // ---- The pool -------------------------------------------------------------------------------------

  lemma {:induction false} NumberUpdate(tasks: seq<Task>, h: nat, t: Task, kind: Kind)
    requires h < |tasks|
    ensures Number(tasks[h := t], kind) ==
      Number(tasks, kind) - (if Is(tasks[h], kind) then 1 else 0) + (if Is(t, kind) then 1 else 0)
  {
    var init, last := tasks[..|tasks| - 1], |tasks| - 1;
    if h == last {
      assert tasks[h := t][..last] == init;
    } else {
      NumberUpdate(init, h, t, kind);
      assert tasks[h := t][..last] == init[h := t];
    }
  }

  lemma {:induction false} NumberWithin(tasks: seq<Task>)
    ensures Number(tasks, Unsettled) <= Number(tasks, Occupying)
  {
    if tasks != [] { NumberWithin(tasks[..|tasks| - 1]); }
  }

  lemma {:induction false} NoneWorking(tasks: seq<Task>, kind: Kind)
    requires forall h :: 0 <= h < |tasks| ==> !Is(tasks[h], kind)
    ensures Number(tasks, kind) == 0
  {
    if tasks != [] { NoneWorking(tasks[..|tasks| - 1], kind); }
  }

  lemma NumbersUpdate(tasks: seq<Task>, h: nat, t: Task)
    requires h < |tasks|
    ensures forall kind: Kind ::
      Number(tasks[h := t], kind) == Number(tasks, kind) - (if Is(tasks[h], kind) then 1 else 0) + (if Is(t, kind) then 1 else 0)
  {
    forall kind: Kind {
      NumberUpdate(tasks, h, t, kind);
    }
  }

  lemma NewTasksFit(cfg: Config, hosts: seq<HostStatus>, e: Executor)
    requires e.tasks == NewTasks(hosts) && e.failures == 0 && !e.stopped && forall h :: 0 <= h < |hosts| ==> hosts[h] != Running
    ensures RowsFit(hosts, e.tasks) && PoolOk(cfg, e) && NoneThrown(e.tasks)
  {
    NoneWorking(e.tasks, Occupying);
    NoneWorking(e.tasks, Unsettled);
    NoneWorking(e.tasks, FailedOnes);
  }

  lemma BeginKeepsPool(cfg: Config, e: Executor, h: nat)
    requires PoolOk(cfg, e)
    ensures PoolOk(cfg, BeginStep(cfg, e, h))
  {
    if BeginStep(cfg, e, h) != e {
      NumbersUpdate(e.tasks, h, FirstMove(e));
      NumberWithin(e.tasks);
    }
  }

  lemma CountedKeepsPool(cfg: Config, e: Executor, h: nat)
    requires PoolOk(cfg, e) && h < |e.tasks| && e.tasks[h].Counting?
    ensures PoolOk(cfg, Counted(cfg, e, h, e.tasks[h].outcome))
  {
    NumbersUpdate(e.tasks, h, Done(Some(e.tasks[h].outcome)));
  }

  /** A task that moves within its slot, or leaves it without a counted outcome. */
  lemma MoveKeepsPool(cfg: Config, e: Executor, h: nat, t: Task)
    requires PoolOk(cfg, e) && h < |e.tasks|
    requires (InSlot(t) ==> InSlot(e.tasks[h])) && (Live(t) ==> Live(e.tasks[h])) && CountedFailure(t) == CountedFailure(e.tasks[h])
    ensures PoolOk(cfg, e.(tasks := e.tasks[h := t]))
  {
    NumbersUpdate(e.tasks, h, t);
  }

  // ---- Executor steps -------------------------------------------------------------------------------

  /** What a step of the executor that does not end the run may change. */
  ghost predicate Kept(w: World, db: Db, e: Executor)
    requires |w.executors| == 1
  {
    var e0 := w.executors[0];
    && db == w.db.(run := db.run, hosts := db.hosts, starts := db.starts, announced := db.announced)
    && db.run == w.db.run.(heartbeatAt := db.run.heartbeatAt)
    && Forward(w.db.hosts, db.hosts)
    && (e.phase.Announcing? ==> e0.phase.Announcing?)
    && (db.announced == w.db.announced || (e0.phase.Announcing? && !e.phase.Announcing? && db.announced == w.db.announced + 1))
    && (w.closers == [] && (Ongoing(e.phase) || w.db.ending.ByHosts?) ==> RowsTell(db.hosts, e.tasks))
  }

  lemma KeptEnd(w: World, db: Db, e: Executor)
    requires |w.executors| == 1 && RunOk(w) && EndOk(w) && Kept(w, db, e)
    ensures RunOk(World(db, [e], w.closers)) && EndOk(World(db, [e], w.closers))
  {}

  lemma KeptFinal(cfg: Config, w: World, db: Db, e: Executor)
    requires |w.executors| == 1 && FinalOk(cfg, w) && SummaryOk(w) && Kept(w, db, e)
    ensures FinalOk(cfg, World(db, [e], w.closers)) && SummaryOk(World(db, [e], w.closers))
  {
    ForwardKeepsSummary(w, db.hosts);
    if w.db.ending != NotByExecutor { TerminalStays(w.db.hosts, db.hosts); }
  }

  lemma KeptInv(cfg: Config, w: World, db: Db, e: Executor)
    requires |w.executors| == 1 && Inv(cfg, w) && Kept(w, db, e) && HostsOk(db) && ExecOk(cfg, db.hosts, e)
    ensures Inv(cfg, World(db, [e], w.closers))
  {
    KeptEnd(w, db, e);
    KeptFinal(cfg, w, db, e);
  }

  /** The executor ends the run with a summary of rows that are all terminal. */
  lemma LeaveInv(cfg: Config, w: World, status: RunStatus, ending: Ending, db: Db, e: Executor)
    requires |w.executors| == 1 && Inv(cfg, w) && w.db.run.status == Active
    requires Ended(status) && ending != NotByExecutor && AllTerminal(w.db.hosts)
    requires ending == ByFailure ==> status == RunFailed
    requires ending.ByHosts? ==>
      FailuresBounded(cfg, w.db.hosts) && StatusTells(cfg, status, ending, w.db.hosts) && RowsTell(w.db.hosts, w.executors[0].tasks)
    requires db == Leave(w.db, status).(run := Leave(w.db, status).run.(summary := Some(SummaryOf(w.db.hosts))), ending := ending)
    requires e == w.executors[0].(phase := Announcing(SummaryOf(w.db.hosts)))
    ensures Inv(cfg, World(db, [e], w.closers))
  {
    assert w.closers == [];
    assert ExecOk(cfg, w.db.hosts, w.executors[0]);
    assert ExecOk(cfg, db.hosts, e);
  }

  lemma {:induction false} RowsBounded(hosts: seq<HostStatus>, tasks: seq<Task>)
    requires |hosts| == |tasks| && RowsTell(hosts, tasks)
    ensures Number(tasks, FailedOnes) <= Times(hosts, Failed) + Times(hosts, TimedOut) <= Number(tasks, FailedOnes) + Number(tasks, Unsettled)
  {
    if hosts != [] {
      RowsBounded(hosts[..|hosts| - 1], tasks[..|tasks| - 1]);
      assert Tells(hosts[|hosts| - 1], tasks[|tasks| - 1]);
    }
  }

  lemma {:induction false} AllOf(hosts: seq<HostStatus>, s: HostStatus)
    ensures Times(hosts, s) <= |hosts|
    ensures Times(hosts, s) == |hosts| <==> forall h :: 0 <= h < |hosts| ==> hosts[h] == s
  {
    if hosts != [] {
      AllOf(hosts[..|hosts| - 1], s);
      assert forall h :: 0 <= h < |hosts| - 1 ==> hosts[..|hosts| - 1][h] == hosts[h];
    }
  }

  lemma FinalStatusTells(cfg: Config, e: Executor, hosts: seq<HostStatus>)
    requires e.stopped <==> TooManyFailed(cfg, hosts)
    ensures StatusTells(cfg, FinalStatus(e, SummaryOf(hosts)), ByHosts(e.shutdown, e.cancelled), hosts)
    ensures Ended(FinalStatus(e, SummaryOf(hosts)))
  {
    AllOf(hosts, Succeeded);
    NoneOf(hosts, Succeeded);
    NoneOf(hosts, Failed);
    NoneOf(hosts, TimedOut);
  }

  /** When all tasks are done the executor has counted just the failed rows. */
  lemma StoppedIff(cfg: Config, hosts: seq<HostStatus>, e: Executor)
    requires PoolOk(cfg, e) && RowsTell(hosts, e.tasks) && |hosts| == |e.tasks| && AllDone(e.tasks)
    ensures e.stopped <==> TooManyFailed(cfg, hosts)
    ensures FailuresBounded(cfg, hosts)
  {
    RowsBounded(hosts, e.tasks);
    NoneWorking(e.tasks, Unsettled);
  }

  /** The executor ends the run: what it read is still what the rows say. */
  lemma DecideKeepsInv(cfg: Config, w: World)
    requires Inv(cfg, w) && |w.executors| == 1
    ensures var (db, e) := DecideStep(w.db, w.executors[0]); Inv(cfg, World(db, [e], w.closers))
  {
    var e0, hosts := w.executors[0], w.db.hosts;
    var (db, e) := DecideStep(w.db, e0);
    if e0.phase.Deciding? && OwnedBy(w.db.run, e0.holder) {
      DecidesRightly(cfg, w);
      LeaveInv(cfg, w, FinalStatus(e0, SummaryOf(hosts)), ByHosts(e0.shutdown, e0.cancelled), db, e);
    } else {
      assert ExecOk(cfg, hosts, e0);
      KeptInv(cfg, w, db, e);
    }
  }

  lemma DecidesRightly(cfg: Config, w: World)
    requires Inv(cfg, w) && |w.executors| == 1 && w.executors[0].phase.Deciding? && w.db.run.status == Active
    ensures var e, hosts := w.executors[0], w.db.hosts;
      && e.phase.read == hosts && AllTerminal(hosts) && RowsTell(hosts, e.tasks) && FailuresBounded(cfg, hosts)
      && Ended(FinalStatus(e, SummaryOf(hosts)))
      && StatusTells(cfg, FinalStatus(e, SummaryOf(hosts)), ByHosts(e.shutdown, e.cancelled), hosts)
  {
    var e, hosts := w.executors[0], w.db.hosts;
    assert w.closers == [];
    assert ExecOk(cfg, hosts, e);
    StoppedIff(cfg, hosts, e);
    FinalStatusTells(cfg, e, hosts);
  }

  /** `failWholeRun` ends the run, whatever tasks are left: its update has made every row terminal. */
  lemma FailDecideKeepsInv(cfg: Config, w: World)
    requires Inv(cfg, w) && |w.executors| == 1
    ensures var (db, e) := FailDecideStep(w.db, w.executors[0]); Inv(cfg, World(db, [e], w.closers))
  {
    var e0 := w.executors[0];
    var (db, e) := FailDecideStep(w.db, e0);
    assert ExecOk(cfg, w.db.hosts, e0);
    if e0.phase.FailDeciding? && OwnedBy(w.db.run, e0.holder) {
      LeaveInv(cfg, w, RunFailed, ByFailure, db, e);
    } else {
      KeptInv(cfg, w, db, e);
    }
  }

  /** Reads, flags and phase changes leave the host rows and the tasks alone. */
  predicate IsQuiet(a: ExecAction) {
    a.Heartbeat? || a.SeeCancel? || a.SeeLost? || a.ShutDown? || a.Finish? || a.ReadHosts? || a.FailRead? || a.Fault? || a.Crash? || a.Announce?
  }

  lemma QuietStepFrame(cfg: Config, w: World, a: ExecAction)
    requires IsQuiet(a) && |w.executors| == 1 && RowsOk(w)
    ensures var (db, e) := ExecStep(cfg, w.db, w.executors[0], a);
      && Kept(w, db, e) && db.hosts == w.db.hosts && db.starts == w.db.starts
      && e.tasks == w.executors[0].tasks && e.stopped == w.executors[0].stopped && e.failures == w.executors[0].failures
  {}

  lemma QuietStepPhase(cfg: Config, db: Db, e: Executor, a: ExecAction)
    requires IsQuiet(a) && PhaseOk(db.hosts, e)
    ensures PhaseOk(db.hosts, ExecStep(cfg, db, e, a).1)
  {}

  lemma QuietStepKeepsInv(cfg: Config, w: World, a: ExecAction)
    requires Inv(cfg, w) && |w.executors| == 1 && IsQuiet(a)
    ensures var (db, e) := ExecStep(cfg, w.db, w.executors[0], a); Inv(cfg, World(db, [e], w.closers))
  {
    var (db, e) := ExecStep(cfg, w.db, w.executors[0], a);
    QuietStepFrame(cfg, w, a);
    assert ExecOk(cfg, w.db.hosts, w.executors[0]);
    QuietStepPhase(cfg, w.db, w.executors[0], a);
    KeptInv(cfg, w, db, e);
  }

  lemma LoadKeepsInv(cfg: Config, w: World, decodable: bool)
    requires Inv(cfg, w) && |w.executors| == 1
    ensures Inv(cfg, World(w.db, [LoadStep(w.db, w.executors[0], decodable)], w.closers))
  {
    var e0 := w.executors[0];
    var e := LoadStep(w.db, e0, decodable);
    assert ExecOk(cfg, w.db.hosts, e0);
    if e.phase == Working && e0.phase == Loading {
      NewTasksFit(cfg, w.db.hosts, e);
    }
    KeptInv(cfg, w, w.db, e);
  }

  lemma BeginKeepsExec(cfg: Config, hosts: seq<HostStatus>, e: Executor, h: nat)
    requires ExecOk(cfg, hosts, e)
    ensures ExecOk(cfg, hosts, BeginStep(cfg, e, h))
    ensures RowsTell(hosts, e.tasks) ==> RowsTell(hosts, BeginStep(cfg, e, h).tasks)
  {
    BeginKeepsPool(cfg, e, h);
  }

  lemma BeginKeepsInv(cfg: Config, w: World, h: nat)
    requires Inv(cfg, w) && |w.executors| == 1
    ensures Inv(cfg, World(w.db, [BeginStep(cfg, w.executors[0], h)], w.closers))
  {
    assert ExecOk(cfg, w.db.hosts, w.executors[0]);
    BeginKeepsExec(cfg, w.db.hosts, w.executors[0], h);
    KeptInv(cfg, w, w.db, BeginStep(cfg, w.executors[0], h));
  }

  lemma ThrowKeepsExec(cfg: Config, hosts: seq<HostStatus>, e: Executor, h: nat)
    requires ExecOk(cfg, hosts, e)
    ensures ExecOk(cfg, hosts, ThrowStep(e, h))
    ensures Ongoing(ThrowStep(e, h).phase) ==> ThrowStep(e, h) == e
  {
    if ThrowStep(e, h) != e {
      MoveKeepsPool(cfg, e, h, Thrown);
    }
  }

  lemma ThrowKeepsInv(cfg: Config, w: World, h: nat)
    requires Inv(cfg, w) && |w.executors| == 1
    ensures Inv(cfg, World(w.db, [ThrowStep(w.executors[0], h)], w.closers))
  {
    assert ExecOk(cfg, w.db.hosts, w.executors[0]);
    ThrowKeepsExec(cfg, w.db.hosts, w.executors[0], h);
    KeptInv(cfg, w, w.db, ThrowStep(w.executors[0], h));
  }

  lemma FailHostsKeepsInv(cfg: Config, w: World)
    requires Inv(cfg, w) && |w.executors| == 1 && w.executors[0].phase == FailingHosts
    ensures Inv(cfg, World(w.db.(hosts := Retire(w.db.hosts, {Pending, Running}, Failed)), [w.executors[0].(phase := FailReading)], w.closers))
  {
    var e0, hosts := w.executors[0], Retire(w.db.hosts, {Pending, Running}, Failed);
    assert ExecOk(cfg, w.db.hosts, e0);
    assert Quiet(w.db.hosts, hosts) && AllTerminal(hosts);
    QuietKeepsExec(cfg, w.db.hosts, hosts, e0);
    KeptInv(cfg, w, w.db.(hosts := hosts), e0.(phase := FailReading));
  }

  /** The statement of one task: its row and its progress move together. */
  lemma TaskFits(row: HostStatus, t: Task, outcome: Outcome)
    requires Fits(row, t)
    ensures Fits(RowAfter(row, t), TaskAfter(row, t, outcome))
    ensures Terminal(row) ==> RowAfter(row, t) == row
    ensures row != Pending ==> RowAfter(row, t) != Pending
    ensures Tells(row, t) && !t.Counting? ==> Tells(RowAfter(row, t), TaskAfter(row, t, outcome))
  {}

  lemma StatementRows(db: Db, tasks: seq<Task>, h: nat, outcome: Outcome)
    requires RowsFit(db.hosts, tasks) && h < |tasks| && !tasks[h].Counting?
    ensures var row, t := db.hosts[h], tasks[h];
      var hosts, tasks' := db.hosts[h := RowAfter(row, t)], tasks[h := TaskAfter(row, t, outcome)];
      && RowsFit(hosts, tasks') && Forward(db.hosts, hosts)
      && (RowsTell(db.hosts, tasks) ==> RowsTell(hosts, tasks'))
      && (NoneThrown(tasks) ==> NoneThrown(tasks'))
  {
    TaskFits(db.hosts[h], tasks[h], outcome);
  }

  lemma StatementKeepsInv(cfg: Config, w: World, h: nat, outcome: Outcome)
    requires Inv(cfg, w) && |w.executors| == 1
    requires TasksMove(w.executors[0], h) && !w.executors[0].tasks[h].Counting?
    ensures var (db, e) := AdvanceStep(cfg, w.db, w.executors[0], h, outcome); Inv(cfg, World(db, [e], w.closers))
  {
    var e0 := w.executors[0];
    assert ExecOk(cfg, w.db.hosts, e0);
    var row, t := w.db.hosts[h], e0.tasks[h];
    var (db, e) := AdvanceStep(cfg, w.db, e0, h, outcome);
    StatementRows(w.db, e0.tasks, h, outcome);
    MoveKeepsPool(cfg, e0, h, TaskAfter(row, t, outcome));
    StatementPhase(cfg, w.db, e0, h, outcome);
    StatementStarts(cfg, w.db, e0, h, outcome);
    KeptInv(cfg, w, db, e);
  }

  lemma StatementPhase(cfg: Config, db: Db, e: Executor, h: nat, outcome: Outcome)
    requires ExecOk(cfg, db.hosts, e) && TasksMove(e, h) && !e.tasks[h].Counting?
    ensures var (db', e') := AdvanceStep(cfg, db, e, h, outcome); PhaseOk(db'.hosts, e')
  {
    StatementRows(db, e.tasks, h, outcome);
    var (db', e') := AdvanceStep(cfg, db, e, h, outcome);
    if AllTerminal(db.hosts) { TerminalStays(db.hosts, db'.hosts); }
    if AllDone(e.tasks) { assert e.tasks[h].Done? && e'.tasks == e.tasks; }
  }

  lemma StatementStarts(cfg: Config, db: Db, e: Executor, h: nat, outcome: Outcome)
    requires HostsOk(db) && RowsFit(db.hosts, e.tasks) && TasksMove(e, h)
    ensures HostsOk(AdvanceStep(cfg, db, e, h, outcome).0)
  {}

  lemma CountedKeepsExec(cfg: Config, hosts: seq<HostStatus>, e: Executor, h: nat)
    requires ExecOk(cfg, hosts, e) && h < |e.tasks| && e.tasks[h].Counting?
    ensures var e' := Counted(cfg, e, h, e.tasks[h].outcome);
      ExecOk(cfg, hosts, e') && (RowsTell(hosts, e.tasks) ==> RowsTell(hosts, e'.tasks))
  {
    CountedKeepsPool(cfg, e, h);
    CountedRows(hosts, e.tasks, h);
  }

  lemma CountKeepsInv(cfg: Config, w: World, h: nat)
    requires Inv(cfg, w) && |w.executors| == 1
    requires TasksMove(w.executors[0], h) && w.executors[0].tasks[h].Counting?
    ensures Inv(cfg, World(w.db, [Counted(cfg, w.executors[0], h, w.executors[0].tasks[h].outcome)], w.closers))
  {
    var e0 := w.executors[0];
    assert ExecOk(cfg, w.db.hosts, e0);
    CountedKeepsExec(cfg, w.db.hosts, e0, h);
    KeptInv(cfg, w, w.db, Counted(cfg, e0, h, e0.tasks[h].outcome));
  }

  lemma CountedRows(hosts: seq<HostStatus>, tasks: seq<Task>, h: nat)
    requires RowsFit(hosts, tasks) && h < |tasks| && tasks[h].Counting?
    ensures var tasks' := tasks[h := Done(Some(tasks[h].outcome))];
      && RowsFit(hosts, tasks')
      && (RowsTell(hosts, tasks) ==> RowsTell(hosts, tasks'))
      && (NoneThrown(tasks) ==> NoneThrown(tasks'))
  {
    assert Fits(hosts[h], tasks[h]);
  }

  lemma AdvanceKeepsInv(cfg: Config, w: World, h: nat, outcome: Outcome)
    requires Inv(cfg, w) && |w.executors| == 1
    ensures var (db, e) := AdvanceStep(cfg, w.db, w.executors[0], h, outcome); Inv(cfg, World(db, [e], w.closers))
  {
    var e0 := w.executors[0];
    assert ExecOk(cfg, w.db.hosts, e0);
    assert w.executors == [e0] && w == World(w.db, [e0], w.closers);
    if TasksMove(e0, h) {
      if e0.tasks[h].Counting? { CountKeepsInv(cfg, w, h); } else { StatementKeepsInv(cfg, w, h, outcome); }
    }
  }

  lemma OnlyExecutorInv(cfg: Config, w: World, a: ExecAction)
    requires Inv(cfg, w) && |w.executors| == 1
    ensures var (db, e) := ExecStep(cfg, w.db, w.executors[0], a); Inv(cfg, World(db, [e], w.closers))
  {
    match a
    case Decide => DecideKeepsInv(cfg, w);
    case FailDecide => FailDecideKeepsInv(cfg, w);
    case Load(decodable) => LoadKeepsInv(cfg, w, decodable);
    case Begin(h) => BeginKeepsInv(cfg, w, h);
    case Advance(h, outcome) => AdvanceKeepsInv(cfg, w, h, outcome);
    case Throw(h) => ThrowKeepsInv(cfg, w, h);
    case FailHosts =>
      if w.executors[0].phase == FailingHosts { FailHostsKeepsInv(cfg, w); } else { assert w == World(w.db, [w.executors[0]], w.closers); }
    case _ => QuietStepKeepsInv(cfg, w, a);
  }

  lemma ExecKeepsInv(cfg: Config, w: World, i: nat, a: ExecAction)
    requires Inv(cfg, w) && i < |w.executors|
    ensures Inv(cfg, Step(cfg, w, Exec(i, a)))
  {
    var (db, e) := ExecStep(cfg, w.db, w.executors[i], a);
    OnlyExecutorInv(cfg, w, a);
    assert i == 0 && w.executors[i := e] == [e];
  }

  lemma StepKeepsInv(cfg: Config, w: World, a: Action)
    requires Inv(cfg, w)
    ensures Inv(cfg, Step(cfg, w, a))
  {
    match a
    case Exec(i, step) => if i < |w.executors| { ExecKeepsInv(cfg, w, i, step); }
    case Clean(j) => if j < |w.closers| { CleanKeepsInv(cfg, w, j); }
    case CleanerCrash(j) => CrashKeepsInv(cfg, w, j);
    case Claim(holder, now) => if w.db.run.status == Queued { ClaimKeepsInv(cfg, w, holder, now); }
    case Reap(cutoff) => if w.db.run.status == Active { CloserStartsInv(cfg, w, true); }
    case FailOwn(holder) => if w.db.run.status == Active { CloserStartsInv(cfg, w, false); }
    case DropPending(to) => QuietKeepsInv(cfg, w, Retire(w.db.hosts, {Pending}, to));
    case Approve => RouteKeepsInv(cfg, w, a);
    case EndWaiting(_) => RouteKeepsInv(cfg, w, a);
    case RequestCancel => RouteKeepsInv(cfg, w, a);
  }

  lemma CrashKeepsInv(cfg: Config, w: World, j: nat)
    requires Inv(cfg, w)
    ensures Inv(cfg, Step(cfg, w, CleanerCrash(j)))
  {}

  /** The routes that touch the run row only. */
  lemma RouteKeepsInv(cfg: Config, w: World, a: Action)
    requires Inv(cfg, w) && (a.Approve? || a.EndWaiting? || a.RequestCancel?)
    ensures Inv(cfg, Step(cfg, w, a))
  {}

  lemma StartKeepsInv(cfg: Config, hosts: nat, approved: bool)
    ensures Inv(cfg, StartWorld(hosts, approved))
  {}

  lemma {:induction false} RunKeepsInv(cfg: Config, hosts: nat, approved: bool, acts: seq<Action>)
    ensures Inv(cfg, Run(cfg, StartWorld(hosts, approved), acts))
  {
    if acts == [] {
      StartKeepsInv(cfg, hosts, approved);
    } else {
      RunKeepsInv(cfg, hosts, approved, acts[..|acts| - 1]);
      StepKeepsInv(cfg, Run(cfg, StartWorld(hosts, approved), acts[..|acts| - 1]), acts[|acts| - 1]);
    }
  }

  // ---- The main results ---------------------------------------------------------------------------

  /** Over every interleaving the run becomes active at most once and leaves at most once, its
      end is announced at most once, and no host is started twice. */
  lemma AtMostOnce(cfg: Config, hosts: nat, approved: bool, acts: seq<Action>)
    ensures var w := Run(cfg, StartWorld(hosts, approved), acts);
      && w.db.announced <= w.db.left <= w.db.entered <= 1
      && |w.db.starts| == |w.db.hosts|
      && forall h :: 0 <= h < |w.db.starts| ==> w.db.starts[h] <= 1
  {
    RunKeepsInv(cfg, hosts, approved, acts);
  }

  /** When the executor itself ended the run, through its hosts or because one of its statements
      failed while tasks were still at work, every host row is terminal, the stored summary is
      that of the rows, and the status fits them; and when it was through its hosts, no more
      of them failed than the failure limit and the concurrency allow. */
  lemma EndedByItsExecutor(cfg: Config, hosts: nat, approved: bool, acts: seq<Action>)
    requires Run(cfg, StartWorld(hosts, approved), acts).db.ending != NotByExecutor
    ensures var db := Run(cfg, StartWorld(hosts, approved), acts).db;
      && AllTerminal(db.hosts)
      && db.run.summary == Some(SummaryOf(db.hosts))
      && (db.ending == ByFailure ==> db.run.status == RunFailed)
      && (db.ending.ByHosts? ==> StatusTells(cfg, db.run.status, db.ending, db.hosts))
      && (db.ending.ByHosts? && cfg.maxFailures.Some? ==>
            var m, c := cfg.maxFailures.value, cfg.concurrency;
            db.run.summary.value.failed + db.run.summary.value.timedOut <= (if m >= 1 then m - 1 else 0) + (if c >= 1 then c else 1))
  {
    RunKeepsInv(cfg, hosts, approved, acts);
    var db := Run(cfg, StartWorld(hosts, approved), acts).db;
    NoneOf(db.hosts, Pending);
    NoneOf(db.hosts, Running);
  }

  // ---- What a reaper's summary is worth --------------------------------------------------------------

  /** A row read as running counts as failed, so the counts stay right as long as no such row ends
      otherwise than failed. */
  lemma {:induction false} SummariesAgreeIff(read: seq<HostStatus>, now: seq<HostStatus>)
    requires Forward(read, now) && Pending !in read
    ensures SummaryOf(now).failed <= SummaryOf(read).failed
    ensures SummaryOf(now) == SummaryOf(read) <==>
      forall h :: 0 <= h < |read| && read[h] == Running ==> now[h] == Running || now[h] == Failed
  {
    if read != [] {
      var r, n := read[..|read| - 1], now[..|now| - 1];
      assert forall s :: s in r ==> s in read;
      assert forall h :: 0 <= h < |r| ==> r[h] == read[h] && n[h] == now[h];
      assert read[|read| - 1] in read;
      SummariesAgreeIff(r, n);
    }
  }

  /** The executor started this host after the closer's first update and before its second, and was
      still at work on it when the closer read the rows. */
  predicate StartedMeanwhile(c: Closer, h: nat) {
    && |c.seen| == 3 && h < |c.seen[0]| && h < |c.seen[1]| && h < |c.seen[2]|
    && c.seen[0][h] == Pending && c.seen[1][h] == Running && c.seen[2][h] == Running
  }

  /** Only such hosts are read as running. */
  lemma ReadAsRunning(hosts: seq<HostStatus>, c: Closer, h: nat)
    requires SeenOk(hosts, c) && |c.seen| == 3 && h < |c.seen[2]|
    ensures c.seen[2][h] == Running <==> StartedMeanwhile(c, h)
  {}

  /** In every reachable world: the summary stored for a run that a reaper or a shutdown ended is
      that of the rows it read, and it is that of the rows as they are now exactly when every host
      that the executor had started meanwhile has failed or still runs. */
  lemma ReapedSummaryHoldsIff(cfg: Config, hosts: nat, approved: bool, acts: seq<Action>)
    requires var w := Run(cfg, StartWorld(hosts, approved), acts); w.closers != [] && w.db.run.summary.Some?
    ensures var w := Run(cfg, StartWorld(hosts, approved), acts);
      var c, rows, summary := w.closers[0], w.db.hosts, w.db.run.summary.value;
      && w.db.run.status == RunFailed && |w.closers| == 1
      && |c.seen| == 3 && summary == SummaryOf(c.seen[2])
      && (summary == SummaryOf(rows) <==>
            forall h :: 0 <= h < |rows| && StartedMeanwhile(c, h) ==> rows[h] == Running || rows[h] == Failed)
  {
    RunKeepsInv(cfg, hosts, approved, acts);
    ClosedRunFailed(cfg, StartWorld(hosts, approved), acts);
    var w := Run(cfg, StartWorld(hosts, approved), acts);
    var c, rows := w.closers[0], w.db.hosts;
    assert SeenOk(rows, c) && LastSeen(c) == c.seen[2];
    ForwardTwice(c.seen[1], c.seen[2], rows);
    SummariesAgreeIff(c.seen[2], rows);
    forall h | 0 <= h < |rows|
      ensures c.seen[2][h] == Running <==> StartedMeanwhile(c, h)
    {
      ReadAsRunning(rows, c, h);
    }
  }

  predicate ClosedIsFailed(w: World) {
    w.closers != [] ==> w.db.run.status == RunFailed
  }

  lemma StepKeepsClosed(cfg: Config, w: World, a: Action)
    requires ClosedIsFailed(w)
    ensures ClosedIsFailed(Step(cfg, w, a))
  {
    StepMovesForward(cfg, w, a);
  }

  lemma {:induction false} ClosedRunFailed(cfg: Config, start: World, acts: seq<Action>)
    requires start.closers == []
    ensures ClosedIsFailed(Run(cfg, start, acts))
  {
    if acts != [] {
      ClosedRunFailed(cfg, start, acts[..|acts| - 1]);
      StepKeepsClosed(cfg, Run(cfg, start, acts[..|acts| - 1]), acts[|acts| - 1]);
    }
  }

  lemma RunAppend(cfg: Config, start: World, acts: seq<Action>, a: Action)
    ensures Run(cfg, start, acts + [a]) == Step(cfg, Run(cfg, start, acts), a)
  {
    assert (acts + [a])[..|acts|] == acts;
  }

  ghost predicate Reachable(cfg: Config, hosts: nat, w: World) {
    exists acts :: Run(cfg, StartWorld(hosts, true), acts) == w
  }

  lemma ReachNext(cfg: Config, hosts: nat, w: World, a: Action)
    requires Reachable(cfg, hosts, w)
    ensures Reachable(cfg, hosts, Step(cfg, w, a))
  {
    var acts :| Run(cfg, StartWorld(hosts, true), acts) == w;
    RunAppend(cfg, StartWorld(hosts, true), acts, a);
  }

  /** One host whose executor has the given task; `closer` is the reaper's progress. */
  function OneHost(run: RunRow, host: HostStatus, starts: nat, left: nat, task: Task, closers: seq<Closer>): World {
    World(Db(run, [host], 1, left, 0, NotByExecutor, [starts]),
          [Executor(if run.claimedBy.Some? then run.claimedBy.value else 0, Working, [task], false, false, false, false, 0, false)],
          closers)
  }

  lemma AboutToStart(cfg: Config, holder: nat, now: int)
    ensures Reachable(cfg, 1, OneHost(RunRow(Active, Some(holder), now, false, None), Pending, 0, 0, Claiming, []))
  {
    var w0 := StartWorld(1, true);
    assert w0.db.hosts == [Pending] && w0.db.starts == [0];
    assert Run(cfg, w0, []) == w0;
    ReachNext(cfg, 1, w0, Claim(holder, now));
    var w1 := Step(cfg, w0, Claim(holder, now));
    assert w1.executors == [NewExecutor(holder)];
    ReachNext(cfg, 1, w1, Exec(0, Load(true)));
    var w2 := Step(cfg, w1, Exec(0, Load(true)));
    assert NewTasks(w1.db.hosts) == [Waiting];
    assert w2 == OneHost(RunRow(Active, Some(holder), now, false, None), Pending, 0, 0, Waiting, []);
    ReachNext(cfg, 1, w2, Exec(0, Begin(0)));
    Queue(cfg, w2.db.run, holder);
  }

  lemma Queue(cfg: Config, run: RunRow, holder: nat)
    requires run.claimedBy == Some(holder)
    ensures Step(cfg, OneHost(run, Pending, 0, 0, Waiting, []), Exec(0, Begin(0))) == OneHost(run, Pending, 0, 0, Claiming, [])
  {
    NoneWorking([Waiting], Occupying);
    assert [Waiting][0 := Claiming] == [Claiming];
  }

  lemma TaskMoves(cfg: Config, run: RunRow, host: HostStatus, starts: nat, task: Task, closers: seq<Closer>, outcome: Outcome)
    requires !task.Counting?
    ensures Step(cfg, OneHost(run, host, starts, 1, task, closers), Exec(0, Advance(0, outcome))) ==
      OneHost(run, RowAfter(host, task), if task.Claiming? && host == Pending then starts + 1 else starts, 1,
              TaskAfter(host, task, outcome), closers)
  {
    var w := OneHost(run, host, starts, 1, task, closers);
    var (db, e) := AdvanceStep(cfg, w.db, w.executors[0], 0, outcome);
    assert db.hosts == [RowAfter(host, task)] && e.tasks == [TaskAfter(host, task, outcome)];
    assert db.starts == [if task.Claiming? && host == Pending then starts + 1 else starts];
    assert w.executors[0 := e] == [e];
  }

  lemma ReaperMoves(cfg: Config, run: RunRow, host: HostStatus, starts: nat, task: Task, c: Closer)
    requires c.phase != Tell
    ensures var (db, c') := CloserStep(OneHost(run, host, starts, 1, task, []).db, c);
      |db.hosts| == 1 && Step(cfg, OneHost(run, host, starts, 1, task, [c]), Clean(0)) == OneHost(db.run, db.hosts[0], starts, 1, task, [c'])
  {
    var (db, c') := CloserStep(OneHost(run, host, starts, 1, task, []).db, c);
    assert db.hosts == [db.hosts[0]];
  }

  /** A reaper of a run with one host, with what it has seen of that host. */
  function Marked(phase: CloserPhase, seen: seq<HostStatus>): Closer {
    Closer(true, phase, seq(|seen|, k requires 0 <= k < |seen| => [seen[k]]))
  }

  lemma ReaperSees(cfg: Config, run: RunRow, host: HostStatus, starts: nat, task: Task, phase: CloserPhase, seen: seq<HostStatus>, next: CloserPhase)
    requires (phase == MarkRunning && next == MarkPending && host == Pending) || (phase == MarkPending && next == ReadRows && host == Running) || (phase == ReadRows && next == WriteSummary)
    ensures Step(cfg, OneHost(run, host, starts, 1, task, [Marked(phase, seen)]), Clean(0)) ==
      OneHost(run, host, starts, 1, task, [Marked(next, seen + [host])])
  {
    ReaperMoves(cfg, run, host, starts, task, Marked(phase, seen));
    assert CloserRows([host], Marked(phase, seen)) == [host];
    assert Marked(phase, seen).seen + [[host]] == Marked(next, seen + [host]).seen;
  }

  predicate SummaryIsWrong(db: Db) {
    db.run.status == RunFailed && (forall s :: s in db.hosts ==> Terminal(s)) && db.run.summary.Some? && db.run.summary.value != SummaryOf(db.hosts)
  }

  /** From the moment the executor is about to start its host and the reaper has made its first update. */
  lemma StartedBetweenUpdates(cfg: Config, run: RunRow)
    requires Reachable(cfg, 1, OneHost(run, Pending, 0, 1, Claiming, [Marked(MarkPending, [Pending])]))
    ensures Reachable(cfg, 1, OneHost(run, Running, 1, 1, Executing, [Marked(WriteSummary, [Pending, Running, Running])]))
  {
    TaskMoves(cfg, run, Pending, 0, Claiming, [Marked(MarkPending, [Pending])], Succeeded);
    ReachNext(cfg, 1, OneHost(run, Pending, 0, 1, Claiming, [Marked(MarkPending, [Pending])]), Exec(0, Advance(0, Succeeded)));
    ReaperSees(cfg, run, Running, 1, Executing, MarkPending, [Pending], ReadRows);
    ReachNext(cfg, 1, OneHost(run, Running, 1, 1, Executing, [Marked(MarkPending, [Pending])]), Clean(0));
    ReaperSees(cfg, run, Running, 1, Executing, ReadRows, [Pending] + [Running], WriteSummary);
    ReachNext(cfg, 1, OneHost(run, Running, 1, 1, Executing, [Marked(ReadRows, [Pending] + [Running])]), Clean(0));
    assert [Pending] + [Running] + [Running] == [Pending, Running, Running];
  }

  lemma SettlesAfterwards(cfg: Config, run: RunRow, closers: seq<Closer>)
    requires Reachable(cfg, 1, OneHost(run, Running, 1, 1, Executing, closers))
    ensures Reachable(cfg, 1, OneHost(run, Succeeded, 1, 1, Counting(Succeeded), closers))
  {
    TaskMoves(cfg, run, Running, 1, Executing, closers, Succeeded);
    ReachNext(cfg, 1, OneHost(run, Running, 1, 1, Executing, closers), Exec(0, Advance(0, Succeeded)));
    TaskMoves(cfg, run, Running, 1, Settling(Succeeded), closers, Succeeded);
    ReachNext(cfg, 1, OneHost(run, Running, 1, 1, Settling(Succeeded), closers), Exec(0, Advance(0, Succeeded)));
  }

  /** An executor that has not noticed the reaper starts a host between the reaper's two updates
      of the host rows; the host succeeds, and the stored summary says it failed. */
  lemma ReapedSummaryMayBeWrong(cfg: Config, holder: nat, now: int)
    ensures exists w :: Reachable(cfg, 1, w) && SummaryIsWrong(w.db)
  {
    var active := RunRow(Active, Some(holder), now, false, None);
    var run := active.(status := RunFailed);
    var final := run.(summary := Some(SummaryOf([Running])));
    AboutToStart(cfg, holder, now);
    ReachNext(cfg, 1, OneHost(active, Pending, 0, 0, Claiming, []), Reap(now + 1));
    assert NewCloser(true) == Marked(MarkRunning, []);
    ReaperSees(cfg, run, Pending, 0, Claiming, MarkRunning, [], MarkPending);
    ReachNext(cfg, 1, OneHost(run, Pending, 0, 1, Claiming, [Marked(MarkRunning, [])]), Clean(0));
    assert [] + [Pending] == [Pending];
    StartedBetweenUpdates(cfg, run);
    var c := Marked(WriteSummary, [Pending, Running, Running]);
    ReaperMoves(cfg, run, Running, 1, Executing, c);
    ReachNext(cfg, 1, OneHost(run, Running, 1, 1, Executing, [c]), Clean(0));
    SettlesAfterwards(cfg, final, [c.(phase := Tell)]);
    var w := OneHost(final, Succeeded, 1, 1, Counting(Succeeded), [c.(phase := Tell)]);
    SummariesAgreeIff([Running], [Succeeded]);
    assert Reachable(cfg, 1, w) && SummaryIsWrong(w.db);
  }

  // ---- A run that its executor fails with a host started ---------------------------------------------

  /** One host of an active run, and where its executor is. */
  function InPhase(holder: nat, now: int, host: HostStatus, starts: nat, task: Task, phase: Phase, caught: bool): World {
    World(Db(RunRow(Active, Some(holder), now, false, None), [host], 1, 0, 0, NotByExecutor, [starts]),
          [Executor(holder, phase, [task], false, false, false, false, 0, caught)], [])
  }

  lemma TaskMovesIn(cfg: Config, holder: nat, now: int, host: HostStatus, starts: nat, task: Task, outcome: Outcome)
    requires !task.Counting?
    ensures Step(cfg, InPhase(holder, now, host, starts, task, Working, false), Exec(0, Advance(0, outcome))) ==
      InPhase(holder, now, RowAfter(host, task), if task.Claiming? && host == Pending then starts + 1 else starts,
              TaskAfter(host, task, outcome), Working, false)
  {
    var w := InPhase(holder, now, host, starts, task, Working, false);
    var (db, e) := AdvanceStep(cfg, w.db, w.executors[0], 0, outcome);
    assert db.hosts == [RowAfter(host, task)] && e.tasks == [TaskAfter(host, task, outcome)];
    assert db.starts == [if task.Claiming? && host == Pending then starts + 1 else starts];
    assert w.executors[0 := e] == [e];
  }

  lemma ThrowsAndFails(cfg: Config, holder: nat, now: int)
    ensures var w := InPhase(holder, now, Running, 1, Settling(Succeeded), Working, false);
      var w1 := InPhase(holder, now, Running, 1, Thrown, FailingHosts, true);
      var w2 := InPhase(holder, now, Failed, 1, Thrown, FailReading, true);
      var w3 := InPhase(holder, now, Failed, 1, Thrown, FailDeciding([Failed]), true);
      && Step(cfg, w, Exec(0, Throw(0))) == w1
      && Step(cfg, w1, Exec(0, FailHosts)) == w2
      && Step(cfg, w2, Exec(0, FailRead)) == w3
  {
    assert [Settling(Succeeded)][0 := Thrown] == [Thrown];
    assert Retire([Running], {Pending, Running}, Failed) == [Failed];
  }

  predicate FailedByHandler(w: World) {
    && w.db.ending == ByFailure && w.db.run.status == RunFailed && w.db.starts == [1] && w.db.hosts == [Failed]
    && |w.executors| == 1 && w.executors[0].tasks == [Thrown]
  }

  lemma ScriptSucceeds(cfg: Config, holder: nat, now: int)
    ensures Reachable(cfg, 1, InPhase(holder, now, Running, 1, Settling(Succeeded), Working, false))
  {
    AboutToStart(cfg, holder, now);
    TaskMovesIn(cfg, holder, now, Pending, 0, Claiming, Succeeded);
    ReachNext(cfg, 1, InPhase(holder, now, Pending, 0, Claiming, Working, false), Exec(0, Advance(0, Succeeded)));
    TaskMovesIn(cfg, holder, now, Running, 1, Executing, Succeeded);
    ReachNext(cfg, 1, InPhase(holder, now, Running, 1, Executing, Working, false), Exec(0, Advance(0, Succeeded)));
  }

  lemma HandlerDecides(cfg: Config, holder: nat, now: int)
    ensures FailedByHandler(Step(cfg, InPhase(holder, now, Failed, 1, Thrown, FailDeciding([Failed]), true), Exec(0, FailDecide)))
  {}

  /** A script succeeds, the statement that should store its outcome fails, and the handler fails the
      run: its row says failed, and so does the summary. */
  lemma CrashFailsTheRun(cfg: Config, holder: nat, now: int)
    ensures exists w :: Reachable(cfg, 1, w) && FailedByHandler(w)
  {
    ScriptSucceeds(cfg, holder, now);
    ThrowsAndFails(cfg, holder, now);
    ReachNext(cfg, 1, InPhase(holder, now, Running, 1, Settling(Succeeded), Working, false), Exec(0, Throw(0)));
    ReachNext(cfg, 1, InPhase(holder, now, Running, 1, Thrown, FailingHosts, true), Exec(0, FailHosts));
    ReachNext(cfg, 1, InPhase(holder, now, Failed, 1, Thrown, FailReading, true), Exec(0, FailRead));
    ReachNext(cfg, 1, InPhase(holder, now, Failed, 1, Thrown, FailDeciding([Failed]), true), Exec(0, FailDecide));
    HandlerDecides(cfg, holder, now);
  }
}
