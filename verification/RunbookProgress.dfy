/** A run that a call owns can always be brought to an end by that call; what a failed statement, a
    heartbeat and a reaper do on the way. */
module RunbookProgress {
  import opened Options
  import opened RunbookProtocol
  import opened RunbookOutcomes

  // ---- A run can always be finished ---------------------------------------------------------------

  /** How many steps a task still needs at most. */
  function StepsLeft(t: Task): nat {
    match t
    case Waiting => 5
    case Dropping(_) => 1
    case Claiming => 4
    case Executing => 3
    case Settling(_) => 2
    case Counting(_) => 1
    case Done(_) => 0
    case Thrown => 0
  }

  function AllSteps(tasks: seq<Task>): nat {
    if tasks == [] then 0 else AllSteps(tasks[..|tasks| - 1]) + StepsLeft(tasks[|tasks| - 1])
  }

  lemma {:induction false} StepsUpdate(tasks: seq<Task>, h: nat, t: Task)
    requires h < |tasks|
    ensures AllSteps(tasks[h := t]) == AllSteps(tasks) - StepsLeft(tasks[h]) + StepsLeft(t)
  {
    var init, last := tasks[..|tasks| - 1], |tasks| - 1;
    if h == last {
      assert tasks[h := t][..last] == init;
    } else {
      StepsUpdate(init, h, t);
      assert tasks[h := t][..last] == init[h := t];
    }
  }

  /** The executor is at work on its hosts and the run is its own. */
  predicate AtWork(w: World) {
    |w.executors| == 1 && w.executors[0].phase == Working && OwnedBy(w.db.run, w.executors[0].holder)
  }

  /** As long as not all tasks are done, one of them can take its next step. */
  lemma SomeTaskMoves(cfg: Config, w: World) returns (a: Action)
    requires Inv(cfg, w) && AtWork(w) && !AllDone(w.executors[0].tasks)
    ensures a.Exec? && a.executor == 0 && AtWork(Step(cfg, w, a)) && Step(cfg, w, a).executors[0].lost == w.executors[0].lost
    ensures AllSteps(Step(cfg, w, a).executors[0].tasks) < AllSteps(w.executors[0].tasks)
  {
    var e := w.executors[0];
    assert ExecOk(cfg, w.db.hosts, e) && NoneThrown(e.tasks);
    if h: nat :| h < |e.tasks| && InSlot(e.tasks[h]) {
      a := Exec(0, Advance(h, Succeeded));
      AdvanceFrame(cfg, w.db, e, h, Succeeded);
      AdvanceLessens(cfg, w.db, e, h);
    } else {
      var h: nat :| h < |e.tasks| && !e.tasks[h].Done?;
      a := Exec(0, Begin(h));
      BeginLessens(cfg, e, h);
    }
  }

  lemma BeginLessens(cfg: Config, e: Executor, h: nat)
    requires TasksMove(e, h) && e.tasks[h].Waiting? && forall k :: 0 <= k < |e.tasks| ==> !InSlot(e.tasks[k])
    ensures var e' := BeginStep(cfg, e, h); e' == e.(tasks := e'.tasks) && AllSteps(e'.tasks) < AllSteps(e.tasks)
  {
    NoneWorking(e.tasks, Occupying);
    StepsUpdate(e.tasks, h, FirstMove(e));
  }

  lemma AdvanceLessens(cfg: Config, db: Db, e: Executor, h: nat)
    requires HostsOk(db) && RowsFit(db.hosts, e.tasks) && TasksMove(e, h) && InSlot(e.tasks[h])
    ensures AllSteps(AdvanceStep(cfg, db, e, h, Succeeded).1.tasks) < AllSteps(e.tasks)
  {
    var t := e.tasks[h];
    if t.Counting? {
      StepsUpdate(e.tasks, h, Done(Some(t.outcome)));
    } else {
      NextIsLess(db.hosts[h], t);
      StepsUpdate(e.tasks, h, TaskAfter(db.hosts[h], t, Succeeded));
    }
  }

  lemma NextIsLess(row: HostStatus, t: Task)
    requires InSlot(t) && !t.Counting?
    ensures StepsLeft(TaskAfter(row, t, Succeeded)) < StepsLeft(t)
  {}

  lemma RunOn(cfg: Config, w: World, a: Action, more: seq<Action>)
    ensures Run(cfg, w, [a] + more) == Run(cfg, Step(cfg, w, a), more)
    decreases |more|
  {
    var all := [a] + more;
    if more == [] {
      assert all[..|all| - 1] == [] && all[|all| - 1] == a;
    } else {
      var init := more[..|more| - 1];
      RunOn(cfg, w, a, init);
      assert all[..|all| - 1] == [a] + init && all[|all| - 1] == more[|more| - 1];
    }
  }

  ghost predicate AllItsOwn(acts: seq<Action>) {
    forall a :: a in acts ==> a.Exec? && a.executor == 0
  }

  /** The tasks can be finished. */
  lemma {:induction false} TasksFinish(cfg: Config, w: World) returns (more: seq<Action>)
    requires Inv(cfg, w) && AtWork(w)
    ensures AllItsOwn(more)
    ensures var w' := Run(cfg, w, more);
      Inv(cfg, w') && AtWork(w') && AllDone(w'.executors[0].tasks) && w'.executors[0].lost == w.executors[0].lost
    decreases AllSteps(w.executors[0].tasks)
  {
    more := [];
    if !AllDone(w.executors[0].tasks) {
      var a := SomeTaskMoves(cfg, w);
      StepKeepsInv(cfg, w, a);
      var rest := TasksFinish(cfg, Step(cfg, w, a));
      RunOn(cfg, w, a, rest);
      more := [a] + rest;
    }
  }

  lemma {:induction false} LostIsRight(cfg: Config, hosts: nat, approved: bool, acts: seq<Action>)
    ensures var w := Run(cfg, StartWorld(hosts, approved), acts);
      |w.executors| == 1 && w.executors[0].lost ==> !OwnedBy(w.db.run, w.executors[0].holder)
  {
    if acts != [] {
      var init, a := acts[..|acts| - 1], acts[|acts| - 1];
      LostIsRight(cfg, hosts, approved, init);
      RunKeepsInv(cfg, hosts, approved, init);
      var w := Run(cfg, StartWorld(hosts, approved), init);
      if a.Exec? && a.executor < |w.executors| {
        LostStays(cfg, w.db, w.executors[0], a.step);
        LostWhen(cfg, w.db, w.executors[0], a.step);
        OwnerStays(cfg, w.db, w.executors[0], a.step);
      }
    }
  }

  /** The call has still to end its run, and may. */
  predicate MayEndIt(w: World) {
    && |w.executors| == 1 && OwnedBy(w.db.run, w.executors[0].holder)
    && !w.executors[0].phase.Returned? && !w.executors[0].phase.Gone? && !w.executors[0].phase.Announcing?
  }

  /** From every reachable state in which a call owns its run and is still at it, steps of its own bring the
      run to an announced end: nothing it waits for can fail to come. A call whose tasks are through, or
      can still get there, ends it through its hosts, and one that is failing the run fails it. */
  lemma RunCanFinish(cfg: Config, hosts: nat, approved: bool, acts: seq<Action>) returns (more: seq<Action>)
    requires MayEndIt(Run(cfg, StartWorld(hosts, approved), acts))
    ensures AllItsOwn(more)
    ensures var w := Run(cfg, StartWorld(hosts, approved), acts);
      var db := Run(cfg, w, more).db;
      && db.announced == 1
      && (if Ongoing(w.executors[0].phase) then db.ending.ByHosts? else db.ending == ByFailure)
  {
    var w := Run(cfg, StartWorld(hosts, approved), acts);
    RunKeepsInv(cfg, hosts, approved, acts);
    LostIsRight(cfg, hosts, approved, acts);
    if w.executors[0].phase == Loading {
      var a := Exec(0, Load(true));
      StepKeepsInv(cfg, w, a);
      var rest := WorkFinishes(cfg, Step(cfg, w, a));
      RunOn(cfg, w, a, rest);
      more := [a] + rest;
    } else if w.executors[0].phase == Working {
      more := WorkFinishes(cfg, w);
    } else {
      more := CallFinishes(cfg, w);
    }
  }

  lemma WorkFinishes(cfg: Config, w: World) returns (more: seq<Action>)
    requires Inv(cfg, w) && AtWork(w) && !w.executors[0].lost
    ensures AllItsOwn(more) && Run(cfg, w, more).db.announced == 1 && Run(cfg, w, more).db.ending.ByHosts?
  {
    var first := TasksFinish(cfg, w);
    var done := Run(cfg, w, first);
    var a := Exec(0, Finish);
    StepKeepsInv(cfg, done, a);
    var rest := CallFinishes(cfg, Step(cfg, done, a));
    RunOn(cfg, done, a, rest);
    RunConcat(cfg, w, first, [a] + rest);
    more := first + ([a] + rest);
  }

  lemma {:induction false} RunConcat(cfg: Config, w: World, acts: seq<Action>, more: seq<Action>)
    ensures Run(cfg, w, acts + more) == Run(cfg, Run(cfg, w, acts), more)
    decreases |more|
  {
    var all := acts + more;
    if more == [] {
      assert all == acts;
    } else {
      var init := more[..|more| - 1];
      RunConcat(cfg, w, acts, init);
      assert all[..|all| - 1] == acts + init && all[|all| - 1] == more[|more| - 1];
    }
  }

  /** The next statement of a call that is past its hosts, or failing its run. */
  function NextCall(p: Phase): ExecAction {
    match p
    case Reading => ReadHosts
    case Deciding(_) => Decide
    case FailingHosts => FailHosts
    case FailReading => FailRead
    case FailDeciding(_) => FailDecide
    case _ => Announce
  }

  function CallsLeft(p: Phase): nat {
    match p
    case Reading => 3
    case Deciding(_) => 2
    case FailingHosts => 4
    case FailReading => 3
    case FailDeciding(_) => 2
    case Announcing(_) => 1
    case _ => 0
  }

  /** Past its hosts, owning the run or about to announce its end. */
  predicate Closing(w: World) {
    && |w.executors| == 1 && CallsLeft(w.executors[0].phase) > 0
    && (w.executors[0].phase.Announcing? || OwnedBy(w.db.run, w.executors[0].holder))
  }

  lemma NextCount(cfg: Config, db: Db, e: Executor)
    requires CallsLeft(e.phase) > 0 && (e.phase.Announcing? || OwnedBy(db.run, e.holder))
    ensures var e' := ExecStep(cfg, db, e, NextCall(e.phase)).1; CallsLeft(e'.phase) == CallsLeft(e.phase) - 1
  {}

  lemma NextOwner(cfg: Config, db: Db, e: Executor)
    ensures ExecStep(cfg, db, e, NextCall(e.phase)).1.holder == e.holder
  {}

  lemma NextKind(cfg: Config, db: Db, e: Executor)
    requires CallsLeft(e.phase) > 1 && !e.phase.Deciding? && !e.phase.FailDeciding?
    ensures var e' := ExecStep(cfg, db, e, NextCall(e.phase)).1; !e'.phase.Announcing? && Ongoing(e.phase) == Ongoing(e'.phase)
  {}

  lemma NextAnnounces(cfg: Config, db: Db, e: Executor)
    requires (e.phase.Deciding? || e.phase.FailDeciding?) && OwnedBy(db.run, e.holder)
    ensures ExecStep(cfg, db, e, NextCall(e.phase)).1.phase.Announcing?
  {}

  lemma NextRows(cfg: Config, db: Db, e: Executor)
    requires CallsLeft(e.phase) > 0 && !e.phase.Deciding? && !e.phase.FailDeciding?
    ensures var db' := ExecStep(cfg, db, e, NextCall(e.phase)).0;
      && db' == db.(hosts := db'.hosts, announced := db'.announced)
      && db'.announced == db.announced + if e.phase.Announcing? then 1 else 0
  {}

  lemma NextEnds(cfg: Config, db: Db, e: Executor)
    requires (e.phase.Deciding? || e.phase.FailDeciding?) && OwnedBy(db.run, e.holder)
    ensures var ending := ExecStep(cfg, db, e, NextCall(e.phase)).0.ending;
      if e.phase.Deciding? then ending.ByHosts? else ending == ByFailure
  {}

  lemma NextCallMoves(cfg: Config, w: World)
    requires Inv(cfg, w) && Closing(w)
    ensures var e := w.executors[0];
      var w' := Step(cfg, w, Exec(0, NextCall(e.phase)));
      var e' := w'.executors[0];
      && (e.phase.Announcing? ==> w'.db.announced == 1 && w'.db.ending == w.db.ending)
      && (!e.phase.Announcing? ==> Closing(w') && CallsLeft(e'.phase) < CallsLeft(e.phase))
      && (e'.phase.Announcing? ==> if Ongoing(e.phase) then w'.db.ending.ByHosts? else w'.db.ending == ByFailure)
      && (!e.phase.Announcing? && !e'.phase.Announcing? ==> Ongoing(e.phase) == Ongoing(e'.phase))
  {
    var e := w.executors[0];
    NextCount(cfg, w.db, e);
    NextOwner(cfg, w.db, e);
    if e.phase.Deciding? || e.phase.FailDeciding? {
      NextAnnounces(cfg, w.db, e);
      NextEnds(cfg, w.db, e);
    } else {
      if !e.phase.Announcing? { NextKind(cfg, w.db, e); }
      NextRows(cfg, w.db, e);
    }
    assert EndOk(w);
  }

  lemma {:induction false} CallFinishes(cfg: Config, w: World) returns (more: seq<Action>)
    requires Inv(cfg, w) && Closing(w)
    ensures AllItsOwn(more)
    ensures var db := Run(cfg, w, more).db;
      && db.announced == 1
      && (if w.executors[0].phase.Announcing? then db.ending == w.db.ending
          else if Ongoing(w.executors[0].phase) then db.ending.ByHosts? else db.ending == ByFailure)
    decreases CallsLeft(w.executors[0].phase)
  {
    var a := Exec(0, NextCall(w.executors[0].phase));
    NextCallMoves(cfg, w);
    StepKeepsInv(cfg, w, a);
    var rest: seq<Action> := [];
    if !w.executors[0].phase.Announcing? {
      rest := CallFinishes(cfg, Step(cfg, w, a));
    }
    RunOn(cfg, w, a, rest);
    more := [a] + rest;
  }

  /** A call that cannot read its parameters fails the run it owns, and starts nothing. */
  lemma UndecodableRunFails(cfg: Config, w: World)
    requires |w.executors| == 1 && w.executors[0].phase == Loading && OwnedBy(w.db.run, w.executors[0].holder)
    ensures Step(cfg, w, Exec(0, Load(false))) == w.(executors := [w.executors[0].(phase := FailingHosts)])
  {}

  /** A heartbeat of the owner stores its moment and nothing else, and one that finds the run lost tells the
      call so. */
  lemma BeatSays(cfg: Config, db: Db, e: Executor, now: int)
    requires e.phase != Gone
    ensures var (db', e') := ExecStep(cfg, db, e, Heartbeat(now));
      if OwnedBy(db.run, e.holder)
        then db' == db.(run := db.run.(heartbeatAt := now)) && e' == e
        else db' == db && e' == e.(lost := true)
  {}

  /** No reaper takes a run whose heartbeat is not older than its cutoff. */
  lemma BeatingRunIsNotReaped(cfg: Config, w: World, now: int, cutoff: int)
    requires |w.executors| == 1 && OwnedBy(w.db.run, w.executors[0].holder) && w.executors[0].phase != Gone && cutoff <= now
    ensures var beaten := Step(cfg, w, Exec(0, Heartbeat(now))); Step(cfg, beaten, Reap(cutoff)) == beaten
  {
    BeatSays(cfg, w.db, w.executors[0], now);
  }

  /** A call that looks at its run learns that it is no longer its own, and, once its tasks are through, gives up. */
  lemma LostCallGivesUp(cfg: Config, w: World)
    requires |w.executors| == 1 && w.executors[0].phase == Working && AllDone(w.executors[0].tasks)
    requires !OwnedBy(w.db.run, w.executors[0].holder)
    ensures Step(cfg, Step(cfg, w, Exec(0, SeeLost)), Exec(0, Finish)) ==
      w.(executors := [w.executors[0].(lost := true, phase := Returned)])
  {}

  /** A call that has decided, or is failing its run, and finds that it is no longer its own changes nothing
      and announces nothing. */
  lemma DecisionNeedsTheRun(cfg: Config, db: Db, e: Executor)
    requires (e.phase.Deciding? || e.phase.FailDeciding?) && !OwnedBy(db.run, e.holder)
    ensures ExecStep(cfg, db, e, NextCall(e.phase)) == (db, e.(phase := Returned))
  {}

  /** A failed statement of the call has the handler fail the run, and a second one ends the call. */
  lemma FaultsAreHandledOnce(e: Executor)
    requires !e.phase.Working? && !e.phase.Returned? && !e.phase.Gone?
    ensures !e.caught ==> FaultStep(e) == e.(phase := FailingHosts, caught := true)
    ensures var after := if e.caught then FaultStep(e) else FaultStep(FaultStep(e)); after == e.(phase := Returned, caught := true)
  {}

  /** A failed statement of a task frees its slot and leaves the other tasks alone; while the call waits for
      its tasks it has the handler fail the run. */
  lemma ThrowFreesSlot(e: Executor, h: nat)
    requires TasksMove(e, h) && (e.tasks[h].Dropping? || e.tasks[h].Claiming? || e.tasks[h].Settling?)
    ensures var e' := ThrowStep(e, h);
      && Number(e'.tasks, Occupying) == Number(e.tasks, Occupying) - 1
      && e'.tasks == e.tasks[h := Thrown]
      && (if e.phase == Working then e'.phase == FailingHosts && e'.caught else e'.phase == e.phase && e'.caught == e.caught)
  {
    NumberUpdate(e.tasks, h, Thrown, Occupying);
  }

  /** A process that is gone does nothing more. */
  lemma GoneIsGone(cfg: Config, db: Db, e: Executor, a: ExecAction)
    requires e.phase == Gone
    ensures var (db', e') := ExecStep(cfg, db, e, a); db' == db && e'.phase == Gone && e'.tasks == e.tasks
  {}

  /** The rows once running hosts have failed and pending ones been skipped. */
  ghost predicate GivenUp(before: seq<HostStatus>, after: seq<HostStatus>) {
    && |after| == |before|
    && forall h :: 0 <= h < |before| ==>
         after[h] == if before[h] == Running then Failed else if before[h] == Pending then Skipped else before[h]
  }

  /** A closer's statements one after the other. */
  function Closed(db: Db, c: Closer, n: nat): (Db, Closer) {
    if n == 0 then (db, c)
    else
      var (db', c') := Closed(db, c, n - 1);
      CloserStep(db', c')
  }

  lemma ClosedRows(db: Db, announces: bool, n: nat)
    requires n == 2
    ensures var (db2, c2) := Closed(db, NewCloser(announces), n);
      && GivenUp(db.hosts, db2.hosts) && db2 == db.(hosts := db2.hosts)
      && c2.phase == ReadRows && c2.announces == announces
  {
    var c := NewCloser(announces);
    assert Closed(db, c, n - 2) == (db, c);
    assert Closed(db, c, n - 1) == CloserStep(db, c);
  }

  lemma ClosedEnd(db: Db, c: Closer, n: nat)
    requires c.phase == ReadRows && n == 3
    ensures var db' := Closed(db, c, n).0;
      db' == db.(run := db.run.(summary := Some(SummaryOf(db.hosts))), announced := db.announced + if c.announces then 1 else 0)
  {
    assert Closed(db, c, n - 3) == (db, c);
    var (db1, c1) := Closed(db, c, n - 2);
    assert (db1, c1) == CloserStep(db, c);
    var (db2, c2) := Closed(db, c, n - 1);
    assert (db2, c2) == CloserStep(db1, c1);
  }

  lemma {:induction false} CleansAlone(cfg: Config, w: World, db: Db, c: Closer, cleans: seq<Action>)
    requires w.closers == [c] && w.db == db && forall a :: a in cleans ==> a == Clean(0)
    ensures var (db', c') := Closed(db, c, |cleans|); Run(cfg, w, cleans) == World(db', w.executors, [c'])
    decreases |cleans|
  {
    if cleans != [] {
      var init := cleans[..|cleans| - 1];
      assert cleans[|cleans| - 1] in cleans && forall a :: a in init ==> a in cleans;
      CleansAlone(cfg, w, db, c, init);
      var (db', c') := Closed(db, c, |init|);
      CleanAlone(cfg, db', w.executors, c');
    }
  }

  /** A reaper, or a shutdown, that nobody interferes with: the run has failed, its running hosts too, its
      pending ones are skipped, every other row stays, the summary is that of these rows, and only a
      reaper announces the end. */
  lemma ReapedInOneGo(cfg: Config, w: World, a: Action, two: seq<Action>, three: seq<Action>)
    requires w.closers == [] && w.db.run.status == Active
    requires match a
      case Reap(cutoff) => w.db.run.heartbeatAt < cutoff
      case FailOwn(holder) => w.db.run.claimedBy == Some(holder)
      case _ => false
    requires |two| == 2 && |three| == 3 && forall b :: b in two + three ==> b == Clean(0)
    ensures var db := Run(cfg, Run(cfg, Step(cfg, w, a), two), three).db;
      && db.run.status == RunFailed && db.left == w.db.left + 1 && db.starts == w.db.starts
      && GivenUp(w.db.hosts, db.hosts)
      && db.run.summary == Some(SummaryOf(db.hosts))
      && db.announced == w.db.announced + if a.Reap? then 1 else 0
  {
    var c, db := NewCloser(a.Reap?), Leave(w.db, RunFailed);
    assert Step(cfg, w, a) == World(db, w.executors, [c]);
    assert forall b :: b in two || b in three ==> b in two + three;
    CleansAlone(cfg, Step(cfg, w, a), db, c, two);
    ClosedRows(db, a.Reap?, |two|);
    var (db2, c2) := Closed(db, c, |two|);
    CleansAlone(cfg, Run(cfg, Step(cfg, w, a), two), db2, c2, three);
    ClosedEnd(db2, c2, |three|);
  }

  lemma CleanAlone(cfg: Config, db: Db, executors: seq<Executor>, c: Closer)
    ensures var (db', c') := CloserStep(db, c); Step(cfg, World(db, executors, [c]), Clean(0)) == World(db', executors, [c'])
  {
    var (db', c') := CloserStep(db, c);
    assert [c][0 := c'] == [c'];
  }
}
