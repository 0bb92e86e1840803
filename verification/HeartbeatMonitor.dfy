/** The heartbeat state machine. A ping is applied under the row's lock; the sweep reads
    overdue rows first and applies each transition later, by compare-and-set. An alert is
    one entry in a log, written at the edge that raises it. */
module HeartbeatMonitor {
  import opened Options
  import opened HeartbeatSchedule

  datatype Status = New | Up | Late | Down | Paused

  datatype PingKind = Start | Success | Fail | LogLine

  datatype Row = Row(status: Status, notifyOnLate: bool, resumeOnPing: bool, fields: Fields,
                     expectedAt: Option<int>, alertAt: Option<int>,
                     lastPingAt: Option<int>, lastStartAt: Option<int>, lastSuccessAt: Option<int>, lastFailureAt: Option<int>,
                     lastDurationMs: Option<int>, lastExitCode: Option<int>)

  datatype Reason = ExitCode | FailSignal | Missed | NeverPinged | RuntimeExceeded

  datatype Alert = FailAlert(reason: Reason) | LateAlert | RecoverAlert

  const MAX_INT := 2_147_483_647

  function LastCompletionAt(hb: Row): Option<int> {
    match (hb.lastSuccessAt, hb.lastFailureAt)
    case (None, f) => f
    case (s, None) => s
    case (Some(s), Some(f)) => Some(if s > f then s else f)
  }

  /** A start not yet followed by a completion. */
  predicate InFlight(hb: Row) {
    hb.lastStartAt.Some? && (LastCompletionAt(hb).None? || hb.lastStartAt.value > LastCompletionAt(hb).value)
  }

  // ---- Pings --------------------------------------------------------------------------

  predicate Resumes(hb: Row, kind: PingKind) {
    hb.status.Paused? && hb.resumeOnPing && !kind.LogLine?
  }

  /** The status the ping is judged against. */
  function StatusBefore(hb: Row, kind: PingKind): Status {
    if Resumes(hb, kind) then New else hb.status
  }

  function StatusAfter(hb: Row, kind: PingKind): Status {
    var status := StatusBefore(hb, kind);
    if status.Paused? then Paused
    else match kind
      case Success => Up
      case Fail => Down
      case _ => status
  }

  function PingAlerts(hb: Row, kind: PingKind, exitCode: Option<int>): seq<Alert> {
    var status := StatusBefore(hb, kind);
    if status.Paused? then []
    else if kind.Success? && (status.Down? || (status.Late? && hb.notifyOnLate)) then [RecoverAlert]
    else if kind.Fail? && !status.Down? then [FailAlert(if exitCode.Some? then ExitCode else FailSignal)]
    else []
  }

  function PingDeadlines(hb: Row, kind: PingKind, now: int): Deadlines {
    var current := Deadlines(hb.expectedAt, hb.alertAt);
    if StatusBefore(hb, kind).Paused? || kind.LogLine? then current
    else if kind.Start? then ComputeAfterStart(hb.fields, now, if Resumes(hb, kind) then Deadlines(None, None) else current)
    else ComputeAfterPing(hb.fields, now)
  }

  function PingDuration(hb: Row, kind: PingKind, now: int): Option<int> {
    if (kind.Success? || kind.Fail?) && InFlight(hb) && 0 <= now - hb.lastStartAt.value <= MAX_INT
    then Some(now - hb.lastStartAt.value) else None
  }

  function AfterPing(hb: Row, kind: PingKind, now: int, exitCode: Option<int>): Row {
    var d := PingDeadlines(hb, kind, now);
    var completes := kind.Success? || kind.Fail?;
    hb.(status := StatusAfter(hb, kind), expectedAt := d.expectedAt, alertAt := d.alertAt,
        lastPingAt := Some(now),
        lastStartAt := if kind.Start? then Some(now) else hb.lastStartAt,
        lastSuccessAt := if kind.Success? then Some(now) else hb.lastSuccessAt,
        lastFailureAt := if kind.Fail? then Some(now) else hb.lastFailureAt,
        lastDurationMs := if PingDuration(hb, kind, now).Some? then PingDuration(hb, kind, now) else hb.lastDurationMs,
        lastExitCode := if completes then exitCode else hb.lastExitCode)
  }

  // ---- The sweep ------------------------------------------------------------------------

  /** What a sweep with this `now` saw: the transition applies only if the row is unchanged. */
  datatype Candidate = Candidate(from: Status, to: Status, expectedAt: Option<int>, alertAt: Option<int>, reason: Reason, sweepNow: int)

  function FailReason(hb: Row): Reason {
    if InFlight(hb) then RuntimeExceeded
    else if LastCompletionAt(hb).None? && hb.lastStartAt.None? then NeverPinged
    else Missed
  }

  predicate Overdue(d: Option<int>, now: int) {
    d.Some? && d.value <= now
  }

  /** What the first statement of a sweep at `now` takes from the row: overdue for late. */
  function LateCandidates(hb: Row, now: int): seq<Candidate> {
    if hb.status.Up? && Overdue(hb.expectedAt, now) && !Overdue(hb.alertAt, now)
    then [Candidate(Up, Late, hb.expectedAt, hb.alertAt, Missed, now)] else []
  }

  /** What the second one takes from it: overdue for down. */
  function DownCandidates(hb: Row, now: int): seq<Candidate> {
    if (hb.status.New? || hb.status.Up? || hb.status.Late?) && Overdue(hb.alertAt, now)
    then [Candidate(hb.status, Down, hb.expectedAt, hb.alertAt, FailReason(hb), now)] else []
  }

  predicate Wins(hb: Row, c: Candidate) {
    hb.status == c.from && hb.alertAt == c.alertAt && (c.to.Late? ==> hb.expectedAt == c.expectedAt)
  }

  function AfterSweep(hb: Row, c: Candidate): Row {
    if Wins(hb, c) then hb.(status := c.to) else hb
  }

  function SweepAlerts(hb: Row, c: Candidate): seq<Alert> {
    if !Wins(hb, c) then []
    else if c.to.Down? then [FailAlert(c.reason)]
    else if hb.notifyOnLate then [LateAlert]
    else []
  }

  /** The row, and the alerts raised for it so far. */
  class Heartbeat {
    var row: Row
    var alerts: seq<Alert>

    constructor (row: Row)
      ensures this.row == row && alerts == []
    {
      this.row := row;
      alerts := [];
    }

    /** One check-in, under the row lock; the alerts go out after commit. */
    method RecordPing(kind: PingKind, now: int, exitCode: Option<int>) returns (durationMs: Option<int>)
      modifies this
      ensures row == AfterPing(old(row), kind, now, exitCode)
      ensures alerts == old(alerts) + PingAlerts(old(row), kind, exitCode)
      ensures durationMs == PingDuration(old(row), kind, now)
    {
      var hb := row;
      var data := hb.(lastPingAt := Some(now));
      var raised := [];
      var status := hb.status;
      durationMs := None;
      var resumed := false;
      if status.Paused? && hb.resumeOnPing && !kind.LogLine? {
        status := New;
        resumed := true;
      }
      var paused := status.Paused?;
      if kind.Start? {
        data := data.(lastStartAt := Some(now));
        if !paused {
          var current := if resumed then Deadlines(None, None) else Deadlines(hb.expectedAt, hb.alertAt);
          var d := ComputeAfterStart(hb.fields, now, current);
          data := data.(expectedAt := d.expectedAt, alertAt := d.alertAt);
        }
      } else if kind.Success? || kind.Fail? {
        var done := LastCompletionAt(hb);
        if hb.lastStartAt.Some? && (done.None? || hb.lastStartAt.value > done.value) {
          var ms := now - hb.lastStartAt.value;
          if 0 <= ms <= MAX_INT {
            durationMs := Some(ms);
          }
        }
        if durationMs.Some? {
          data := data.(lastDurationMs := durationMs);
        }
        data := data.(lastExitCode := exitCode);
        if kind.Success? {
          data := data.(lastSuccessAt := Some(now));
        } else {
          data := data.(lastFailureAt := Some(now));
        }
        if !paused {
          var d := ComputeAfterPing(hb.fields, now);
          data := data.(expectedAt := d.expectedAt, alertAt := d.alertAt);
          if kind.Success? {
            if status.Down? || (status.Late? && hb.notifyOnLate) {
              raised := [RecoverAlert];
            }
            status := Up;
          } else {
            if !status.Down? {
              raised := [FailAlert(if exitCode.Some? then ExitCode else FailSignal)];
            }
            status := Down;
          }
        }
      }
      assert status == StatusAfter(hb, kind) && raised == PingAlerts(hb, kind, exitCode) && durationMs == PingDuration(hb, kind, now);
      assert Deadlines(data.expectedAt, data.alertAt) == PingDeadlines(hb, kind, now);
      row := data.(status := status);
      alerts := alerts + raised;
    }

    /** Apply one transition if the row is still exactly as the sweep saw it. */
    method ApplySweepTransition(c: Candidate) returns (won: bool)
      modifies this
      ensures won == Wins(old(row), c)
      ensures row == AfterSweep(old(row), c)
      ensures alerts == old(alerts) + SweepAlerts(old(row), c)
    {
      if row.status != c.from || row.alertAt != c.alertAt || (c.to.Late? && row.expectedAt != c.expectedAt) {
        return false;
      }
      row := row.(status := c.to);
      if c.to.Down? {
        alerts := alerts + [FailAlert(c.reason)];
      } else if row.notifyOnLate {
        alerts := alerts + [LateAlert];
      }
      won := true;
    }
  }

  // ---- Every interleaving of pings and sweeps ------------------------------------------------

  /** `candidates` were read by sweeps and not yet applied; `downs` counts entries into down. */
  datatype World = World(row: Row, candidates: seq<Candidate>, log: seq<Alert>, downs: nat)

  datatype Action =
    | Ping(kind: PingKind, now: int, exitCode: Option<int>)
    | ReadLate(lateNow: int)
    | ReadDown(downNow: int)
    | SweepApply(i: nat)

  function Init(row: Row): World {
    World(row, [], [], 0)
  }

  function Entered(before: Status, after: Status): nat {
    if !before.Down? && after.Down? then 1 else 0
  }

  function Step(w: World, a: Action): World {
    match a
    case Ping(kind, now, exitCode) =>
      w.(row := AfterPing(w.row, kind, now, exitCode), log := w.log + PingAlerts(w.row, kind, exitCode),
         downs := w.downs + Entered(w.row.status, StatusAfter(w.row, kind)))
    case ReadLate(now) => w.(candidates := w.candidates + LateCandidates(w.row, now))
    case ReadDown(now) => w.(candidates := w.candidates + DownCandidates(w.row, now))
    case SweepApply(i) =>
      if i >= |w.candidates| then w
      else
        var c := w.candidates[i];
        w.(row := AfterSweep(w.row, c), log := w.log + SweepAlerts(w.row, c),
           candidates := w.candidates[..i] + w.candidates[i + 1..],
           downs := w.downs + Entered(w.row.status, AfterSweep(w.row, c).status))
  }

  function Run(row: Row, actions: seq<Action>): World {
    if actions == [] then Init(row) else Step(Run(row, actions[..|actions| - 1]), actions[|actions| - 1])
  }

  /** The last alert opened an incident. */
  predicate IncidentOpen(log: seq<Alert>) {
    log != [] && !log[|log| - 1].RecoverAlert?
  }

  function FailCount(log: seq<Alert>): nat {
    if log == [] then 0 else FailCount(log[..|log| - 1]) + if log[|log| - 1].FailAlert? then 1 else 0
  }

  /** A recovery only closes an open incident, a late alert only opens one, and a failure is
      never announced twice in a row. */
  predicate Alternates(log: seq<Alert>) {
    forall i :: 0 <= i < |log| ==>
      && (log[i].RecoverAlert? ==> IncidentOpen(log[..i]))
      && (log[i].LateAlert? ==> !IncidentOpen(log[..i]))
      && (log[i].FailAlert? ==> i == 0 || !log[i - 1].FailAlert?)
  }

  /** The initial row: no incident is open yet, and a paused heartbeat is not pinned by hand. */
  predicate Fresh(row: Row) {
    row.status.New? || row.status.Up? || row.status.Paused?
  }

  /** What the last alert says is what the status says. */
  ghost predicate LogFits(row: Row, log: seq<Alert>, downs: nat) {
    && (row.status.Down? <==> log != [] && log[|log| - 1].FailAlert?)
    && (row.status.Late? && row.notifyOnLate <==> log != [] && log[|log| - 1].LateAlert?)
    && Alternates(log)
    && FailCount(log) == downs
  }

  predicate CandidateOk(c: Candidate) {
    || (c.to.Late? && c.from.Up? && Overdue(c.expectedAt, c.sweepNow) && !Overdue(c.alertAt, c.sweepNow))
    || (c.to.Down? && (c.from.New? || c.from.Up? || c.from.Late?) && Overdue(c.alertAt, c.sweepNow))
  }

  ghost predicate Inv(w: World) {
    LogFits(w.row, w.log, w.downs) && forall c :: c in w.candidates ==> CandidateOk(c)
  }

  lemma LogOne(log: seq<Alert>, a: Alert)
    requires Alternates(log)
    requires a.RecoverAlert? ==> IncidentOpen(log)
    requires a.LateAlert? ==> !IncidentOpen(log)
    requires a.FailAlert? ==> log == [] || !log[|log| - 1].FailAlert?
    ensures Alternates(log + [a])
    ensures FailCount(log + [a]) == FailCount(log) + if a.FailAlert? then 1 else 0
  {
    var longer := log + [a];
    assert longer[..|log|] == log;
    forall i | 0 <= i < |log| ensures longer[..i] == log[..i] && longer[i] == log[i] {}
    AlternatesLonger(log, a, longer);
  }

  lemma AlternatesLonger(log: seq<Alert>, a: Alert, longer: seq<Alert>)
    requires Alternates(log) && |longer| == |log| + 1 && longer[|log|] == a && longer[..|log|] == log
    requires forall i :: 0 <= i < |log| ==> longer[..i] == log[..i] && longer[i] == log[i]
    requires a.RecoverAlert? ==> IncidentOpen(log)
    requires a.LateAlert? ==> !IncidentOpen(log)
    requires a.FailAlert? ==> log == [] || !log[|log| - 1].FailAlert?
    ensures Alternates(longer)
  {}

  lemma PingFits(row: Row, log: seq<Alert>, downs: nat, kind: PingKind, now: int, exitCode: Option<int>)
    requires LogFits(row, log, downs)
    ensures LogFits(AfterPing(row, kind, now, exitCode), log + PingAlerts(row, kind, exitCode), downs + Entered(row.status, StatusAfter(row, kind)))
  {
    var raised := PingAlerts(row, kind, exitCode);
    if raised == [] {
      assert log + raised == log;
    } else {
      PingAlertFits(row, log, downs, kind, exitCode);
      LogOne(log, raised[0]);
      assert log + raised == log + [raised[0]];
    }
  }

  lemma PingAlertFits(row: Row, log: seq<Alert>, downs: nat, kind: PingKind, exitCode: Option<int>)
    requires LogFits(row, log, downs) && PingAlerts(row, kind, exitCode) != []
    ensures var raised := PingAlerts(row, kind, exitCode);
      && raised == [raised[0]]
      && (raised[0].RecoverAlert? ==> IncidentOpen(log))
      && (raised[0].LateAlert? ==> !IncidentOpen(log))
      && (raised[0].FailAlert? ==> log == [] || !log[|log| - 1].FailAlert?)
  {}

  lemma SweepFits(row: Row, log: seq<Alert>, downs: nat, c: Candidate)
    requires LogFits(row, log, downs) && CandidateOk(c)
    ensures LogFits(AfterSweep(row, c), log + SweepAlerts(row, c), downs + Entered(row.status, AfterSweep(row, c).status))
  {
    var raised := SweepAlerts(row, c);
    if raised == [] {
      assert log + raised == log;
    } else {
      assert raised == [raised[0]];
      LogOne(log, raised[0]);
    }
  }

  lemma StepKeepsInv(w: World, a: Action)
    requires Inv(w)
    ensures Inv(Step(w, a))
  {
    match a
    case Ping(kind, now, exitCode) => PingFits(w.row, w.log, w.downs, kind, now, exitCode);
    case ReadLate(_) =>
    case ReadDown(_) =>
    case SweepApply(i) =>
      if i < |w.candidates| {
        assert w.candidates[i] in w.candidates;
        assert forall x :: x in Step(w, a).candidates ==> x in w.candidates;
        SweepFits(w.row, w.log, w.downs, w.candidates[i]);
      }
  }

  lemma {:induction false} RunKeepsInv(row: Row, actions: seq<Action>)
    requires Fresh(row)
    ensures Inv(Run(row, actions))
  {
    if actions != [] {
      RunKeepsInv(row, actions[..|actions| - 1]);
      StepKeepsInv(Run(row, actions[..|actions| - 1]), actions[|actions| - 1]);
    }
  }

  /** Over every interleaving of pings and sweeps: an incident is open exactly when the row is
      down, or late with the lateness announced; every entry into down was announced once; and
      every recovery closed an open incident. */
  lemma IncidentMatchesStatus(row: Row, actions: seq<Action>)
    requires Fresh(row)
    ensures var w := Run(row, actions);
      && (IncidentOpen(w.log) <==> w.row.status.Down? || (w.row.status.Late? && w.row.notifyOnLate))
      && FailCount(w.log) == w.downs
      && Alternates(w.log)
  {
    RunKeepsInv(row, actions);
  }

  /** A sweep that marks the row down judged the deadline the row has now, and its own `now`
      had reached it. */
  lemma NoEarlyDown(row: Row, actions: seq<Action>, i: nat)
    requires Fresh(row)
    requires var w := Run(row, actions);
      i < |w.candidates| && !w.row.status.Down? && Step(w, SweepApply(i)).row.status.Down?
    ensures var w := Run(row, actions); w.row.alertAt.Some? && w.row.alertAt.value <= w.candidates[i].sweepNow
  {
    RunKeepsInv(row, actions);
    var w := Run(row, actions);
    assert w.candidates[i] in w.candidates;
  }

  /** A sweep step never makes a row anything but late or down, and never touches a row that a
      ping has moved since the sweep read it. */
  lemma MovedRowIsLeftAlone(row: Row, actions: seq<Action>, i: nat)
    requires Fresh(row) && i < |Run(row, actions).candidates|
    ensures var w, c := Run(row, actions), Run(row, actions).candidates[i];
      w.row.status != c.from || w.row.alertAt != c.alertAt ==>
        Step(w, SweepApply(i)).row == w.row && Step(w, SweepApply(i)).log == w.log
  {
    assert Run(row, actions).log + [] == Run(row, actions).log;
  }

  /** The two statements of a sweep may see the row in two states. They propose both transitions for it only
      if its alert deadline moved in between; and of the two proposals, tried one after the other on
      whatever the row is by then, at most one is applied. A row in one state that is overdue goes
      straight to down when its alert deadline has passed too, and to late otherwise. */
  lemma OneTransitionPerSweep(first: Row, second: Row, now: int, row: Row)
    ensures LateCandidates(first, now) != [] && DownCandidates(second, now) != [] ==> first.alertAt != second.alertAt
    ensures LateCandidates(first, now) != [] && DownCandidates(second, now) != [] ==>
      var late, down := LateCandidates(first, now)[0], DownCandidates(second, now)[0];
      !(Wins(row, late) && Wins(AfterSweep(row, late), down))
    ensures first.status.Up? && Overdue(first.expectedAt, now) ==>
      |LateCandidates(first, now) + DownCandidates(first, now)| == 1
      && ((LateCandidates(first, now) + DownCandidates(first, now))[0].to.Down? <==> Overdue(first.alertAt, now))
    ensures first.status.Down? || first.status.Paused? ==> LateCandidates(first, now) + DownCandidates(first, now) == []
  {}

  // ---- What a ping records --------------------------------------------------------------------

  /** Paused by hand: only somebody who resumes it ends that. */
  predicate PausedByHand(hb: Row) {
    hb.status.Paused? && !hb.resumeOnPing
  }

  /** The last start is later than every completion. */
  lemma InFlightIff(hb: Row)
    ensures InFlight(hb) <==>
      && hb.lastStartAt.Some?
      && (hb.lastSuccessAt.Some? ==> hb.lastStartAt.value > hb.lastSuccessAt.value)
      && (hb.lastFailureAt.Some? ==> hb.lastStartAt.value > hb.lastFailureAt.value)
  {}

  /** A log line is noted, and changes nothing else. */
  lemma LogLineSays(hb: Row, now: int, exitCode: Option<int>)
    ensures AfterPing(hb, LogLine, now, exitCode) == hb.(lastPingAt := Some(now)) && PingAlerts(hb, LogLine, exitCode) == []
  {}

  /** A start is recorded. It resumes a heartbeat that pings resume, which then expects nothing; it
      leaves any other status alone, sets the alert of the run, and raises none. */
  lemma StartSays(hb: Row, now: int, exitCode: Option<int>)
    ensures var row := AfterPing(hb, Start, now, exitCode);
      var resumed := hb.status.Paused? && hb.resumeOnPing;
      && row == hb.(status := row.status, expectedAt := row.expectedAt, alertAt := row.alertAt,
                    lastPingAt := Some(now), lastStartAt := Some(now))
      && row.status == (if resumed then New else hb.status)
      && (PausedByHand(hb) ==> row.expectedAt == hb.expectedAt && row.alertAt == hb.alertAt)
      && (!PausedByHand(hb) ==>
            var was := if resumed then Deadlines(None, None) else Deadlines(hb.expectedAt, hb.alertAt);
            Deadlines(row.expectedAt, row.alertAt) == ComputeAfterStart(hb.fields, now, was))
      && PingAlerts(hb, Start, exitCode) == []
  {}

  /** What a completion records beside the status and the deadlines: when, with what exit code, and, if it
      ends a run that was seen to start, how long that run took. */
  lemma CompletionRecords(hb: Row, kind: PingKind, now: int, exitCode: Option<int>)
    requires kind.Success? || kind.Fail?
    ensures var row := AfterPing(hb, kind, now, exitCode);
      && row == hb.(status := row.status, expectedAt := row.expectedAt, alertAt := row.alertAt,
                    lastPingAt := Some(now), lastExitCode := exitCode, lastDurationMs := row.lastDurationMs,
                    lastSuccessAt := if kind.Success? then Some(now) else hb.lastSuccessAt,
                    lastFailureAt := if kind.Fail? then Some(now) else hb.lastFailureAt)
      && (row.lastDurationMs ==
            if InFlight(hb) && hb.lastStartAt.value <= now <= hb.lastStartAt.value + 2_147_483_647
            then Some(now - hb.lastStartAt.value) else hb.lastDurationMs)
      && (PausedByHand(hb) ==>
            row.status.Paused? && row.expectedAt == hb.expectedAt && row.alertAt == hb.alertAt && PingAlerts(hb, kind, exitCode) == [])
  {}

  /** A success brings the heartbeat up, sets both deadlines, and announces the recovery of what had been
      announced. */
  lemma SuccessSays(hb: Row, now: int, exitCode: Option<int>)
    requires !PausedByHand(hb)
    ensures var row := AfterPing(hb, Success, now, exitCode);
      && row.status.Up?
      && ExpectedAfter(hb.fields, now, row.expectedAt) && AlertFollows(hb.fields, Deadlines(row.expectedAt, row.alertAt))
      && (PingAlerts(hb, Success, exitCode) ==
            if hb.status.Down? || (hb.status.Late? && hb.notifyOnLate) then [RecoverAlert] else [])
  {
    PingSetsDeadlines(hb.fields, now);
  }

  /** A failure brings it down, sets both deadlines, and is announced unless it was down already. */
  lemma FailSays(hb: Row, now: int, exitCode: Option<int>)
    requires !PausedByHand(hb)
    ensures var row := AfterPing(hb, Fail, now, exitCode);
      && row.status.Down?
      && ExpectedAfter(hb.fields, now, row.expectedAt) && AlertFollows(hb.fields, Deadlines(row.expectedAt, row.alertAt))
      && (PingAlerts(hb, Fail, exitCode) ==
            if hb.status.Down? then [] else [FailAlert(if exitCode.Some? then ExitCode else FailSignal)])
  {
    PingSetsDeadlines(hb.fields, now);
  }

  // ---- A heartbeat that has checked in is left alone until its deadline ---------------------------

  /** Sweeps and log lines: no start, success or failure. */
  predicate Calm(a: Action) {
    !a.Ping? || a.kind.LogLine?
  }

  ghost predicate AllCalm(actions: seq<Action>) {
    forall a :: a in actions ==> Calm(a)
  }

  lemma CalmStep(w: World, a: Action)
    requires Calm(a) && Inv(w)
    ensures var w' := Step(w, a);
      && w'.row == w.row.(status := w'.row.status, lastPingAt := w'.row.lastPingAt)
      && (w.row.status.Up? ==> w'.row.status.Up? || w'.row.status.Late? || w'.row.status.Down?)
      && (!w.row.status.Up? ==> w'.row.status == w.row.status || w'.row.status.Down?)
  {
    if a.SweepApply? && a.i < |w.candidates| {
      assert w.candidates[a.i] in w.candidates;
    }
  }

  lemma {:induction false} CalmKeepsDeadlines(row: Row, actions: seq<Action>, more: seq<Action>)
    requires Fresh(row) && AllCalm(more)
    ensures var before, after := Run(row, actions).row, Run(row, actions + more).row;
      after == before.(status := after.status, lastPingAt := after.lastPingAt)
    decreases |more|
  {
    if more == [] {
      assert actions + more == actions;
    } else {
      var init, last := more[..|more| - 1], more[|more| - 1];
      assert (actions + more)[..|actions + more| - 1] == actions + init && last in more;
      CalmKeepsDeadlines(row, actions, init);
      RunKeepsInv(row, actions + init);
      CalmStep(Run(row, actions + init), last);
    }
  }

  lemma AfterLast(row: Row, actions: seq<Action>, a: Action)
    ensures Run(row, actions + [a]) == Step(Run(row, actions), a)
  {
    assert (actions + [a])[..|actions|] == actions;
  }

  /** Once a success at `t` has come in, and until something else than sweeps and log lines does, both
      deadlines are those of that success, and no sweep marks the heartbeat down unless its own moment
      has reached the second one: the period and the grace after `t`, or the grace after the run that is
      expected next. A sweep that marks it late has reached the first. */
  lemma CheckedInIsLeftAlone(row: Row, actions: seq<Action>, t: int, exitCode: Option<int>, more: seq<Action>, i: nat)
    requires Fresh(row) && AllCalm(more) && !PausedByHand(Run(row, actions).row)
    requires i < |Run(row, actions + [Ping(Success, t, exitCode)] + more).candidates|
    ensures var w := Run(row, actions + [Ping(Success, t, exitCode)] + more);
      var fields, swept, now := Run(row, actions).row.fields, Step(w, SweepApply(i)).row.status, w.candidates[i].sweepNow;
      && ExpectedAfter(fields, t, w.row.expectedAt) && AlertFollows(fields, Deadlines(w.row.expectedAt, w.row.alertAt))
      && (!w.row.status.Down? && swept.Down? ==> w.row.alertAt.Some? && w.row.alertAt.value <= now)
      && (!w.row.status.Late? && swept.Late? ==> w.row.expectedAt.Some? && w.row.expectedAt.value <= now)
  {
    var ping := Ping(Success, t, exitCode);
    AfterLast(row, actions, ping);
    SuccessSays(Run(row, actions).row, t, exitCode);
    CalmKeepsDeadlines(row, actions + [ping], more);
    SweptInTime(row, actions + [ping] + more, i);
  }

  /** The same after a start: no sweep marks the heartbeat down before the alert that the start set. */
  lemma StartedIsLeftAlone(row: Row, actions: seq<Action>, t: int, exitCode: Option<int>, more: seq<Action>, i: nat)
    requires Fresh(row) && AllCalm(more) && !Run(row, actions).row.status.Paused?
    requires i < |Run(row, actions + [Ping(Start, t, exitCode)] + more).candidates|
    ensures var hb, w := Run(row, actions).row, Run(row, actions + [Ping(Start, t, exitCode)] + more);
      && Deadlines(w.row.expectedAt, w.row.alertAt) == ComputeAfterStart(hb.fields, t, Deadlines(hb.expectedAt, hb.alertAt))
      && (!w.row.status.Down? && Step(w, SweepApply(i)).row.status.Down? ==> w.row.alertAt.Some? && w.row.alertAt.value <= w.candidates[i].sweepNow)
  {
    var ping := Ping(Start, t, exitCode);
    AfterLast(row, actions, ping);
    StartSays(Run(row, actions).row, t, exitCode);
    CalmKeepsDeadlines(row, actions + [ping], more);
    SweptInTime(row, actions + [ping] + more, i);
  }

  lemma SweptInTime(row: Row, actions: seq<Action>, i: nat)
    requires Fresh(row) && i < |Run(row, actions).candidates|
    ensures var w := Run(row, actions);
      var swept, now := Step(w, SweepApply(i)).row.status, w.candidates[i].sweepNow;
      && (!w.row.status.Down? && swept.Down? ==> Overdue(w.row.alertAt, now))
      && (!w.row.status.Late? && swept.Late? ==> Overdue(w.row.expectedAt, now) && !Overdue(w.row.alertAt, now))
  {
    RunKeepsInv(row, actions);
    var w := Run(row, actions);
    assert w.candidates[i] in w.candidates;
  }

  // ---- And it is not left alone after it --------------------------------------------------------------

  /** A sweep at or after the alert deadline that reads and then applies marks the heartbeat down, with one
      alert that gives the reason: a run started and not completed, no sign of life ever, or a missed run. */
  lemma OverdueIsMarkedDown(w: World, now: int)
    requires w.row.status.New? || w.row.status.Up? || w.row.status.Late?
    requires w.row.alertAt.Some? && w.row.alertAt.value <= now
    ensures var hb := w.row;
      var swept := Step(Step(w, ReadDown(now)), SweepApply(|w.candidates|));
      var reason := if InFlight(hb) then RuntimeExceeded
        else if hb.lastStartAt == hb.lastSuccessAt == hb.lastFailureAt == None then NeverPinged else Missed;
      swept.row == hb.(status := Down) && swept.log == w.log + [FailAlert(reason)]
  {
    assert Step(w, ReadDown(now)).candidates[|w.candidates|] == DownCandidates(w.row, now)[0];
  }

  /** One at or after the expected time marks it late, if the alert is still to come, and says so if asked to. */
  lemma OverdueIsMarkedLate(w: World, now: int)
    requires w.row.status.Up? && w.row.expectedAt.Some? && w.row.expectedAt.value <= now
    requires w.row.alertAt.Some? ==> now < w.row.alertAt.value
    ensures var swept := Step(Step(w, ReadLate(now)), SweepApply(|w.candidates|));
      swept.row == w.row.(status := Late) && swept.log == w.log + if w.row.notifyOnLate then [LateAlert] else []
  {
    assert Step(w, ReadLate(now)).candidates[|w.candidates|] == LateCandidates(w.row, now)[0];
  }
}
