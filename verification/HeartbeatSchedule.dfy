/** Deadlines of a heartbeat. The cron library is a function giving the next run strictly
    after an instant, and the zone's UTC offset a function of the instant. */
module HeartbeatSchedule {
  import opened Options

  datatype Schedule = Schedule(nextRun: int -> Option<int>, offsetMs: int -> int)

  /** `kind` is "period" or not; a period heartbeat has no schedule and the other way round. */
  datatype Fields = Fields(period: bool, schedule: Option<Schedule>, periodSeconds: Option<int>,
                           graceSeconds: int, maxRuntimeSeconds: Option<int>)

  datatype Deadlines = Deadlines(expectedAt: Option<int>, alertAt: Option<int>)

  const MAX_SKEW_MS := 60_000
  const DST_LOOKBACK_MS := 3 * 3_600_000

  /** What the cron library promises: the least scheduled instant after `t`, if there is one. */
  ghost predicate GivesLeastRun(s: Schedule, runs: iset<int>) {
    forall t :: match s.nextRun(t)
      case Some(r) => r in runs && r > t && forall x :: x in runs && x > t ==> r <= x
      case None => forall x :: x in runs ==> x <= t
  }

  function Abs(x: int): int {
    if x < 0 then -x else x
  }

  function Min(x: int, y: int): int {
    if x < y then x else y
  }

  /** Twice the tolerance: half of an odd gap is not a whole millisecond. */
  function EarlyTolerance2(s: Schedule, next1: int, next2: Option<int>): (tol2: int)
    ensures tol2 >= 0
    ensures next2.Some? ==> tol2 <= if next2.value > next1 then next2.value - next1 else 0
  {
    var half2 := if next2.Some? then next2.value - next1 else 2 * MAX_SKEW_MS;
    var shift := Abs(s.offsetMs(next1) - s.offsetMs(next1 - DST_LOOKBACK_MS));
    var tol2 := Min(2 * (MAX_SKEW_MS + shift), half2);
    if tol2 < 0 then 0 else tol2
  }

  /** `new Date(t + tol)`: the sum in milliseconds, truncated towards zero. */
  function PlusHalves(t: int, tol2: int): int {
    var x := 2 * t + tol2;
    if x >= 0 then x / 2 else -(-x / 2)
  }

  /** The run after `next1`, stepping past a library that hands the same instant back. */
  function SecondRun(s: Schedule, next1: int): Option<int> {
    var next2 := s.nextRun(next1);
    if next2.Some? && next2.value <= next1 then s.nextRun(next1 + 60_000) else next2
  }

  /** Where the search for the expected run starts. */
  function SearchFrom(s: Schedule, t: int, next1: int): int {
    PlusHalves(t, EarlyTolerance2(s, next1, SecondRun(s, next1)))
  }

  /** The run a completion ping at `t` waits for next. */
  function NextExpectedCronRun(s: Schedule, t: int): Option<int> {
    match s.nextRun(t)
    case None => None
    case Some(next1) => s.nextRun(SearchFrom(s, t, next1))
  }

  function Plus(d: Option<int>, seconds: int): Option<int> {
    if d.Some? then Some(d.value + seconds * 1000) else None
  }

  function FirstPeriod(hb: Fields, t: int): Option<int> {
    if hb.periodSeconds.Some? && hb.periodSeconds.value != 0 then Some(t + hb.periodSeconds.value * 1000) else None
  }

  function ComputeAfterPing(hb: Fields, t: int): Deadlines {
    var expectedAt :=
      if hb.period then FirstPeriod(hb, t)
      else if hb.schedule.Some? then NextExpectedCronRun(hb.schedule.value, t)
      else None;
    Deadlines(expectedAt, Plus(expectedAt, hb.graceSeconds))
  }

  function ComputeAfterStart(hb: Fields, t: int, current: Deadlines): Deadlines {
    var runtime := t + (if hb.maxRuntimeSeconds.Some? then hb.maxRuntimeSeconds.value else hb.graceSeconds) * 1000;
    if current.alertAt.None? || current.expectedAt.None? then Deadlines(current.expectedAt, Some(runtime))
    else if t >= current.expectedAt.value - MAX_SKEW_MS then Deadlines(current.expectedAt, Some(runtime))
    else Deadlines(current.expectedAt, Some(if runtime < current.alertAt.value then runtime else current.alertAt.value))
  }

  function ComputeInitial(hb: Fields, now: int, armed: bool): Deadlines {
    if !armed then Deadlines(None, None)
    else
      var expectedAt :=
        if hb.period then FirstPeriod(hb, now)
        else if hb.schedule.Some? then hb.schedule.value.nextRun(now)
        else None;
      Deadlines(expectedAt, Plus(expectedAt, hb.graceSeconds))
  }

  function ComputeAfterEdit(hb: Fields, lastCompletionAt: Option<int>, now: int, armed: bool): Deadlines {
    match lastCompletionAt
    case None => ComputeInitial(hb, now, armed)
    case Some(last) =>
      var d := ComputeAfterPing(hb, last);
      if d.alertAt.Some? && d.alertAt.value > now && d.expectedAt.Some? && d.expectedAt.value > now then d
      else ComputeAfterPing(hb, now)
  }

  // ---- Properties -------------------------------------------------------------------

  lemma SearchBeforeSecondRun(s: Schedule, runs: iset<int>, t: int)
    requires GivesLeastRun(s, runs) && s.nextRun(t).Some?
    ensures var n1 := s.nextRun(t).value;
      && t <= SearchFrom(s, t, n1)
      && (s.nextRun(n1).Some? ==> SearchFrom(s, t, n1) < s.nextRun(n1).value)
  {
    var n1 := s.nextRun(t).value;
    assert n1 > t;
    if s.nextRun(n1).Some? {
      assert s.nextRun(n1).value > n1;
    }
  }

  /** The expected run is the next run or the one after it, never a later one; it is the next
      run exactly when the ping is earlier than that run by more than the tolerance. */
  lemma ExpectedIsNextOrAfter(s: Schedule, runs: iset<int>, t: int)
    requires GivesLeastRun(s, runs)
    ensures match s.nextRun(t)
      case None => NextExpectedCronRun(s, t) == None
      case Some(n1) => NextExpectedCronRun(s, t) == if SearchFrom(s, t, n1) < n1 then Some(n1) else s.nextRun(n1)
  {
    if s.nextRun(t).Some? {
      var n1 := s.nextRun(t).value;
      var from := SearchFrom(s, t, n1);
      SearchBeforeSecondRun(s, runs, t);
      var r := s.nextRun(from);
      var n2 := s.nextRun(n1);
      if from < n1 {
        assert r.Some? && r.value <= n1;
        assert r.value > t;
      } else {
        if n2.Some? { assert n2.value in runs && n2.value > from; }
        if r.Some? { assert r.value in runs && r.value > n1; }
      }
    }
  }

  /** How early a ping counts for the run `n1`, in half milliseconds: a minute, or more where the zone's
      offset has just shifted, but no more than half the gap to the run after. */
  function Tolerance(s: Schedule, n1: int): int {
    var gap := if s.nextRun(n1).Some? then s.nextRun(n1).value - n1 else 120_000;
    var shift := s.offsetMs(n1) - s.offsetMs(n1 - 10_800_000);
    var early := 2 * (60_000 + if shift < 0 then -shift else shift);
    if early < gap then early else gap
  }

  /** A completion ping waits for the next run if it is earlier than that by more than the tolerance, and
      for the run after it otherwise. (Before 1970 half a millisecond is rounded the other way.) */
  lemma WaitsForNextIff(s: Schedule, runs: iset<int>, t: int)
    requires GivesLeastRun(s, runs) && s.nextRun(t).Some?
    ensures var n1 := s.nextRun(t).value;
      var early := if n1 > 0 then 2 * t + Tolerance(s, n1) < 2 * n1 else 2 * t + Tolerance(s, n1) <= 2 * n1 - 2;
      NextExpectedCronRun(s, t) == if early then Some(n1) else s.nextRun(n1)
  {
    var n1 := s.nextRun(t).value;
    ExpectedIsNextOrAfter(s, runs, t);
    assert s.nextRun(n1).Some? ==> s.nextRun(n1).value > n1;
    ToleranceIs(s, n1);
    RoundedBelow(2 * t + Tolerance(s, n1), n1);
  }

  lemma ToleranceIs(s: Schedule, n1: int)
    requires s.nextRun(n1).Some? ==> s.nextRun(n1).value > n1
    ensures EarlyTolerance2(s, n1, SecondRun(s, n1)) == Tolerance(s, n1)
  {}

  lemma RoundedBelow(x: int, n: int)
    ensures (if x >= 0 then x / 2 else -(-x / 2)) < n <==> if n > 0 then x < 2 * n else x <= 2 * n - 2
  {}

  /** A job whose runs are two minutes apart or more, on a host whose clock runs less than a minute fast:
      the ping of a run never waits for that same run. */
  lemma FastClockIsForgiven(s: Schedule, runs: iset<int>, t: int)
    requires GivesLeastRun(s, runs) && s.nextRun(t).Some?
    requires var n1 := s.nextRun(t).value;
      n1 - 60_000 <= t && (s.nextRun(n1).Some? ==> s.nextRun(n1).value >= n1 + 120_000)
    ensures NextExpectedCronRun(s, t) == s.nextRun(s.nextRun(t).value)
  {
    WaitsForNextIff(s, runs, t);
  }

  /** Where the library hands an instant back for itself, and the runs are a minute apart or more, the
      run after is still found. */
  lemma StuckLibraryIsPassed(s: Schedule, runs: iset<int>, n1: int)
    requires forall t :: match s.nextRun(t)
      case Some(r) => r in runs && r >= t && (forall x :: x in runs && x >= t ==> r <= x)
      case None => forall x :: x in runs ==> x < t
    requires n1 in runs && forall x :: x in runs && x > n1 ==> x >= n1 + 60_000
    ensures match SecondRun(s, n1)
      case Some(r) => r in runs && r > n1 && (forall x :: x in runs && x > n1 ==> r <= x)
      case None => forall x :: x in runs ==> x <= n1
  {
    assert s.nextRun(n1) == Some(n1);
  }

  /** `None` stands for never. */
  predicate NotAfter(x: Option<int>, y: Option<int>) {
    y.None? || (x.Some? && x.value <= y.value)
  }

  lemma NextRunMonotone(s: Schedule, runs: iset<int>, t: int, u: int)
    requires GivesLeastRun(s, runs) && t <= u
    ensures NotAfter(s.nextRun(t), s.nextRun(u))
  {
    if s.nextRun(u).Some? { assert s.nextRun(u).value in runs && s.nextRun(u).value > t; }
  }

  /** A later ping never waits for an earlier run. */
  lemma ExpectedIsMonotone(s: Schedule, runs: iset<int>, t: int, u: int)
    requires GivesLeastRun(s, runs) && t <= u
    ensures NotAfter(NextExpectedCronRun(s, t), NextExpectedCronRun(s, u))
  {
    NextRunMonotone(s, runs, t, u);
    ExpectedIsNextOrAfter(s, runs, t);
    ExpectedIsNextOrAfter(s, runs, u);
    if s.nextRun(u).Some? {
      var m, n := s.nextRun(t).value, s.nextRun(u).value;
      if m == n {
        NextRunMonotone(s, runs, SearchFrom(s, t, m), SearchFrom(s, u, m));
      } else {
        assert m in runs && m <= u;
        NextRunMonotone(s, runs, m, u);
        NextRunMonotone(s, runs, t, m);
        if s.nextRun(n).Some? { assert s.nextRun(n).value > n; }
      }
    }
  }

  predicate NotDue(d: Option<int>, now: int) {
    d.None? || d.value > now
  }

  predicate Sane(hb: Fields) {
    hb.graceSeconds >= 0 && (hb.periodSeconds.Some? ==> hb.periodSeconds.value >= 0)
  }

  lemma AfterPingNotDue(hb: Fields, runs: iset<int>, t: int)
    requires Sane(hb) && (hb.schedule.Some? ==> GivesLeastRun(hb.schedule.value, runs))
    ensures NotDue(ComputeAfterPing(hb, t).expectedAt, t) && NotDue(ComputeAfterPing(hb, t).alertAt, t)
  {
    if !hb.period && hb.schedule.Some? {
      var s := hb.schedule.value;
      ExpectedIsNextOrAfter(s, runs, t);
      if s.nextRun(t).Some? {
        var n1 := s.nextRun(t).value;
        assert n1 > t;
        if s.nextRun(n1).Some? { assert s.nextRun(n1).value > n1; }
      }
    }
  }

  /** Editing a heartbeat never sets a deadline that is already due. */
  lemma EditNeverDue(hb: Fields, runs: iset<int>, last: Option<int>, now: int, armed: bool)
    requires Sane(hb) && (hb.schedule.Some? ==> GivesLeastRun(hb.schedule.value, runs))
    ensures var d := ComputeAfterEdit(hb, last, now, armed);
      NotDue(d.expectedAt, now) && NotDue(d.alertAt, now)
  {
    AfterPingNotDue(hb, runs, now);
    if hb.schedule.Some? {
      var r := hb.schedule.value.nextRun(now);
      assert r.Some? ==> r.value > now;
    }
  }

  /** When the run of an expected time has begun, within a minute, or nothing is expected, the alert is at
      the start plus the longest run allowed, or plus the grace where none is given; an earlier start
      takes that or the present alert, whichever comes first. */
  lemma StartSetsAlert(hb: Fields, t: int, current: Deadlines)
    ensures var d := ComputeAfterStart(hb, t, current);
      var runtime := if hb.maxRuntimeSeconds.Some? then hb.maxRuntimeSeconds.value else hb.graceSeconds;
      && d.expectedAt == current.expectedAt && d.alertAt.Some?
      && (if current.alertAt.Some? && current.expectedAt.Some? && t + 60_000 < current.expectedAt.value
          then d.alertAt.value <= t + 1000 * runtime && d.alertAt.value <= current.alertAt.value
            && d.alertAt.value in {t + 1000 * runtime, current.alertAt.value}
          else d.alertAt.value == t + 1000 * runtime)
  {}

  /** The deadline of a completion at `t`: the period, or the run waited for. */
  predicate ExpectedAfter(hb: Fields, t: int, expectedAt: Option<int>) {
    if hb.period then
      match hb.periodSeconds
      case None => expectedAt == None
      case Some(seconds) => expectedAt == if seconds == 0 then None else Some(t + 1000 * seconds)
    else
      match hb.schedule
      case None => expectedAt == None
      case Some(s) => expectedAt == NextExpectedCronRun(s, t)
  }

  /** The alert comes the grace after the deadline. */
  predicate AlertFollows(hb: Fields, d: Deadlines) {
    match d.expectedAt
    case None => d.alertAt == None
    case Some(at) => d.alertAt == Some(at + 1000 * hb.graceSeconds)
  }

  lemma PingSetsDeadlines(hb: Fields, t: int)
    ensures var d := ComputeAfterPing(hb, t); ExpectedAfter(hb, t, d.expectedAt) && AlertFollows(hb, d)
  {}

  /** Before any completion an armed heartbeat expects its first period or run, and any other nothing. */
  lemma InitialDeadlines(hb: Fields, now: int, armed: bool)
    ensures var d := ComputeInitial(hb, now, armed);
      && AlertFollows(hb, d)
      && (!armed ==> d.expectedAt == None)
      && (armed && hb.period ==> ExpectedAfter(hb, now, d.expectedAt))
      && (armed && !hb.period ==> d.expectedAt == if hb.schedule.Some? then hb.schedule.value.nextRun(now) else None)
  {}

  /** After an edit the deadlines are those of the last completion if both are still to come, and
      otherwise those of a completion now. */
  lemma EditedDeadlines(hb: Fields, last: int, now: int, armed: bool)
    ensures var d := ComputeAfterEdit(hb, Some(last), now, armed);
      && AlertFollows(hb, d)
      && (if exists e :: ExpectedAfter(hb, last, Some(e)) && e > now && e + 1000 * hb.graceSeconds > now
          then ExpectedAfter(hb, last, d.expectedAt) else ExpectedAfter(hb, now, d.expectedAt))
  {
    var e := ComputeAfterPing(hb, last).expectedAt;
    assert e.Some? ==> ExpectedAfter(hb, last, Some(e.value));
  }

  /** A start ping keeps the expected run and sets an alert, and it can move an alert later
      only once the scheduled run has begun, or when nothing was expected. */
  lemma EarlyStartNeverPostpones(hb: Fields, t: int, current: Deadlines)
    ensures ComputeAfterStart(hb, t, current).expectedAt == current.expectedAt
    ensures ComputeAfterStart(hb, t, current).alertAt.Some?
    ensures current.expectedAt.Some? && t < current.expectedAt.value - MAX_SKEW_MS ==>
      NotAfter(ComputeAfterStart(hb, t, current).alertAt, current.alertAt)
  {}
}
