/** Time-boxed access grants. A revoke or an extension first claims the row with one
    conditional UPDATE, then works on the host, then records the outcome; the sweeper gives
    back claims older than STALE_CLAIM_MS. */
module AccessGrants {
  import opened Options

  datatype Status = Active | Pending | Revoked | Failed

  /** `Pending` is the stored status `expired_pending`. */
  datatype Row = Row(status: Status, attempts: int, expiresAt: int, updatedAt: int)

  const STALE_CLAIM_MS := 15 * 60_000
  const MAX_BACKOFF_MS := 15 * 60_000
  const MAX_REVOKE_ATTEMPTS := 5

  // ---- The statements -------------------------------------------------------------

  function ClaimedRow(row: Row, now: int): Row {
    row.(status := Pending, updatedAt := now)
  }

  predicate Stale(row: Row, sweepNow: int) {
    row.status == Pending && row.updatedAt < sweepNow - STALE_CLAIM_MS
  }

  predicate Extendable(row: Row, now: int) {
    row.status == Active && row.expiresAt > now
  }

  function FailedRow(row: Row, attempts: int, now: int): Row {
    row.(attempts := attempts, status := if attempts >= MAX_REVOKE_ATTEMPTS then Failed else Active, updatedAt := now)
  }

  /** What an actor may do with a grant. */
  datatype Permissions = Permissions(canExtend: bool, canRevoke: bool)

  function GrantPermissions(row: Row, isCreator: bool, mayCreate: bool, mayRevoke: bool, now: int): Permissions {
    Permissions(
      row.status == Active && row.expiresAt > now && mayCreate && (isCreator || mayRevoke),
      (row.status == Active || row.status == Failed) && (mayRevoke || (isCreator && mayCreate)))
  }

  class AccessGrant {
    var row: Row

    constructor (row: Row)
      ensures this.row == row
    {
      this.row := row;
    }

    method ClaimForRevoke(prior: Status, now: int) returns (count: nat)
      modifies this
      ensures count == if old(row).status == prior then 1 else 0
      ensures row == if count == 1 then ClaimedRow(old(row), now) else old(row)
    {
      if row.status == prior {
        row := row.(status := Pending, updatedAt := now);
        return 1;
      }
      count := 0;
    }

    method ClaimForExtend(callNow: int, now: int) returns (count: nat)
      modifies this
      ensures count == if Extendable(old(row), callNow) then 1 else 0
      ensures row == if count == 1 then ClaimedRow(old(row), now) else old(row)
    {
      if row.status == Active && row.expiresAt > callNow {
        row := row.(status := Pending, updatedAt := now);
        return 1;
      }
      count := 0;
    }

    method ReleaseStale(sweepNow: int, now: int) returns (count: nat)
      modifies this
      ensures count == if Stale(old(row), sweepNow) then 1 else 0
      ensures row == if count == 1 then old(row).(status := Active, updatedAt := now) else old(row)
    {
      if row.status == Pending && row.updatedAt < sweepNow - STALE_CLAIM_MS {
        row := row.(status := Active, updatedAt := now);
        return 1;
      }
      count := 0;
    }

    method RecordFailure(attempts: int, now: int) returns (exhausted: bool)
      modifies this
      ensures exhausted == (attempts >= MAX_REVOKE_ATTEMPTS)
      ensures row == FailedRow(old(row), attempts, now)
    {
      exhausted := attempts >= MAX_REVOKE_ATTEMPTS;
      row := row.(attempts := attempts, status := if exhausted then Failed else Active, updatedAt := now);
    }

    method RecordRevoked(now: int)
      modifies this
      ensures row == old(row).(status := Revoked, updatedAt := now)
    {
      row := row.(status := Revoked, updatedAt := now);
    }

    method RecordExtended(expiresAt: int, now: int)
      modifies this
      ensures row == old(row).(status := Active, expiresAt := expiresAt, attempts := 0, updatedAt := now)
    {
      row := row.(status := Active, expiresAt := expiresAt, attempts := 0, updatedAt := now);
    }

    method RestoreActive(now: int)
      modifies this
      ensures row == old(row).(status := Active, updatedAt := now)
    {
      row := row.(status := Active, updatedAt := now);
    }
  }

  // ---- Every interleaving of calls and sweeps ------------------------------------------

  datatype Job = Revoke(automatic: bool) | Extend(expiresAt: int)

  datatype Phase = Started | HasRead | Claimed | Loaded | HostDone(ok: bool) | Ended

  /** One revokeGrant or extendGrant call. `prior*` is what it read before claiming, in extension
      epoch `priorEpoch`; `attempts` what it loaded after claiming. */
  datatype Call = Call(job: Job, startedAt: int, phase: Phase, priorStatus: Status, priorAttempts: int, priorEpoch: nat,
                       claimedAt: int, attempts: int)

  /** `epoch` counts extensions, `triggers` the failure alerts since the last one, `triggersEver`
      and `resolves` those of the whole history; `exhaustedAt` is when attempts reached the maximum,
      and `late` records whether a revocation ever claimed more than STALE_CLAIM_MS after it started. */
  datatype World = World(time: int, row: Row, calls: seq<Call>, epoch: nat, triggers: nat, triggersEver: nat, resolves: nat,
                         exhaustedAt: int, late: bool)

  datatype Action =
    | Tick(ms: nat)
    | Start(job: Job)
    | ReadPrior(i: nat)
    | Claim(i: nat)
    | Load(i: nat)
    | HostFinishes(i: nat, ok: bool)
    | Record(i: nat)
    | Crash(i: nat)
    | Sweep(sweepNow: int)

  function Init(time: int, expiresAt: int): World {
    World(time, Row(Active, 0, expiresAt, time), [], 0, 0, 0, 0, time, false)
  }

  predicate Live(c: Call) {
    !c.phase.Ended?
  }

  predicate Working(c: Call) {
    c.phase.Claimed? || c.phase.Loaded? || c.phase.HostDone?
  }

  /** The assumption on every call: it ends, or its process dies, within STALE_CLAIM_MS of its claim. */
  predicate MayPass(w: World, ms: nat) {
    forall c :: c in w.calls && Working(c) ==> w.time + ms <= c.claimedAt + STALE_CLAIM_MS
  }

  predicate In(w: World, i: nat, p: Phase) {
    i < |w.calls| && w.calls[i].phase == p
  }

  function Put(w: World, i: nat, c: Call): World
    requires i < |w.calls|
  {
    w.(calls := w.calls[i := c])
  }

  predicate Claimable(c: Call, status: Status) {
    status == Active || (c.job == Revoke(false) && status == Failed)
  }

  predicate ClaimMatches(w: World, c: Call) {
    if c.job.Revoke? then w.row.status == c.priorStatus else Extendable(w.row, c.startedAt)
  }

  predicate ClaimsLate(w: World, c: Call) {
    c.job.Revoke? && w.time > c.startedAt + STALE_CLAIM_MS
  }

  predicate AlertedBefore(c: Call) {
    c.priorStatus == Failed || c.priorAttempts >= MAX_REVOKE_ATTEMPTS
  }

  function RecordOutcome(w: World, i: nat): World
    requires i < |w.calls| && w.calls[i].phase.HostDone?
  {
    var c := w.calls[i];
    var w' := Put(w, i, c.(phase := Ended));
    match c.job
    case Extend(expiresAt) =>
      if c.phase.ok then
        w'.(row := w.row.(status := Active, expiresAt := expiresAt, attempts := 0, updatedAt := w.time), epoch := w.epoch + 1, triggers := 0)
      else w'.(row := w.row.(status := Active, updatedAt := w.time))
    case Revoke(_) =>
      if c.phase.ok then
        w'.(row := w.row.(status := Revoked, updatedAt := w.time), resolves := w.resolves + if AlertedBefore(c) then 1 else 0)
      else
        var exhausted := c.attempts + 1 >= MAX_REVOKE_ATTEMPTS;
        var raised := if exhausted && !AlertedBefore(c) then 1 else 0;
        w'.(row := FailedRow(w.row, c.attempts + 1, w.time),
            triggers := w.triggers + raised, triggersEver := w.triggersEver + raised,
            exhaustedAt := if exhausted && w.row.attempts < MAX_REVOKE_ATTEMPTS then w.time else w.exhaustedAt)
  }

  function Step(w: World, a: Action): World {
    match a
    case Tick(ms) => if MayPass(w, ms) then w.(time := w.time + ms) else w
    case Start(job) => w.(calls := w.calls + [Call(job, w.time, Started, Active, 0, 0, 0, 0)])
    case ReadPrior(i) =>
      if !In(w, i, Started) then w
      else
        var c := w.calls[i].(priorStatus := w.row.status, priorAttempts := w.row.attempts, priorEpoch := w.epoch);
        var go := if c.job.Revoke? then Claimable(c, w.row.status) else Extendable(w.row, c.startedAt);
        Put(w, i, c.(phase := if go then HasRead else Ended))
    case Claim(i) =>
      if !In(w, i, HasRead) then w
      else if ClaimMatches(w, w.calls[i]) then
        Put(w, i, w.calls[i].(phase := Claimed, claimedAt := w.time)).(
          row := ClaimedRow(w.row, w.time), late := w.late || ClaimsLate(w, w.calls[i]))
      else Put(w, i, w.calls[i].(phase := Ended))
    case Load(i) =>
      if !In(w, i, Claimed) then w else Put(w, i, w.calls[i].(phase := Loaded, attempts := w.row.attempts))
    case HostFinishes(i, ok) =>
      if !In(w, i, Loaded) then w else Put(w, i, w.calls[i].(phase := HostDone(ok)))
    case Record(i) =>
      if i < |w.calls| && w.calls[i].phase.HostDone? then RecordOutcome(w, i) else w
    case Crash(i) =>
      if i < |w.calls| then Put(w, i, w.calls[i].(phase := Ended)) else w
    case Sweep(sweepNow) =>
      if sweepNow <= w.time && Stale(w.row, sweepNow) then w.(row := w.row.(status := Active, updatedAt := w.time)) else w
  }

  function Run(time: int, expiresAt: int, actions: seq<Action>): World {
    if actions == [] then Init(time, expiresAt)
    else Step(Run(time, expiresAt, actions[..|actions| - 1]), actions[|actions| - 1])
  }

  // ---- What every step keeps --------------------------------------------------------------

  predicate Exhausted(row: Row) {
    row.attempts >= MAX_REVOKE_ATTEMPTS
  }

  ghost predicate RowOk(w: World) {
    && w.row.attempts >= 0
    && w.row.updatedAt <= w.time
    && w.exhaustedAt <= w.time
    && (w.row.status == Failed ==> Exhausted(w.row))
    // A row at the maximum is claimable by the sweeper only once a claim has gone stale since.
    && (Exhausted(w.row) ==> w.exhaustedAt <= w.row.updatedAt)
    && (Exhausted(w.row) && w.row.status == Active ==> w.time > w.exhaustedAt + STALE_CLAIM_MS)
    && (Exhausted(w.row) ==> w.triggersEver > 0)
    && (!Exhausted(w.row) ==> w.triggers == 0)
    && w.triggers <= w.triggersEver && (w.epoch == 0 ==> w.triggers == w.triggersEver)
    && w.resolves <= (if w.row.status == Revoked then 1 else 0)
    && (w.resolves > 0 ==> w.triggersEver > 0)
  }

  ghost predicate CallOk(w: World, c: Call) {
    && c.startedAt <= w.time
    && (Working(c) ==> w.time <= c.claimedAt + STALE_CLAIM_MS)
    && (Live(c) && !c.phase.Started? ==>
          && c.priorEpoch <= w.epoch
          && (AlertedBefore(c) ==> w.triggersEver > 0)
          && (c.priorStatus == Failed ==> c.priorAttempts >= MAX_REVOKE_ATTEMPTS)
          && (c.priorEpoch == w.epoch ==> c.priorAttempts <= w.row.attempts)
          && (c.job.Revoke? ==> c.priorStatus == Active || c.priorStatus == Failed)
          // A reading below the maximum was taken before the maximum was reached.
          && (Exhausted(w.row) && !AlertedBefore(c) ==> c.startedAt <= w.exhaustedAt && (Working(c) && c.job.Revoke? ==> w.late)))
    && (Working(c) ==>
          w.row.status == Pending && w.row.updatedAt == c.claimedAt && c.startedAt <= c.claimedAt)
    && (c.phase.Loaded? || c.phase.HostDone? ==> c.attempts == w.row.attempts)
    // An extension claims an active row only.
    && (Working(c) && c.job.Extend? && Exhausted(w.row) ==> w.time > w.exhaustedAt + STALE_CLAIM_MS)
  }

  ghost predicate OneWorker(w: World) {
    forall i, j :: 0 <= i < j < |w.calls| ==> !(Working(w.calls[i]) && Working(w.calls[j]))
  }

  ghost predicate Inv(w: World) {
    RowOk(w) && (forall c :: c in w.calls ==> CallOk(w, c)) && OneWorker(w)
  }

  /** While a call works, its claim cannot be stale. */
  lemma ClaimIsFresh(w: World, i: nat, sweepNow: int)
    requires Inv(w) && i < |w.calls| && Working(w.calls[i]) && sweepNow <= w.time
    ensures !Stale(w.row, sweepNow)
  {
    assert CallOk(w, w.calls[i]);
  }

  lemma TickKeepsInv(w: World, ms: nat)
    requires Inv(w) && MayPass(w, ms)
    ensures Inv(w.(time := w.time + ms))
  {
    forall c | c in w.calls ensures CallOk(w.(time := w.time + ms), c) { assert CallOk(w, c); }
  }

  /** One call changes, the row does not. */
  lemma PutKeepsInv(w: World, i: nat, c: Call)
    requires Inv(w) && i < |w.calls| && CallOk(w, c) && (Working(c) ==> Working(w.calls[i]))
    ensures Inv(Put(w, i, c))
  {
    var w' := Put(w, i, c);
    forall x | x in w'.calls ensures CallOk(w', x) {
      assert x == c || x in w.calls;
      assert CallOk(w, x);
    }
  }

  lemma ClaimKeepsInv(w: World, i: nat)
    requires Inv(w) && In(w, i, HasRead) && ClaimMatches(w, w.calls[i])
    ensures Inv(Step(w, Claim(i)))
  {
    var w' := Step(w, Claim(i));
    assert w.calls[i] in w.calls;
    assert forall x :: x in w.calls ==> CallOk(w, x) && !Working(x);
    forall x | x in w'.calls ensures CallOk(w', x) {
      if x != w'.calls[i] { assert x in w.calls; }
    }
    forall k | 0 <= k < |w'.calls| && k != i ensures !Working(w'.calls[k]) {
      assert w'.calls[k] in w.calls;
    }
  }

  lemma RecordKeepsRow(w: World, i: nat)
    requires Inv(w) && i < |w.calls| && w.calls[i].phase.HostDone?
    ensures RowOk(RecordOutcome(w, i))
  {
    assert w.calls[i] in w.calls && CallOk(w, w.calls[i]);
  }

  lemma RecordKeepsCall(w: World, i: nat, k: nat)
    requires RowOk(w) && i < |w.calls| && w.calls[i].phase.HostDone? && CallOk(w, w.calls[i])
    requires k < |w.calls| && CallOk(w, w.calls[k]) && (k != i ==> !Working(w.calls[k]))
    ensures CallOk(RecordOutcome(w, i), RecordOutcome(w, i).calls[k])
  {}

  lemma RecordKeepsInv(w: World, i: nat)
    requires Inv(w) && i < |w.calls| && w.calls[i].phase.HostDone?
    ensures Inv(RecordOutcome(w, i))
  {
    var w' := RecordOutcome(w, i);
    RecordKeepsRow(w, i);
    forall k | 0 <= k < |w'.calls|
      ensures CallOk(w', w'.calls[k]) && !Working(w'.calls[k])
    {
      assert w.calls[i] in w.calls && w.calls[k] in w.calls;
      RecordKeepsCall(w, i, k);
    }
  }

  lemma SweepKeepsInv(w: World, sweepNow: int)
    requires Inv(w) && sweepNow <= w.time && Stale(w.row, sweepNow)
    ensures Inv(Step(w, Sweep(sweepNow)))
  {
    var w' := Step(w, Sweep(sweepNow));
    forall x | x in w.calls ensures CallOk(w', x) {
      assert CallOk(w, x);
    }
  }

  lemma StartKeepsInv(w: World, job: Job)
    requires Inv(w)
    ensures Inv(Step(w, Start(job)))
  {
    var w' := Step(w, Start(job));
    forall x | x in w'.calls ensures CallOk(w', x) {
      if x in w.calls { assert CallOk(w, x); }
    }
  }

  /** A call reads, loads, hears from the host or dies: only its own record changes. */
  lemma LocalKeepsInv(w: World, a: Action)
    requires Inv(w) && (a.ReadPrior? || a.Load? || a.HostFinishes? || a.Crash?)
    ensures Inv(Step(w, a))
  {
    var i := a.i;
    if i < |w.calls| && Step(w, a) != w {
      assert w.calls[i] in w.calls && CallOk(w, w.calls[i]);
      PutKeepsInv(w, i, Step(w, a).calls[i]);
    }
  }

  lemma StepKeepsInv(w: World, a: Action)
    requires Inv(w)
    ensures Inv(Step(w, a))
  {
    match a
    case Tick(ms) => if MayPass(w, ms) { TickKeepsInv(w, ms); }
    case Start(job) => StartKeepsInv(w, job);
    case Claim(i) =>
      if In(w, i, HasRead) {
        assert w.calls[i] in w.calls && CallOk(w, w.calls[i]);
        if ClaimMatches(w, w.calls[i]) { ClaimKeepsInv(w, i); } else { PutKeepsInv(w, i, w.calls[i].(phase := Ended)); }
      }
    case Record(i) => if i < |w.calls| && w.calls[i].phase.HostDone? { RecordKeepsInv(w, i); }
    case Sweep(sweepNow) => if sweepNow <= w.time && Stale(w.row, sweepNow) { SweepKeepsInv(w, sweepNow); }
    case _ => LocalKeepsInv(w, a);
  }

  lemma {:induction false} RunKeepsInv(time: int, expiresAt: int, actions: seq<Action>)
    ensures Inv(Run(time, expiresAt, actions))
  {
    if actions != [] {
      RunKeepsInv(time, expiresAt, actions[..|actions| - 1]);
      StepKeepsInv(Run(time, expiresAt, actions[..|actions| - 1]), actions[|actions| - 1]);
    }
  }

  // ---- The properties ---------------------------------------------------------------------

  /** At most one call works on a grant's host access at a time, and the row shows its claim. */
  lemma SingleClaimant(time: int, expiresAt: int, actions: seq<Action>, i: nat, j: nat)
    requires var w := Run(time, expiresAt, actions);
      i < |w.calls| && j < |w.calls| && Working(w.calls[i]) && Working(w.calls[j])
    ensures i == j && Run(time, expiresAt, actions).row.status == Pending
  {
    RunKeepsInv(time, expiresAt, actions);
    var w := Run(time, expiresAt, actions);
    assert w.calls[i] in w.calls && CallOk(w, w.calls[i]);
  }

  /** While a call works on a grant's host access nobody may extend or revoke the grant. */
  lemma NothingAllowedMeanwhile(
    time: int, expiresAt: int, actions: seq<Action>, i: nat, isCreator: bool, mayCreate: bool, mayRevoke: bool, now: int)
    requires var w := Run(time, expiresAt, actions); i < |w.calls| && Working(w.calls[i])
    ensures GrantPermissions(Run(time, expiresAt, actions).row, isCreator, mayCreate, mayRevoke, now) == Permissions(false, false)
  {
    SingleClaimant(time, expiresAt, actions, i, i);
  }

  /** Who may do what, by role. Whoever may create grants and made this one, or may create and revoke,
      may extend it while an extension can still claim it, and revoke it while a manual revocation can;
      whoever may only revoke may only revoke; and anybody else may do nothing. */
  lemma PermissionsByRole(row: Row, isCreator: bool, mayCreate: bool, mayRevoke: bool, now: int)
    ensures var p := GrantPermissions(row, isCreator, mayCreate, mayRevoke, now);
      var extendable := row.status == Active && now < row.expiresAt;
      var revocable := row.status !in {Pending, Revoked};
      && (mayCreate && (isCreator || mayRevoke) ==> p == Permissions(extendable, revocable))
      && (mayRevoke && !mayCreate ==> p == Permissions(false, revocable))
      && (!mayRevoke && !(isCreator && mayCreate) ==> p == Permissions(false, false))
  {}

  /** Whoever may extend, or revoke, is offered it exactly while a call started now could claim the row. */
  lemma PermittedMayClaim(w: World, c: Call, isCreator: bool, mayCreate: bool, mayRevoke: bool)
    requires mayCreate && (isCreator || mayRevoke)
    ensures var p := GrantPermissions(w.row, isCreator, mayCreate, mayRevoke, c.startedAt);
      && (c.job.Extend? ==> (p.canExtend <==> ClaimMatches(w, c)))
      && (c.job == Revoke(false) ==> (p.canRevoke <==> Claimable(c, w.row.status)))
  {}

  /** What a call's outcome does to the row: a successful extension reactivates it with the new expiry and
      no attempts, a failed one gives the claim back; a successful revocation ends the grant, and a failed
      one counts one more attempt, after which the row is active again, or failed at the fifth. */
  lemma OutcomeSays(w: World, i: nat)
    requires i < |w.calls| && w.calls[i].phase.HostDone?
    ensures var c, row := w.calls[i], Step(w, Record(i)).row;
      && row.updatedAt == w.time
      && (c.job.Extend? && c.phase.ok ==> row.status == Active && row.expiresAt == c.job.expiresAt && row.attempts == 0)
      && (c.job.Extend? && !c.phase.ok ==> row.status == Active && row.expiresAt == w.row.expiresAt && row.attempts == w.row.attempts)
      && (c.job.Revoke? ==> row.expiresAt == w.row.expiresAt)
      && (c.job.Revoke? && c.phase.ok ==> row.status == Revoked && row.attempts == w.row.attempts)
      && (c.job.Revoke? && !c.phase.ok ==>
            row.attempts == c.attempts + 1 && row.status == if c.attempts + 1 >= 5 then Failed else Active)
  {}

  /** Nothing but a successful extension moves the expiry. */
  lemma OnlyExtensionsMoveExpiry(w: World, a: Action)
    requires Step(w, a).row.expiresAt != w.row.expiresAt
    ensures a.Record? && a.i < |w.calls| && w.calls[a.i].phase == HostDone(true) && w.calls[a.i].job == Extend(Step(w, a).row.expiresAt)
  {}

  /** Some revocation claimed the row more than a quarter of an hour after it had read it. */
  predicate ClaimedLate(time: int, expiresAt: int, actions: seq<Action>) {
    actions != [] &&
      var init, a := actions[..|actions| - 1], actions[|actions| - 1];
      var w := Run(time, expiresAt, init);
      || ClaimedLate(time, expiresAt, init)
      || (a.Claim? && In(w, a.i, HasRead) && ClaimMatches(w, w.calls[a.i]) && w.calls[a.i].job.Revoke?
          && w.time - w.calls[a.i].startedAt > 900_000)
  }

  lemma {:induction false} LateIff(time: int, expiresAt: int, actions: seq<Action>)
    ensures Run(time, expiresAt, actions).late <==> ClaimedLate(time, expiresAt, actions)
  {
    if actions != [] {
      LateIff(time, expiresAt, actions[..|actions| - 1]);
    }
  }

  /** A revoked grant stays revoked. */
  lemma RevokedIsAbsorbing(time: int, expiresAt: int, actions: seq<Action>, a: Action)
    requires Run(time, expiresAt, actions).row.status == Revoked
    ensures Step(Run(time, expiresAt, actions), a).row == Run(time, expiresAt, actions).row
  {
    RunKeepsInv(time, expiresAt, actions);
    var w := Run(time, expiresAt, actions);
    assert forall c :: c in w.calls ==> CallOk(w, c);
    if a.Record? && a.i < |w.calls| { assert w.calls[a.i] in w.calls; }
    if a.Claim? && a.i < |w.calls| { assert w.calls[a.i] in w.calls; }
  }

  /** Over every interleaving: `failed` means the attempts are used up, without which no alert is open;
      used up means that somebody was alerted at some time; and a resolve comes at most once, only
      after an alert. */
  lemma AlertsAreBounded(time: int, expiresAt: int, actions: seq<Action>)
    ensures var w := Run(time, expiresAt, actions);
      && (w.row.status == Failed ==> Exhausted(w.row))
      && (!Exhausted(w.row) ==> w.triggers == 0)
      && (!w.late ==> w.triggers <= 1)
      && (Exhausted(w.row) ==> w.triggersEver > 0)
      && w.resolves <= 1 && (w.resolves > 0 ==> w.triggersEver > 0)
  {
    RunKeepsInv(time, expiresAt, actions);
    if Exhausted(Run(time, expiresAt, actions).row) {
      AlertsSinceExhaustion(time, expiresAt, actions);
    }
  }

  // ---- Who is alerted when the attempts run out --------------------------------------------------

  /** A revocation whose host step failed, about to record that. */
  predicate Fails(w: World, a: Action) {
    a.Record? && a.i < |w.calls| && w.calls[a.i].phase == HostDone(false) && w.calls[a.i].job.Revoke?
  }

  /** In every reachable world, for the call about to record a failure that uses up the attempts:
      it alerts exactly when its reading was not failed and below the maximum. When the row was
      below the maximum until now, a reading at the maximum is one from before the last extension;
      when it was not, a reading below the maximum belongs to a call that claimed late. */
  lemma ExhaustionAlertsIff(time: int, expiresAt: int, actions: seq<Action>, i: nat)
    requires Fails(Run(time, expiresAt, actions), Record(i)) && Exhausted(Step(Run(time, expiresAt, actions), Record(i)).row)
    ensures var w := Run(time, expiresAt, actions);
      var c, w' := w.calls[i], Step(w, Record(i));
      && w'.triggers == w.triggers + (if c.priorStatus != Failed && c.priorAttempts < MAX_REVOKE_ATTEMPTS then 1 else 0)
      && (c.priorStatus == Failed ==> c.priorAttempts >= MAX_REVOKE_ATTEMPTS)
      && (!Exhausted(w.row) && c.priorAttempts >= MAX_REVOKE_ATTEMPTS ==> c.priorEpoch < w.epoch)
      && (Exhausted(w.row) && c.priorAttempts < MAX_REVOKE_ATTEMPTS ==> w.late)
  {
    RunKeepsInv(time, expiresAt, actions);
    var w := Run(time, expiresAt, actions);
    assert w.calls[i] in w.calls && CallOk(w, w.calls[i]);
  }

  /** Only a recorded failure uses up the attempts; while they are used up there is no extension,
      and alerts come from recorded failures only. */
  lemma StepAlerts(w: World, a: Action)
    requires Inv(w) && Exhausted(Step(w, a).row)
    ensures !Exhausted(w.row) ==> Fails(w, a)
    ensures Step(w, a).epoch == w.epoch
    ensures Step(w, a).triggers == w.triggers + (if Fails(w, a) && !AlertedBefore(w.calls[a.i]) then 1 else 0)
    ensures w.late ==> Step(w, a).late
  {
    if a.Record? && a.i < |w.calls| && w.calls[a.i].phase.HostDone? {
      assert w.calls[a.i] in w.calls && CallOk(w, w.calls[a.i]);
    }
  }

  /** The call whose failure used up the attempts, as it was when it recorded it. */
  ghost function Exhauster(time: int, expiresAt: int, actions: seq<Action>): Call
    requires Exhausted(Run(time, expiresAt, actions).row)
  {
    var init, a := actions[..|actions| - 1], actions[|actions| - 1];
    RunKeepsInv(time, expiresAt, init);
    StepAlerts(Run(time, expiresAt, init), a);
    if Exhausted(Run(time, expiresAt, init).row) then Exhauster(time, expiresAt, init)
    else Run(time, expiresAt, init).calls[a.i]
  }

  /** How often since then a call with a reading from before has recorded another failure. */
  function Repeats(time: int, expiresAt: int, actions: seq<Action>): nat {
    if actions == [] || !Exhausted(Run(time, expiresAt, actions).row) then 0
    else
      var init, a := actions[..|actions| - 1], actions[|actions| - 1];
      var w := Run(time, expiresAt, init);
      Repeats(time, expiresAt, init) + if Exhausted(w.row) && Fails(w, a) && w.calls[a.i].priorAttempts < MAX_REVOKE_ATTEMPTS then 1 else 0
  }

  /** Over all runs: since the attempts ran out there has been one alert if the call that used them up
      had a reading below the maximum, and none if its reading, from before the last extension, was at
      it; and one more for each later failure of a call that claimed late. */
  lemma {:induction false} AlertsSinceExhaustion(time: int, expiresAt: int, actions: seq<Action>)
    requires Exhausted(Run(time, expiresAt, actions).row)
    ensures var w, c := Run(time, expiresAt, actions), Exhauster(time, expiresAt, actions);
      && c.job.Revoke? && c.phase == HostDone(false) && c.attempts + 1 == MAX_REVOKE_ATTEMPTS
      && w.triggers == (if c.priorAttempts < MAX_REVOKE_ATTEMPTS then 1 else 0) + Repeats(time, expiresAt, actions)
      && (c.priorAttempts >= MAX_REVOKE_ATTEMPTS ==> c.priorEpoch < w.epoch)
      && (Repeats(time, expiresAt, actions) > 0 ==> w.late)
  {
    var init, a := actions[..|actions| - 1], actions[|actions| - 1];
    var w := Run(time, expiresAt, init);
    RunKeepsInv(time, expiresAt, init);
    StepAlerts(w, a);
    if Fails(w, a) { ExhaustionAlertsIff(time, expiresAt, init, a.i); }
    if Exhausted(w.row) {
      AlertsSinceExhaustion(time, expiresAt, init);
    } else {
      assert w.calls[a.i] in w.calls && CallOk(w, w.calls[a.i]);
    }
  }

  /** The attempts are used up and nobody has been alerted since the last extension exactly when the
      call that used them up had read them as used up, before that extension, and no call that
      claimed late has failed since. */
  lemma ExhaustionIsSilentIff(time: int, expiresAt: int, actions: seq<Action>)
    ensures var w := Run(time, expiresAt, actions);
      Exhausted(w.row) && w.triggers == 0 <==>
        Exhausted(w.row) && Repeats(time, expiresAt, actions) == 0
        && Exhauster(time, expiresAt, actions).priorAttempts >= MAX_REVOKE_ATTEMPTS
        && Exhauster(time, expiresAt, actions).priorEpoch < w.epoch
  {
    if Exhausted(Run(time, expiresAt, actions).row) {
      AlertsSinceExhaustion(time, expiresAt, actions);
    }
  }

  /** Where every revocation claims within STALE_CLAIM_MS of its start, running out of attempts raises one
      alert, unless the call that used them up had read them as used up before an extension. */
  lemma ExhaustionIsAnnounced(time: int, expiresAt: int, actions: seq<Action>)
    requires !Run(time, expiresAt, actions).late
    ensures var w := Run(time, expiresAt, actions);
      && w.triggers <= 1
      && (w.epoch == 0 ==> (Exhausted(w.row) <==> w.triggers == 1))
      && (Exhausted(w.row) ==> (w.triggers == 1 <==> Exhauster(time, expiresAt, actions).priorAttempts < MAX_REVOKE_ATTEMPTS))
  {
    AlertsAreBounded(time, expiresAt, actions);
    if Exhausted(Run(time, expiresAt, actions).row) {
      AlertsSinceExhaustion(time, expiresAt, actions);
    }
  }

  // ---- Incidents that outlive the grant -----------------------------------------------------------

  /** A failure has been announced and nothing has closed that incident. */
  predicate IncidentOpen(w: World) {
    w.triggersEver > 0 && w.resolves == 0
  }

  /** A revocation that removed the access, about to record that. */
  predicate Succeeds(w: World, a: Action) {
    a.Record? && a.i < |w.calls| && w.calls[a.i].phase == HostDone(true) && w.calls[a.i].job.Revoke?
  }

  /** Only a recorded revocation ends a grant, and after it nothing changes. */
  lemma StepEnds(w: World, a: Action)
    requires Inv(w) && Step(w, a).row.status == Revoked
    ensures w.row.status != Revoked ==> Succeeds(w, a)
    ensures w.row.status == Revoked ==> Step(w, a) == w.(time := Step(w, a).time, calls := Step(w, a).calls)
  {
    assert forall c :: c in w.calls ==> CallOk(w, c);
    if a.Record? && a.i < |w.calls| { assert w.calls[a.i] in w.calls; }
    if a.Claim? && a.i < |w.calls| { assert w.calls[a.i] in w.calls; }
  }

  /** The call that ended the grant, as it was when it recorded that. */
  ghost function Revoker(time: int, expiresAt: int, actions: seq<Action>): Call
    requires Run(time, expiresAt, actions).row.status == Revoked
  {
    var init, a := actions[..|actions| - 1], actions[|actions| - 1];
    RunKeepsInv(time, expiresAt, init);
    StepEnds(Run(time, expiresAt, init), a);
    if Run(time, expiresAt, init).row.status == Revoked then Revoker(time, expiresAt, init)
    else Run(time, expiresAt, init).calls[a.i]
  }

  /** What a grant that has ended leaves behind: an incident stays open exactly when the call that ended
      it had read the attempts as not used up. If that reading is from after the last extension and no
      revocation claimed late, it is when they are not used up, and then the last alert came
      before that extension. */
  ghost predicate LeavesIncident(w: World, c: Call) {
    && c.job.Revoke? && c.phase == HostDone(true)
    && (IncidentOpen(w) <==> w.triggersEver > 0 && c.priorAttempts < MAX_REVOKE_ATTEMPTS)
    && (c.priorEpoch == w.epoch && !w.late ==>
          && (IncidentOpen(w) <==> w.triggersEver > 0 && !Exhausted(w.row))
          && (IncidentOpen(w) ==> w.triggers == 0 && w.epoch > 0))
  }

  lemma EndingLeaves(w: World, a: Action)
    requires Inv(w) && Succeeds(w, a) && w.row.status != Revoked
    ensures LeavesIncident(Step(w, a), w.calls[a.i])
  {
    assert w.calls[a.i] in w.calls && CallOk(w, w.calls[a.i]);
  }

  lemma {:induction false} IncidentOutlivesGrantIff(time: int, expiresAt: int, actions: seq<Action>)
    requires Run(time, expiresAt, actions).row.status == Revoked
    ensures LeavesIncident(Run(time, expiresAt, actions), Revoker(time, expiresAt, actions))
  {
    var init, a := actions[..|actions| - 1], actions[|actions| - 1];
    var w := Run(time, expiresAt, init);
    RunKeepsInv(time, expiresAt, init);
    StepEnds(w, a);
    if w.row.status == Revoked {
      IncidentOutlivesGrantIff(time, expiresAt, init);
    } else {
      EndingLeaves(w, a);
    }
  }

  // ---- How readings that are too old go wrong ---------------------------------------------------

  function Trace(w: World, actions: seq<Action>): World
    decreases |actions|
  {
    if actions == [] then w else Trace(Step(w, actions[0]), actions[1..])
  }

  lemma {:induction false} TraceAppend(w: World, a: seq<Action>, b: seq<Action>)
    ensures Trace(w, a + b) == Trace(Trace(w, a), b)
    decreases |a|
  {
    if a == [] {
      assert a + b == b;
    } else {
      assert (a + b)[1..] == a[1..] + b;
      TraceAppend(Step(w, a[0]), a[1..], b);
    }
  }

  lemma {:induction false} RunIsTrace(time: int, expiresAt: int, actions: seq<Action>)
    ensures Run(time, expiresAt, actions) == Trace(Init(time, expiresAt), actions)
  {
    if actions != [] {
      var init, last := actions[..|actions| - 1], actions[|actions| - 1];
      RunIsTrace(time, expiresAt, init);
      TraceAppend(Init(time, expiresAt), init, [last]);
      assert actions == init + [last];
      assert Trace(Trace(Init(time, expiresAt), init), [last]) == Step(Trace(Init(time, expiresAt), init), last);
    }
  }

  lemma TraceOfTwo(w: World, a: Action, b: Action)
    ensures Trace(w, [a, b]) == Step(Step(w, a), b)
  {
    assert [a, b][1..] == [b] && [b][1..] == [];
    assert Trace(Step(w, a), [b]) == Step(Step(w, a), b);
  }

  lemma TraceOfFour(w: World, a: Action, b: Action, c: Action, d: Action)
    ensures Trace(w, [a, b, c, d]) == Step(Step(Step(Step(w, a), b), c), d)
  {
    assert [a, b, c, d] == [a, b] + [c, d];
    TraceAppend(w, [a, b], [c, d]);
    TraceOfTwo(w, a, b);
    TraceOfTwo(Step(Step(w, a), b), c, d);
  }

  /** Call `n` from its reading to its claim, and from its claim to its failure. */
  function Reads(n: nat, job: Job): seq<Action> {
    [Start(job), ReadPrior(n)]
  }

  function Works(n: nat, ok: bool): seq<Action> {
    [Claim(n), Load(n), HostFinishes(n, ok), Record(n)]
  }

  /** The call that has read the row as it is. */
  function Reading(w: World, job: Job): Call {
    Call(job, w.time, HasRead, w.row.status, w.row.attempts, w.epoch, 0, 0)
  }

  lemma ReadsRow(w: World, job: Job)
    requires if job.Revoke? then !job.automatic && (w.row.status == Active || w.row.status == Failed) else Extendable(w.row, w.time)
    ensures Trace(w, Reads(|w.calls|, job)) == w.(calls := w.calls + [Reading(w, job)])
  {
    var n := |w.calls|;
    var c := Call(job, w.time, Started, Active, 0, 0, 0, 0);
    var w1 := Step(w, Start(job));
    assert w1.calls == w.calls + [c] && w1.calls[n] == c;
    var w2 := Step(w1, ReadPrior(n));
    assert w2.calls == w.calls + [Reading(w, job)];
    TraceOfTwo(w, Start(job), ReadPrior(n));
  }

  /** What the claim, the load and the host step make of it. */
  function Finished(w: World, n: nat, ok: bool): World
    requires n < |w.calls|
  {
    Put(w, n, w.calls[n].(phase := HostDone(ok), claimedAt := w.time, attempts := w.row.attempts)).(
      row := ClaimedRow(w.row, w.time), late := w.late || ClaimsLate(w, w.calls[n]))
  }

  /** The row claimed, and call `n` as given. */
  function Later(w: World, n: nat, c: Call): World
    requires n < |w.calls|
  {
    Put(w, n, c).(row := ClaimedRow(w.row, w.time), late := w.late || ClaimsLate(w, w.calls[n]))
  }

  lemma LaterStill(w: World, n: nat, a: Call, b: Call)
    requires n < |w.calls|
    ensures Put(Later(w, n, a), n, b) == Later(w, n, b)
  {
    assert w.calls[n := a][n := b] == w.calls[n := b];
  }

  lemma WorksOnHost(w: World, n: nat, ok: bool)
    requires In(w, n, HasRead) && ClaimMatches(w, w.calls[n])
    ensures Trace(w, Works(n, ok)) == RecordOutcome(Finished(w, n, ok), n)
  {
    var c1 := w.calls[n].(phase := Claimed, claimedAt := w.time);
    var c2 := c1.(phase := Loaded, attempts := w.row.attempts);
    var c3 := c2.(phase := HostDone(ok));
    assert Step(w, Claim(n)) == Later(w, n, c1);
    LaterStill(w, n, c1, c2);
    assert Step(Later(w, n, c1), Load(n)) == Later(w, n, c2);
    LaterStill(w, n, c2, c3);
    assert Step(Later(w, n, c2), HostFinishes(n, ok)) == Later(w, n, c3) == Finished(w, n, ok);
    TraceOfFour(w, Claim(n), Load(n), HostFinishes(n, ok), Record(n));
  }

  /** `k` revocations by hand, one after the other, each failing on the host. */
  function FailTimes(n: nat, k: nat): seq<Action>
    decreases k
  {
    if k == 0 then [] else Reads(n, Revoke(false)) + Works(n, false) + FailTimes(n + 1, k - 1)
  }

  /** The facts of a world that a later call can see. */
  predicate Looks(w: World, time: int, status: Status, attempts: int, epoch: nat, triggers: nat, calls: nat) {
    w.time == time && w.row.status == status && w.row.attempts == attempts && w.epoch == epoch && w.triggers == triggers && |w.calls| == calls
  }

  lemma FailsOnce(w: World) returns (w2: World)
    requires w.row.status == Active && 0 <= w.row.attempts < MAX_REVOKE_ATTEMPTS
    ensures w2 == Trace(w, Reads(|w.calls|, Revoke(false)) + Works(|w.calls|, false))
    ensures var last := w.row.attempts + 1 == MAX_REVOKE_ATTEMPTS;
      Looks(w2, w.time, if last then Failed else Active, w.row.attempts + 1, w.epoch, w.triggers + (if last then 1 else 0), |w.calls| + 1)
    ensures w2.calls[..|w.calls|] == w.calls && !Live(w2.calls[|w.calls|]) && w2.row.expiresAt == w.row.expiresAt
  {
    var n := |w.calls|;
    ReadsRow(w, Revoke(false));
    var w1 := w.(calls := w.calls + [Reading(w, Revoke(false))]);
    WorksOnHost(w1, n, false);
    w2 := RecordOutcome(Finished(w1, n, false), n);
    TraceAppend(w, Reads(n, Revoke(false)), Works(n, false));
  }

  lemma {:induction false} FailsTimes(w: World, k: nat)
    requires w.row.status == Active && 0 <= w.row.attempts && w.row.attempts + k <= MAX_REVOKE_ATTEMPTS
    ensures var w' := Trace(w, FailTimes(|w.calls|, k));
      && Looks(w', w.time, if k > 0 && w.row.attempts + k == MAX_REVOKE_ATTEMPTS then Failed else Active, w.row.attempts + k, w.epoch,
               w.triggers + (if k > 0 && w.row.attempts + k == MAX_REVOKE_ATTEMPTS then 1 else 0), |w.calls| + k)
      && w'.calls[..|w.calls|] == w.calls
      && (forall i :: |w.calls| <= i < |w'.calls| ==> !Live(w'.calls[i]))
      && w'.row.expiresAt == w.row.expiresAt
    decreases k
  {
    if k > 0 {
      var n := |w.calls|;
      var w2 := FailsOnce(w);
      TraceAppend(w, Reads(n, Revoke(false)) + Works(n, false), FailTimes(n + 1, k - 1));
      if k > 1 {
        FailsTimes(w2, k - 1);
        assert Trace(w2, FailTimes(n + 1, k - 1)).calls[..n] == w2.calls[..n];
      }
    }
  }

  /** A retry of the failed grant crashes, and the sweeper gives its claim back. */
  function CrashedRetry(n: nat, now: int): seq<Action> {
    Reads(n, Revoke(false)) + [Claim(n), Crash(n), Tick(STALE_CLAIM_MS + 1), Sweep(now + STALE_CLAIM_MS + 1)]
  }

  /** Five failures exhaust the grant; a retry crashes and its claim goes stale; then one call reads
      the row, and an extension succeeds before it claims. */
  function UntilExtended(time: int, later: int): seq<Action> {
    FailTimes(0, 5) + CrashedRetry(5, time) + Reads(6, Revoke(false)) + (Reads(7, Extend(later)) + Works(7, true))
  }

  lemma RetryGoesStale(w: World, n: nat, now: int)
    requires Looks(w, now, Failed, 5, 0, 1, n) && (forall c :: c in w.calls ==> !Working(c))
    ensures var w' := Trace(w, CrashedRetry(n, now));
      && Looks(w', now + STALE_CLAIM_MS + 1, Active, 5, 0, 1, n + 1) && w'.row.expiresAt == w.row.expiresAt
      && w'.calls[..n] == w.calls
  {
    ReadsRow(w, Revoke(false));
    var rest := [Claim(n), Crash(n), Tick(STALE_CLAIM_MS + 1), Sweep(now + STALE_CLAIM_MS + 1)];
    TraceAppend(w, Reads(n, Revoke(false)), rest);
    var w1 := w.(calls := w.calls + [Reading(w, Revoke(false))]);
    assert w1.calls[n] == Reading(w, Revoke(false));
    var w2 := Step(w1, Claim(n));
    var w3 := Step(w2, Crash(n));
    assert forall i :: 0 <= i < n ==> w3.calls[i] in w.calls;
    assert forall c :: c in w3.calls ==> !Working(c);
    var w4 := Step(w3, Tick(STALE_CLAIM_MS + 1));
    var w5 := Step(w4, Sweep(now + STALE_CLAIM_MS + 1));
    TraceOfFour(w1, Claim(n), Crash(n), Tick(STALE_CLAIM_MS + 1), Sweep(now + STALE_CLAIM_MS + 1));
  }

  lemma {:induction false} AlertsStay(w: World, actions: seq<Action>)
    ensures Trace(w, actions).triggersEver >= w.triggersEver
    decreases |actions|
  {
    if actions != [] { AlertsStay(Step(w, actions[0]), actions[1..]); }
  }

  /** One call from its reading to its end. */
  lemma CallRuns(w: World, job: Job) returns (f: World, w2: World)
    requires if job.Revoke? then !job.automatic && (w.row.status == Active || w.row.status == Failed) else Extendable(w.row, w.time)
    ensures var n := |w.calls|;
      && f == Finished(w.(calls := w.calls + [Reading(w, job)]), n, true)
      && w2 == RecordOutcome(f, n) == Trace(w, Reads(n, job) + Works(n, true))
  {
    var n := |w.calls|;
    ReadsRow(w, job);
    var w1 := w.(calls := w.calls + [Reading(w, job)]);
    assert w1.calls[n] == Reading(w, job);
    WorksOnHost(w1, n, true);
    f, w2 := Finished(w1, n, true), RecordOutcome(Finished(w1, n, true), n);
    TraceAppend(w, Reads(n, job), Works(n, true));
  }

  /** A failure is announced, the grant is extended and then revoked: the incident stays open. */
  lemma ExtensionLeavesIncident(time: int, expiresAt: int, later: int)
    requires expiresAt > time + STALE_CLAIM_MS + 1
    ensures var w := Run(time, expiresAt,
              FailTimes(0, 5) + CrashedRetry(5, time) + (Reads(6, Extend(later)) + Works(6, true)) + (Reads(7, Revoke(false)) + Works(7, true)));
      w.row.status == Revoked && IncidentOpen(w)
  {
    var w0 := Init(time, expiresAt);
    var a1, a2, a3, a4 := FailTimes(0, 5), CrashedRetry(5, time), Reads(6, Extend(later)) + Works(6, true), Reads(7, Revoke(false)) + Works(7, true);
    FailsTimes(w0, 5);
    var w1 := Trace(w0, a1);
    RunIsTrace(time, expiresAt, a1);
    RunKeepsInv(time, expiresAt, a1);
    RetryGoesStale(w1, 5, time);
    var w2 := Trace(w1, a2);
    AlertsStay(w1, a2);
    ExtendedThenRevoked(w2, later);
    TraceOfFourParts(w0, a1, a2, a3, a4);
    TraceAppend(w0, a1, a2);
    RunIsTrace(time, expiresAt, a1 + a2);
    RunKeepsInv(time, expiresAt, a1 + a2);
    RunIsTrace(time, expiresAt, a1 + a2 + a3 + a4);
  }

  lemma ExtendedThenRevoked(w: World, later: int)
    requires |w.calls| == 6 && Extendable(w.row, w.time)
    ensures var w' := Trace(Trace(w, Reads(6, Extend(later)) + Works(6, true)), Reads(7, Revoke(false)) + Works(7, true));
      w'.row.status == Revoked && w'.triggersEver == w.triggersEver && w'.resolves == w.resolves
  {
    var f, w2 := CallRuns(w, Extend(later));
    assert w2.row.status == Active && w2.row.attempts == 0 && |w2.calls| == 7;
    var f2, w3 := CallRuns(w2, Revoke(false));
  }

  /** Then four more failures and the old reader's own: the attempts run out with no alert since the
      extension, because the reader still believes the alert of before. */
  lemma OldReadingSilencesExhaustion(time: int, expiresAt: int, later: int)
    requires expiresAt > time + STALE_CLAIM_MS + 1
    ensures var w := Run(time, expiresAt, UntilExtended(time, later) + FailTimes(8, 4) + Works(6, false));
      w.row.status == Failed && Exhausted(w.row) && w.epoch == 1 && w.triggers == 0
  {
    var now := time + STALE_CLAIM_MS + 1;
    var w0 := Init(time, expiresAt);
    var a1, a2 := FailTimes(0, 5), CrashedRetry(5, time);
    var a3, a4, a5, a6 := Reads(6, Revoke(false)), Reads(7, Extend(later)) + Works(7, true), FailTimes(8, 4), Works(6, false);
    FailsTimes(w0, 5);
    var w1 := Trace(w0, a1);
    RetryGoesStale(w1, 5, time);
    var w2 := Trace(w1, a2);
    ReadsRow(w2, Revoke(false));
    var w3 := Trace(w2, a3);
    assert w3.calls[6] == Reading(w2, Revoke(false));
    ReadsRow(w3, Extend(later));
    TraceAppend(w3, Reads(7, Extend(later)), Works(7, true));
    var w3' := w3.(calls := w3.calls + [Reading(w3, Extend(later))]);
    assert w3'.calls[7] == Reading(w3, Extend(later)) && w3'.calls[6] == w3.calls[6];
    WorksOnHost(w3', 7, true);
    var w4 := Trace(w3, a4);
    assert w4.calls[6] == w3.calls[6] && Looks(w4, now, Active, 0, 1, 0, 8);
    FailsTimes(w4, 4);
    var w5 := Trace(w4, a5);
    assert w5.calls[6] == w5.calls[..8][6] == w4.calls[6];
    WorksOnHost(w5, 6, false);
    TraceAppend(w0, a1, a2);
    TraceAppend(w0, a1 + a2, a3);
    TraceAppend(w0, a1 + a2 + a3, a4);
    TraceAppend(w0, UntilExtended(time, later), a5);
    TraceAppend(w0, UntilExtended(time, later) + a5, a6);
    RunIsTrace(time, expiresAt, UntilExtended(time, later) + a5 + a6);
  }

  /** A revocation reads the row and stalls; others use up the attempts, a retry crashes and its claim
      goes stale; then the first one claims the grant, fails, and alerts once more. */
  lemma LateClaimAlertsTwice(time: int, expiresAt: int)
    ensures var w := Run(time, expiresAt, Reads(0, Revoke(false)) + FailTimes(1, 5) + CrashedRetry(6, time) + Works(0, false));
      Exhausted(w.row) && w.epoch == 0 && w.triggers == 2 && w.late
  {
    var w0 := Init(time, expiresAt);
    var w1 := Stalls(w0);
    var w2 := OthersExhaust(w1, 1, 5);
    RetryGoesStale(w2, 6, time);
    var w3 := Trace(w2, CrashedRetry(6, time));
    assert w3.calls[0] == w3.calls[..6][0] == w2.calls[0];
    FailsLate(w3, time);
    TraceOfFourParts(w0, Reads(0, Revoke(false)), FailTimes(1, 5), CrashedRetry(6, time), Works(0, false));
    RunIsTrace(time, expiresAt, Reads(0, Revoke(false)) + FailTimes(1, 5) + CrashedRetry(6, time) + Works(0, false));
  }

  lemma Stalls(w: World) returns (w1: World)
    requires w.calls == [] && w.row.status == Active
    ensures w1 == Trace(w, Reads(0, Revoke(false))) == w.(calls := [Reading(w, Revoke(false))])
  {
    ReadsRow(w, Revoke(false));
    w1 := Trace(w, Reads(0, Revoke(false)));
    assert w.calls + [Reading(w, Revoke(false))] == [Reading(w, Revoke(false))];
  }

  lemma OthersExhaust(w1: World, n: nat, k: nat) returns (w2: World)
    requires |w1.calls| == n == 1 && k == 5 && w1.calls[0].phase == HasRead
    requires w1.row.status == Active && w1.row.attempts == 0 && w1.triggers == 0 && w1.epoch == 0
    ensures w2 == Trace(w1, FailTimes(n, k)) && Looks(w2, w1.time, Failed, 5, 0, 1, 6)
    ensures w2.calls[0] == w1.calls[0] && forall c :: c in w2.calls ==> !Working(c)
  {
    FailsTimes(w1, k);
    w2 := Trace(w1, FailTimes(n, k));
    assert w2.calls[0] == w2.calls[..n][0] == w1.calls[0];
  }

  lemma TraceOfFourParts(w: World, a: seq<Action>, b: seq<Action>, c: seq<Action>, d: seq<Action>)
    ensures Trace(w, a + b + c + d) == Trace(Trace(Trace(Trace(w, a), b), c), d)
  {
    TraceAppend(w, a, b);
    TraceAppend(w, a + b, c);
    TraceAppend(w, a + b + c, d);
  }

  lemma FailsLate(w: World, time: int)
    requires w.row.status == Active && w.row.attempts == 5 && w.epoch == 0 && w.triggers == 1 && w.time == time + STALE_CLAIM_MS + 1
    requires w.calls != [] && w.calls[0] == Call(Revoke(false), time, HasRead, Active, 0, 0, 0, 0)
    ensures var w' := Trace(w, Works(0, false)); Exhausted(w'.row) && w'.epoch == 0 && w'.triggers == 2 && w'.late
  {
    WorksOnHost(w, 0, false);
    var f := Finished(w, 0, false);
    assert f.late && f.row.attempts == 5 && f.triggers == 1 && f.epoch == 0;
    assert f.calls[0].phase == HostDone(false) && f.calls[0].attempts == 5 && !AlertedBefore(f.calls[0]);
  }

  // ---- Retry backoff: the WHERE clause against the pointwise delay -----------------------------

  function Pow2(n: nat): (p: nat)
    ensures p >= 1
  {
    if n == 0 then 1 else 2 * Pow2(n - 1)
  }

  function RetryDelayMs(attempts: int): int {
    if attempts <= 0 then 0
    else if Pow2(attempts - 1) * 60_000 < MAX_BACKOFF_MS then Pow2(attempts - 1) * 60_000
    else MAX_BACKOFF_MS
  }

  /** No wait before the first attempt; then one, two, four and eight minutes, and a quarter of an hour. */
  lemma RetryDelays(attempts: int)
    ensures RetryDelayMs(attempts) ==
      if attempts <= 0 then 0
      else if attempts == 1 then 60_000
      else if attempts == 2 then 120_000
      else if attempts == 3 then 240_000
      else if attempts == 4 then 480_000
      else 900_000
  {
    if attempts >= 5 { DelayCapped(attempts); }
  }

  /** One branch of the clause: attempts between the bounds, last update no later than `before`. */
  datatype Branch = Branch(least: Option<int>, most: Option<int>, before: Option<int>)

  predicate Matches(b: Branch, row: Row) {
    && (b.least.Some? ==> row.attempts >= b.least.value)
    && (b.most.Some? ==> row.attempts <= b.most.value)
    && (b.before.Some? ==> row.updatedAt <= b.before.value)
  }

  predicate MatchesAny(branches: seq<Branch>, row: Row) {
    exists i :: 0 <= i < |branches| && Matches(branches[i], row)
  }

  lemma {:induction false} DelayCapped(n: int)
    requires n >= 5
    ensures RetryDelayMs(n) == MAX_BACKOFF_MS
  {
    if n == 5 {
      assert Pow2(4) == 16 by { assert Pow2(2) == 4; }
    } else {
      DelayCapped(n - 1);
      assert Pow2(n - 1) == 2 * Pow2(n - 2);
    }
  }

  /** The clause selects exactly the rows whose pointwise delay has passed; a row that was never
      tried is selected whatever its timestamp. */
  method RetryDueWhere(now: int) returns (branches: seq<Branch>)
    ensures forall row :: MatchesAny(branches, row) <==> row.attempts <= 0 || row.updatedAt + RetryDelayMs(row.attempts) <= now
  {
    branches := AddBranch([], Branch(None, Some(0), None));
    var n := 1;
    DelayCapped(5);
    while RetryDelayMs(n) < MAX_BACKOFF_MS
      invariant 1 <= n <= 5
      invariant forall row :: MatchesAny(branches, row) <==>
        row.attempts <= 0 || (row.attempts < n && row.updatedAt + RetryDelayMs(row.attempts) <= now)
      decreases 5 - n
    {
      branches := AddBranch(branches, Branch(Some(n), Some(n), Some(now - RetryDelayMs(n))));
      n := n + 1;
    }
    forall k | k >= n ensures RetryDelayMs(k) == MAX_BACKOFF_MS {
      CapIsReached(n, k);
    }
    branches := AddBranch(branches, Branch(Some(n), None, Some(now - RetryDelayMs(n))));
  }

  lemma {:induction false} CapIsReached(n: int, k: int)
    requires 1 <= n <= k && RetryDelayMs(n) == MAX_BACKOFF_MS
    ensures RetryDelayMs(k) == MAX_BACKOFF_MS
    decreases k - n
  {
    if n < k {
      CapIsReached(n, k - 1);
      assert Pow2(k - 1) == 2 * Pow2(k - 2);
    }
  }

  function AddBranch(branches: seq<Branch>, b: Branch): (r: seq<Branch>)
    ensures forall row :: MatchesAny(r, row) <==> MatchesAny(branches, row) || Matches(b, row)
  {
    var r := branches + [b];
    assert forall row, i :: 0 <= i < |branches| && Matches(branches[i], row) ==> Matches(r[i], row);
    assert forall row :: Matches(b, row) ==> Matches(r[|branches|], row);
    r
  }

  // ---- Host-side expiry ------------------------------------------------------------------------

  const DAY_MS := 86_400_000

  function CeilDiv(x: int, d: int): int
    requires d > 0
  {
    -(-x / d)
  }

  function HostAccountExpiryDay(expiresAt: int): int {
    CeilDiv(expiresAt, DAY_MS)
  }

  function KeyExpiryEpoch(expiresAt: int): int {
    CeilDiv(expiresAt, 60_000) * 60
  }

  /** The host never cuts access off before the grant expires: an account at most a day after,
      a key less than a minute after. */
  lemma HostExpiryIsBackstop(expiresAt: int)
    ensures 0 <= HostAccountExpiryDay(expiresAt) * DAY_MS - expiresAt < DAY_MS
    ensures 0 <= KeyExpiryEpoch(expiresAt) * 1000 - expiresAt < 60_000
  {}
}
