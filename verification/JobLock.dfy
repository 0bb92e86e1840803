/** Database leases: one row per job name, taken, renewed and released by conditional
    statements. `now` is read before the statement that uses it, so a statement may land
    arbitrarily late; time and other statements may pass in between. */
module JobLock {
  import opened Options

  datatype Lease = Lease(holder: string, acquiredAt: int, heartbeatAt: int, expiresAt: int)

  // ---- The statements, on the row of one name ---------------------------------

  predicate Takeable(row: Option<Lease>, now: int) {
    row.Some? && row.value.expiresAt <= now
  }

  function Taken(holder: string, now: int, ttl: int): Lease {
    Lease(holder, now, now, now + ttl)
  }

  predicate Renewable(row: Option<Lease>, holder: string, now: int) {
    row.Some? && row.value.holder == holder && row.value.expiresAt > now
  }

  function Renewed(row: Option<Lease>, holder: string, now: int, ttl: int): Option<Lease> {
    if Renewable(row, holder, now) then Some(row.value.(heartbeatAt := now, expiresAt := now + ttl)) else row
  }

  function Released(row: Option<Lease>, holder: string, now: int): Option<Lease> {
    if row.Some? && row.value.holder == holder then Some(row.value.(heartbeatAt := now, expiresAt := now)) else row
  }

  /** At every moment a lease can either be renewed by its holder or be taken by anybody, never both; and one
      that has just been released can be taken at once. */
  lemma RenewedOrTaken(lease: Lease, now: int)
    ensures Renewable(Some(lease), lease.holder, now) <==> !Takeable(Some(lease), now)
    ensures Released(Some(lease), lease.holder, now) == Some(Lease(lease.holder, lease.acquiredAt, now, now))
    ensures Takeable(Released(Some(lease), lease.holder, now), now)
    ensures forall other :: other != lease.holder ==>
      !Renewable(Some(lease), other, now) && Released(Some(lease), other, now) == Some(lease)
  {}

  /** The table behind the statements. Each touches the row of its own name only. */
  class SchedulerLockTable {
    var rows: map<string, Lease>

    function Row(name: string): Option<Lease>
      reads this
    {
      if name in rows then Some(rows[name]) else None
    }

    constructor ()
      ensures rows == map[]
    {
      rows := map[];
    }

    /** The conditional UPDATE of acquireJobLock; `count` is the verdict. */
    method UpdateExpired(name: string, holder: string, now: int, ttl: int) returns (count: nat)
      modifies this
      ensures count == if Takeable(old(Row(name)), now) then 1 else 0
      ensures rows == if count == 1 then old(rows)[name := Taken(holder, now, ttl)] else old(rows)
    {
      if name in rows && rows[name].expiresAt <= now {
        rows := rows[name := Lease(holder, now, now, now + ttl)];
        return 1;
      }
      count := 0;
    }

    /** The INSERT, decided by the unique index on `name`. */
    method Create(name: string, holder: string, now: int, ttl: int) returns (ok: bool)
      modifies this
      ensures ok == old(Row(name)).None?
      ensures rows == if ok then old(rows)[name := Taken(holder, now, ttl)] else old(rows)
    {
      if name in rows {
        return false;
      }
      rows := rows[name := Lease(holder, now, now, now + ttl)];
      ok := true;
    }

    method Renew(name: string, holder: string, now: int, ttl: int) returns (renewed: bool)
      modifies this
      ensures renewed == Renewable(old(Row(name)), holder, now)
      ensures Row(name) == Renewed(old(Row(name)), holder, now, ttl)
      ensures forall other :: other != name ==> Row(other) == old(Row(other))
    {
      if name in rows && rows[name].holder == holder && rows[name].expiresAt > now {
        rows := rows[name := rows[name].(heartbeatAt := now, expiresAt := now + ttl)];
        return true;
      }
      renewed := false;
    }

    method Release(name: string, holder: string, now: int)
      modifies this
      ensures Row(name) == Released(old(Row(name)), holder, now)
      ensures forall other :: other != name ==> Row(other) == old(Row(other))
    {
      if name in rows && rows[name].holder == holder {
        rows := rows[name := rows[name].(heartbeatAt := now, expiresAt := now)];
      }
    }
  }

  // ---- Many holders, one name --------------------------------------------------

  /** Where one `withJobLock` call stands. */
  datatype Phase =
    | Updating           // `now` read, UPDATE not yet run
    | Reading            // UPDATE matched nothing
    | Inserting          // the read found no row
    | Running            // the lease was won, the body runs
    | Releasing(at: int) // the body ended, the release has read its `now`
    | Done

  /** `lease` is what the row said about this session's deadline while the session owned the
      row, `own` the deadline the session itself last wrote, and `takenOver` the `now` of the
      session that took the row next. */
  datatype Session = Session(holder: string, ttl: int, hold: bool, now: int, phase: Phase,
                             won: bool, lease: int, own: int, takenOver: Option<int>)

  /** A renewal whose `now` has been read and whose UPDATE has not yet run. */
  datatype Renewal = Renewal(session: nat, now: int)

  /** `owner` is the session that last won the row. */
  datatype World = World(time: int, row: Option<Lease>, sessions: seq<Session>, renewals: seq<Renewal>, owner: Option<nat>)

  datatype Action =
    | Tick(ms: nat)
    | Start(holder: string, ttl: nat, hold: bool)
    | Update(s: nat)
    | Read(s: nat)
    | Insert(s: nat)
    | RenewRead(s: nat)
    | RenewLand(r: nat)
    | RenewFail(r: nat)
    | BodyEnd(s: nat)
    | Release(s: nat)
    | ReleaseFail(s: nat)
    | Crash(s: nat)

  function Init(time: int): World {
    World(time, None, [], [], None)
  }

  predicate Active(s: Session) {
    !s.phase.Done?
  }

  predicate In(w: World, i: nat, p: Phase) {
    i < |w.sessions| && w.sessions[i].phase == p
  }

  function Put(w: World, i: nat, s: Session): World
    requires i < |w.sessions|
  {
    w.(sessions := w.sessions[i := s])
  }

  /** The row has an owner among the sessions. */
  predicate Owned(w: World) {
    w.row.Some? && w.owner.Some? && w.owner.value < |w.sessions|
  }

  /** Session `i` wins the row. */
  function Win(w: World, i: nat): World
    requires i < |w.sessions|
  {
    var s := w.sessions[i];
    var ss := if Owned(w) then w.sessions[w.owner.value := w.sessions[w.owner.value].(takenOver := Some(s.now))] else w.sessions;
    w.(row := Some(Taken(s.holder, s.now, s.ttl)), owner := Some(i),
       sessions := ss[i := s.(phase := Running, won := true, lease := s.now + s.ttl, own := s.now + s.ttl)])
  }

  /** Session `writer` rewrites the row's deadline; the owner's lease follows the row. */
  function Rewrite(w: World, writer: nat, row: Lease): World
    requires Owned(w) && writer < |w.sessions|
  {
    var ss := w.sessions[writer := w.sessions[writer].(own := row.expiresAt)];
    w.(row := Some(row), sessions := ss[w.owner.value := ss[w.owner.value].(lease := row.expiresAt)])
  }

  function Drop(w: World, r: nat): World
    requires r < |w.renewals|
  {
    w.(renewals := w.renewals[..r] + w.renewals[r + 1..])
  }

  /** Renewal `r` would match the row. */
  predicate Effective(w: World, r: nat) {
    && r < |w.renewals| && w.renewals[r].session < |w.sessions| && Owned(w)
    && Renewable(w.row, w.sessions[w.renewals[r].session].holder, w.renewals[r].now)
  }

  function Land(w: World, r: nat): World
    requires Effective(w, r)
  {
    var x := w.renewals[r];
    var s := w.sessions[x.session];
    Rewrite(Drop(w, r), x.session, Renewed(w.row, s.holder, x.now, s.ttl).value)
  }

  /** The release would match the row. */
  predicate Releases(w: World, i: nat) {
    i < |w.sessions| && w.sessions[i].phase.Releasing? && Owned(w) && w.row.value.holder == w.sessions[i].holder
  }

  function Step(w: World, a: Action): World {
    match a
    case Tick(ms) => w.(time := w.time + ms)
    // A process may call again while an earlier call of its own is still under way.
    case Start(holder, ttl, hold) =>
      w.(sessions := w.sessions + [Session(holder, ttl, hold, w.time, Updating, false, w.time, w.time, None)])
    case Update(s) =>
      if !In(w, s, Updating) then w
      else if Takeable(w.row, w.sessions[s].now) then Win(w, s)
      else Put(w, s, w.sessions[s].(phase := Reading))
    case Read(s) =>
      if !In(w, s, Reading) then w
      else Put(w, s, w.sessions[s].(phase := if w.row.Some? then Done else Inserting))
    case Insert(s) =>
      if !In(w, s, Inserting) then w
      else if w.row.None? then Win(w, s)
      else Put(w, s, w.sessions[s].(phase := Done))
    case RenewRead(s) =>
      if !In(w, s, Running) then w else w.(renewals := w.renewals + [Renewal(s, w.time)])
    case RenewLand(r) =>
      if r >= |w.renewals| then w else if Effective(w, r) then Land(w, r) else Drop(w, r)
    case RenewFail(r) =>
      if r >= |w.renewals| then w else Drop(w, r)
    case BodyEnd(s) =>
      if !In(w, s, Running) then w
      else Put(w, s, w.sessions[s].(phase := if w.sessions[s].hold then Done else Releasing(w.time)))
    case Release(s) =>
      if s >= |w.sessions| || !w.sessions[s].phase.Releasing? then w
      else
        var w' := Put(w, s, w.sessions[s].(phase := Done));
        if Releases(w, s) then Rewrite(w', s, Released(w.row, w.sessions[s].holder, w.sessions[s].phase.at).value) else w'
    case ReleaseFail(s) =>
      if s >= |w.sessions| || !w.sessions[s].phase.Releasing? then w else Put(w, s, w.sessions[s].(phase := Done))
    case Crash(s) =>
      if s >= |w.sessions| then w else Put(w, s, w.sessions[s].(phase := Done))
  }

  function Run(time: int, actions: seq<Action>): World {
    if actions == [] then Init(time) else Step(Run(time, actions[..|actions| - 1]), actions[|actions| - 1])
  }

  // ---- What every step keeps -------------------------------------------------------

  ghost predicate OwnerOk(w: World) {
    && (w.row.Some? <==> w.owner.Some?)
    && (w.owner.Some? ==>
          && w.owner.value < |w.sessions|
          && var o := w.sessions[w.owner.value];
             && o.won && o.takenOver.None?
             && w.row.value.holder == o.holder && w.row.value.acquiredAt == o.now && w.row.value.expiresAt == o.lease)
  }

  ghost predicate SessionOk(w: World, i: nat)
    requires i < |w.sessions|
  {
    var s := w.sessions[i];
    && s.now <= w.time
    && (s.phase.Running? || s.phase.Releasing? ==> s.won)
    && (s.phase.Updating? || s.phase.Reading? || s.phase.Inserting? ==> !s.won)
    && (s.takenOver.Some? <==> s.won && w.owner != Some(i))
    && (s.takenOver.Some? ==> s.lease <= s.takenOver.value <= w.time)
    && (s.phase.Releasing? ==> !s.hold)
  }

  ghost predicate RenewalsOk(w: World) {
    forall x :: x in w.renewals ==>
      x.session < |w.sessions| && w.sessions[x.session].won && w.sessions[x.session].now <= x.now <= w.time
  }

  ghost predicate Inv(w: World) {
    && OwnerOk(w)
    && (forall i :: 0 <= i < |w.sessions| ==> SessionOk(w, i))
    && RenewalsOk(w)
  }

  lemma WinKeepsInv(w: World, i: nat)
    requires Inv(w) && i < |w.sessions| && !w.sessions[i].won
    requires w.row.None? || w.row.value.expiresAt <= w.sessions[i].now
    ensures Inv(Win(w, i))
  {
    var w' := Win(w, i);
    assert SessionOk(w, i);
    forall k | 0 <= k < |w'.sessions| ensures SessionOk(w', k) {
      assert SessionOk(w, k);
    }
  }

  /** A session moves to a later phase. */
  lemma PutKeepsInv(w: World, i: nat, p: Phase)
    requires Inv(w) && i < |w.sessions|
    requires p.Running? || p.Releasing? ==> w.sessions[i].won
    requires p.Updating? || p.Reading? || p.Inserting? ==> !w.sessions[i].won
    requires p.Releasing? ==> !w.sessions[i].hold
    ensures Inv(Put(w, i, w.sessions[i].(phase := p)))
  {
    var w' := Put(w, i, w.sessions[i].(phase := p));
    forall k | 0 <= k < |w'.sessions| ensures SessionOk(w', k) {
      assert SessionOk(w, k);
    }
  }

  lemma DropKeepsInv(w: World, r: nat)
    requires Inv(w) && r < |w.renewals|
    ensures Inv(Drop(w, r))
  {
    var w' := Drop(w, r);
    assert forall x :: x in w'.renewals ==> x in w.renewals;
    forall k | 0 <= k < |w'.sessions| ensures SessionOk(w', k) {
      assert SessionOk(w, k);
    }
  }

  lemma RewriteKeepsInv(w: World, writer: nat, row: Lease)
    requires Inv(w) && Owned(w) && writer < |w.sessions|
    requires row.holder == w.row.value.holder && row.acquiredAt == w.row.value.acquiredAt
    ensures Inv(Rewrite(w, writer, row))
  {
    var w' := Rewrite(w, writer, row);
    forall k | 0 <= k < |w'.sessions| ensures SessionOk(w', k) {
      assert SessionOk(w, k);
    }
  }

  lemma GrowKeepsInv(w: World, a: Action)
    requires Inv(w) && (a.Tick? || a.Start? || a.RenewRead?)
    ensures Inv(Step(w, a))
  {
    var w' := Step(w, a);
    forall k | 0 <= k < |w'.sessions| ensures SessionOk(w', k) {
      if k < |w.sessions| { assert SessionOk(w, k); }
    }
    if a.RenewRead? && In(w, a.s, Running) { assert SessionOk(w, a.s); }
  }

  lemma StepKeepsInv(w: World, a: Action)
    requires Inv(w)
    ensures Inv(Step(w, a))
  {
    match a
    case Tick(_) => GrowKeepsInv(w, a);
    case Start(_, _, _) => GrowKeepsInv(w, a);
    case RenewRead(_) => GrowKeepsInv(w, a);
    case Update(s) =>
      if In(w, s, Updating) {
        assert SessionOk(w, s);
        if Takeable(w.row, w.sessions[s].now) { WinKeepsInv(w, s); } else { PutKeepsInv(w, s, Reading); }
      }
    case Read(s) =>
      if In(w, s, Reading) {
        assert SessionOk(w, s);
        PutKeepsInv(w, s, if w.row.Some? then Done else Inserting);
      }
    case Insert(s) =>
      if In(w, s, Inserting) {
        assert SessionOk(w, s);
        if w.row.None? { WinKeepsInv(w, s); } else { PutKeepsInv(w, s, Done); }
      }
    case RenewLand(r) =>
      if r < |w.renewals| {
        DropKeepsInv(w, r);
        if Effective(w, r) {
          var x := w.renewals[r];
          var s := w.sessions[x.session];
          RewriteKeepsInv(Drop(w, r), x.session, Renewed(w.row, s.holder, x.now, s.ttl).value);
        }
      }
    case RenewFail(r) =>
      if r < |w.renewals| { DropKeepsInv(w, r); }
    case BodyEnd(s) =>
      if In(w, s, Running) {
        assert SessionOk(w, s);
        PutKeepsInv(w, s, if w.sessions[s].hold then Done else Releasing(w.time));
      }
    case Release(s) =>
      if s < |w.sessions| && w.sessions[s].phase.Releasing? {
        PutKeepsInv(w, s, Done);
        if Releases(w, s) {
          RewriteKeepsInv(Put(w, s, w.sessions[s].(phase := Done)), s, Released(w.row, w.sessions[s].holder, w.sessions[s].phase.at).value);
        }
      }
    case ReleaseFail(s) =>
      if s < |w.sessions| && w.sessions[s].phase.Releasing? { PutKeepsInv(w, s, Done); }
    case Crash(s) =>
      if s < |w.sessions| { PutKeepsInv(w, s, Done); }
  }

  lemma {:induction false} RunKeepsInv(time: int, actions: seq<Action>)
    ensures Inv(Run(time, actions))
  {
    if actions != [] {
      RunKeepsInv(time, actions[..|actions| - 1]);
      StepKeepsInv(Run(time, actions[..|actions| - 1]), actions[|actions| - 1]);
    }
  }

  // ---- Exclusion ------------------------------------------------------------------

  /** Session `i` won the lease and its deadline has not passed. */
  predicate Unexpired(w: World, i: nat) {
    i < |w.sessions| && w.sessions[i].won && w.sessions[i].lease > w.time
  }

  /** Over every interleaving, two sessions never both hold an unexpired lease, and the one
      that does is the one the row names. */
  lemma NoTwoUnexpired(time: int, actions: seq<Action>, i: nat, j: nat)
    requires Unexpired(Run(time, actions), i) && Unexpired(Run(time, actions), j)
    ensures i == j
    ensures var w := Run(time, actions);
      w.row.Some? && w.row.value.holder == w.sessions[i].holder && w.row.value.expiresAt == w.sessions[i].lease
  {
    RunKeepsInv(time, actions);
    assert SessionOk(Run(time, actions), i) && SessionOk(Run(time, actions), j);
  }

  /** Two bodies run at once only when one of them had been taken over, by a session whose
      `now` was at or after the deadline the row gave it. */
  lemma OverlapOnlyAfterDeadline(time: int, actions: seq<Action>, i: nat, j: nat)
    requires i != j && In(Run(time, actions), i, Running) && In(Run(time, actions), j, Running)
    ensures exists k :: (k == i || k == j) && var s := Run(time, actions).sessions[k];
      s.takenOver.Some? && s.lease <= s.takenOver.value <= Run(time, actions).time
  {
    RunKeepsInv(time, actions);
    var w := Run(time, actions);
    assert SessionOk(w, i) && SessionOk(w, j);
    assert w.sessions[if w.owner == Some(i) then j else i].takenOver.Some?;
  }

  // ---- The TTL apart ----------------------------------------------------------------

  /** A renewal or a release that matches was issued by the session that owns the row. */
  predicate OwnRenewal(w: World, a: Action) {
    a.RenewLand? && Effective(w, a.r) ==> w.owner == Some(w.renewals[a.r].session)
  }

  predicate OwnRelease(w: World, a: Action) {
    a.Release? && Releases(w, a.s) ==> w.owner == Some(a.s)
  }

  /** No renewal outlives its session into another session of the same holder. */
  predicate OwnRenewals(time: int, actions: seq<Action>) {
    actions == [] || (OwnRenewals(time, actions[..|actions| - 1]) && OwnRenewal(Run(time, actions[..|actions| - 1]), actions[|actions| - 1]))
  }

  predicate OwnReleases(time: int, actions: seq<Action>) {
    actions == [] || (OwnReleases(time, actions[..|actions| - 1]) && OwnRelease(Run(time, actions[..|actions| - 1]), actions[|actions| - 1]))
  }

  /** Every winner's deadline is the one it last wrote itself, and a holding session keeps its
      lease for the whole TTL. */
  ghost predicate LeaseIsOwn(w: World) {
    forall i :: 0 <= i < |w.sessions| ==>
      var s := w.sessions[i];
      && (s.won ==> s.lease == s.own)
      && (s.won && s.hold ==> s.lease >= s.now + s.ttl)
  }

  lemma StepKeepsOwn(w: World, a: Action)
    requires Inv(w) && LeaseIsOwn(w) && OwnRenewal(w, a) && OwnRelease(w, a)
    ensures LeaseIsOwn(Step(w, a))
  {
    if a.Release? && Releases(w, a.s) {
      assert SessionOk(w, a.s);
    }
    if a.RenewLand? && Effective(w, a.r) {
      assert w.renewals[a.r] in w.renewals;
    }
  }

  lemma {:induction false} RunKeepsOwn(time: int, actions: seq<Action>)
    requires OwnRenewals(time, actions) && OwnReleases(time, actions)
    ensures LeaseIsOwn(Run(time, actions))
  {
    if actions != [] {
      RunKeepsInv(time, actions[..|actions| - 1]);
      RunKeepsOwn(time, actions[..|actions| - 1]);
      StepKeepsOwn(Run(time, actions[..|actions| - 1]), actions[|actions| - 1]);
    }
  }

  /** When no renewal or release touches another session's lease, a lease is only ever ended by the
      deadline the session itself wrote, and with `holdUntilExpiry` acquisitions are always the TTL apart. */
  lemma OwnDeadlineEndsLease(time: int, actions: seq<Action>, i: nat)
    requires OwnRenewals(time, actions) && OwnReleases(time, actions)
    requires i < |Run(time, actions).sessions| && Run(time, actions).sessions[i].takenOver.Some?
    ensures var s := Run(time, actions).sessions[i];
      && s.own <= s.takenOver.value
      && (s.hold ==> s.takenOver.value >= s.now + s.ttl)
  {
    RunKeepsOwn(time, actions);
    RunKeepsInv(time, actions);
    assert SessionOk(Run(time, actions), i);
  }

  /** What moves the deadline of a session that owns the row: a renewal or a release of its holder. */
  datatype Change = Renewing(session: nat, now: int) | GivingUp(session: nat, at: int)

  function ChangeBy(w: World, a: Action): Option<Change> {
    if a.RenewLand? && Effective(w, a.r) then Some(Renewing(w.renewals[a.r].session, w.renewals[a.r].now))
    else if a.Release? && Releases(w, a.s) then Some(GivingUp(a.s, w.sessions[a.s].phase.at))
    else None
  }

  /** The one that last matched the row while session `i` owned it, whoever issued it. */
  function LastChange(time: int, actions: seq<Action>, i: nat): Option<Change> {
    if actions == [] then None
    else
      var w, a := Run(time, actions[..|actions| - 1]), actions[|actions| - 1];
      if w.owner == Some(i) && ChangeBy(w, a).Some? then ChangeBy(w, a) else LastChange(time, actions[..|actions| - 1], i)
  }

  /** The deadline that an acquisition, a renewal or a release asks for. */
  function Deadline(w: World, i: nat, last: Option<Change>): int
    requires i < |w.sessions| && (last.Some? ==> last.value.session < |w.sessions|)
  {
    match last
    case None => w.sessions[i].now + w.sessions[i].ttl
    case Some(Renewing(session, now)) => now + w.sessions[session].ttl
    case Some(GivingUp(_, at)) => at
  }

  /** A session's lease ends where its acquisition or the last change put it. */
  ghost predicate LeaseIsLast(w: World, i: nat, last: Option<Change>) {
    && (last.Some? ==> last.value.session < |w.sessions| && i < |w.sessions| && w.sessions[i].won)
    && (i < |w.sessions| && w.sessions[i].won ==> w.sessions[i].lease == Deadline(w, i, last))
  }

  lemma LandKeepsLast(w: World, r: nat, i: nat, last: Option<Change>)
    requires Inv(w) && LeaseIsLast(w, i, last) && Effective(w, r)
    ensures LeaseIsLast(Land(w, r), i, if w.owner == Some(i) then Some(Renewing(w.renewals[r].session, w.renewals[r].now)) else last)
  {
    assert w.renewals[r] in w.renewals;
    assert Drop(w, r).sessions == w.sessions;
  }

  lemma WinKeepsLast(w: World, k: nat, i: nat, last: Option<Change>)
    requires Inv(w) && LeaseIsLast(w, i, last) && k < |w.sessions| && !w.sessions[k].won
    ensures LeaseIsLast(Win(w, k), i, last)
  {}

  lemma ReleaseKeepsLast(w: World, k: nat, i: nat, last: Option<Change>)
    requires Inv(w) && LeaseIsLast(w, i, last)
    ensures LeaseIsLast(Step(w, Release(k)), i, if w.owner == Some(i) && Releases(w, k) then Some(GivingUp(k, w.sessions[k].phase.at)) else last)
  {}

  lemma LocalKeepsLast(w: World, a: Action, i: nat, last: Option<Change>)
    requires Inv(w) && LeaseIsLast(w, i, last)
    requires a.Tick? || a.Start? || a.RenewRead? || a.RenewFail? || a.Read? || a.BodyEnd? || a.ReleaseFail? || a.Crash?
    ensures LeaseIsLast(Step(w, a), i, last)
  {}

  lemma TryKeepsLast(w: World, a: Action, i: nat, last: Option<Change>)
    requires Inv(w) && LeaseIsLast(w, i, last) && (a.Update? || a.Insert?)
    ensures LeaseIsLast(Step(w, a), i, last)
  {
    if a.s < |w.sessions| && (w.sessions[a.s].phase.Updating? || w.sessions[a.s].phase.Inserting?) {
      assert SessionOk(w, a.s);
      WinKeepsLast(w, a.s, i, last);
    }
  }

  lemma StepKeepsLast(w: World, a: Action, i: nat, last: Option<Change>)
    requires Inv(w) && LeaseIsLast(w, i, last)
    ensures LeaseIsLast(Step(w, a), i, if w.owner == Some(i) && ChangeBy(w, a).Some? then ChangeBy(w, a) else last)
  {
    if a.RenewLand? && Effective(w, a.r) {
      LandKeepsLast(w, a.r, i, last);
    } else if a.Release? {
      ReleaseKeepsLast(w, a.s, i, last);
    } else if a.Update? || a.Insert? {
      TryKeepsLast(w, a, i, last);
    } else if !a.RenewLand? {
      LocalKeepsLast(w, a, i, last);
    }
  }

  lemma {:induction false} RunKeepsLast(time: int, actions: seq<Action>, i: nat)
    ensures LeaseIsLast(Run(time, actions), i, LastChange(time, actions, i))
  {
    if actions != [] {
      RunKeepsInv(time, actions[..|actions| - 1]);
      RunKeepsLast(time, actions[..|actions| - 1], i);
      StepKeepsLast(Run(time, actions[..|actions| - 1]), actions[|actions| - 1], i, LastChange(time, actions[..|actions| - 1], i));
    }
  }

  /** A change leaves a session its TTL: with one TTL per job a renewal does exactly when it does not
      carry a moment older than the acquisition, and a release when it comes at the TTL's end. */
  predicate LeavesTtl(s: Session, last: Option<Change>) {
    match last
    case None => true
    case Some(Renewing(_, now)) => now >= s.now
    case Some(GivingUp(_, at)) => at >= s.now + s.ttl
  }

  /** Over all runs: a lease ends where the acquisition, or the last renewal or release that matched while
      its session owned the row, put it; so the session has its whole TTL exactly when that leaves it. */
  lemma LeaseKeepsTtlIff(time: int, actions: seq<Action>, i: nat)
    requires var w := Run(time, actions); i < |w.sessions| && w.sessions[i].won
    ensures var w, last := Run(time, actions), LastChange(time, actions, i);
      var s := w.sessions[i];
      && (last.Some? ==> last.value.session < |w.sessions|)
      && s.lease == Deadline(w, i, last)
      && ((last.Some? ==> w.sessions[last.value.session].ttl == s.ttl) ==> (s.lease >= s.now + s.ttl <==> LeavesTtl(s, last)))
  {
    RunKeepsLast(time, actions, i);
  }

  /** The next acquisition comes no earlier than that, and so at least the TTL after this one if the
      last renewal or release in between does not fall short of it. */
  lemma AcquisitionsTtlApart(time: int, actions: seq<Action>, i: nat)
    requires var w := Run(time, actions); i < |w.sessions| && w.sessions[i].takenOver.Some?
    ensures var w, last := Run(time, actions), LastChange(time, actions, i);
      var s := w.sessions[i];
      && (last.Some? ==> last.value.session < |w.sessions|)
      && s.takenOver.value >= Deadline(w, i, last)
      && (Deadline(w, i, last) >= s.now + s.ttl ==> s.takenOver.value >= s.now + s.ttl)
  {
    RunKeepsInv(time, actions);
    RunKeepsLast(time, actions, i);
    assert SessionOk(Run(time, actions), i);
  }

  /** And only then: otherwise, in every run, while the TTL has not passed any process can take the
      row over before it has. */
  lemma ShortLeaseIsTaken(time: int, actions: seq<Action>, i: nat, holder: string, ttl: nat) returns (more: seq<Action>)
    requires var w, last := Run(time, actions), LastChange(time, actions, i);
      && w.owner == Some(i) && i < |w.sessions|
      && (last.Some? ==> last.value.session < |w.sessions|)
      && Deadline(w, i, last) < w.sessions[i].now + w.sessions[i].ttl && w.time < w.sessions[i].now + w.sessions[i].ttl
    ensures var s := Run(time, actions + more).sessions;
      i < |s| && s[i].takenOver.Some? && s[i].takenOver.value < s[i].now + s[i].ttl
  {
    RunKeepsInv(time, actions);
    RunKeepsLast(time, actions, i);
    var w := Run(time, actions);
    var wait := if w.sessions[i].lease > w.time then w.sessions[i].lease - w.time else 0;
    more := [Tick(wait), Start(holder, ttl, true), Update(|w.sessions|)];
    RunThree(time, actions, w, Tick(wait), Start(holder, ttl, true), Update(|w.sessions|));
    TakesOver(w, i, wait, holder, ttl);
  }

  lemma RunOne(time: int, actions: seq<Action>, w: World, a: Action)
    requires w == Run(time, actions)
    ensures Run(time, actions + [a]) == Step(w, a)
  {
    assert (actions + [a])[..|actions|] == actions;
  }

  lemma RunThree(time: int, actions: seq<Action>, w: World, a: Action, b: Action, c: Action)
    requires w == Run(time, actions)
    ensures Run(time, actions + [a, b, c]) == Step(Step(Step(w, a), b), c)
  {
    RunOne(time, actions, w, a);
    RunOne(time, actions + [a], Step(w, a), b);
    RunOne(time, actions + [a] + [b], Step(Step(w, a), b), c);
    assert actions + [a] + [b] + [c] == actions + [a, b, c];
  }

  lemma TakesOver(w: World, i: nat, wait: nat, holder: string, ttl: nat)
    requires Inv(w) && w.owner == Some(i) && i < |w.sessions| && w.time + wait >= w.sessions[i].lease
    ensures var s := Step(Step(Step(w, Tick(wait)), Start(holder, ttl, true)), Update(|w.sessions|)).sessions;
      i < |s| && s[i] == w.sessions[i].(takenOver := Some(w.time + wait))
  {
    var n := |w.sessions|;
    var w1 := Step(w, Tick(wait));
    assert w1 == w.(time := w.time + wait);
    var w2 := Step(w1, Start(holder, ttl, true));
    assert w2.sessions[i] == w.sessions[i] && w2.owner == Some(i) && Owned(w2);
    assert w2.sessions[n].now == w.time + wait && w2.sessions[n].phase == Updating;
    assert Takeable(w2.row, w.time + wait);
    assert Step(w2, Update(n)) == Win(w2, n);
  }

  // ---- Processes that make one call at a time ------------------------------------------

  predicate Idle(w: World, holder: string) {
    forall i :: 0 <= i < |w.sessions| && Active(w.sessions[i]) ==> w.sessions[i].holder != holder
  }

  /** No process calls again before its call has ended. */
  predicate OneCallEach(time: int, actions: seq<Action>) {
    actions == [] ||
    (OneCallEach(time, actions[..|actions| - 1]) &&
     (actions[|actions| - 1].Start? ==> Idle(Run(time, actions[..|actions| - 1]), actions[|actions| - 1].holder)))
  }

  /** Active sessions have different holders. */
  ghost predicate HoldersDiffer(w: World) {
    forall i, j :: 0 <= i < j < |w.sessions| && Active(w.sessions[i]) && Active(w.sessions[j]) ==> w.sessions[i].holder != w.sessions[j].holder
  }

  predicate NamedByRow(w: World, i: nat) {
    i < |w.sessions| && Active(w.sessions[i]) && w.sessions[i].won && w.row.Some? && w.row.value.holder == w.sessions[i].holder
  }

  /** And one whose holder the row names is its owner. */
  ghost predicate Alone(w: World) {
    HoldersDiffer(w) && forall i :: 0 <= i < |w.sessions| && NamedByRow(w, i) ==> w.owner == Some(i)
  }

  /** What a step does to one session's holder, and how many sessions there are then. */
  lemma StepHolder(w: World, a: Action, i: nat)
    requires i < |w.sessions|
    ensures |Step(w, a).sessions| == if a.Start? then |w.sessions| + 1 else |w.sessions|
    ensures Step(w, a).sessions[i].holder == w.sessions[i].holder
    ensures Active(Step(w, a).sessions[i]) ==> Active(w.sessions[i])
  {}

  lemma StepKeepsHolders(w: World, a: Action)
    requires HoldersDiffer(w) && (a.Start? ==> Idle(w, a.holder))
    ensures HoldersDiffer(Step(w, a))
  {
    var ss := Step(w, a).sessions;
    forall i, j | 0 <= i < j < |ss| && Active(ss[i]) && Active(ss[j])
      ensures ss[i].holder != ss[j].holder
    {
      if j < |w.sessions| {
        StepHolder(w, a, i);
        StepHolder(w, a, j);
      } else {
        NewHolder(w, a, i, j);
      }
    }
  }

  lemma NewHolder(w: World, a: Action, i: nat, j: nat)
    requires i < j < |Step(w, a).sessions| && j >= |w.sessions| && (a.Start? ==> Idle(w, a.holder)) && Active(Step(w, a).sessions[i])
    ensures Step(w, a).sessions[i].holder != Step(w, a).sessions[j].holder
  {
    if 0 < |w.sessions| { StepHolder(w, a, 0); }
  }

  lemma StepKeepsNamed(w: World, a: Action, i: nat)
    requires Inv(w) && HoldersDiffer(w) && (NamedByRow(w, i) ==> w.owner == Some(i)) && i < |Step(w, a).sessions|
    ensures NamedByRow(Step(w, a), i) ==> Step(w, a).owner == Some(i)
  {
    if (a.Update? || a.Insert?) && a.s < |w.sessions| {
      assert SessionOk(w, a.s);
    }
  }

  lemma StepKeepsAlone(w: World, a: Action)
    requires Inv(w) && Alone(w) && (a.Start? ==> Idle(w, a.holder))
    ensures Alone(Step(w, a))
  {
    StepKeepsHolders(w, a);
    forall i | 0 <= i < |Step(w, a).sessions| && NamedByRow(Step(w, a), i)
      ensures Step(w, a).owner == Some(i)
    {
      StepKeepsNamed(w, a, i);
    }
  }

  lemma {:induction false} RunKeepsAlone(time: int, actions: seq<Action>)
    requires OneCallEach(time, actions)
    ensures Alone(Run(time, actions))
  {
    if actions != [] {
      RunKeepsInv(time, actions[..|actions| - 1]);
      RunKeepsAlone(time, actions[..|actions| - 1]);
      StepKeepsAlone(Run(time, actions[..|actions| - 1]), actions[|actions| - 1]);
    }
  }

  lemma ReleaseIsOwn(time: int, actions: seq<Action>, k: nat)
    requires OneCallEach(time, actions) && Releases(Run(time, actions), k)
    ensures Run(time, actions).owner == Some(k) && !Run(time, actions).sessions[k].hold
  {
    var w := Run(time, actions);
    RunKeepsInv(time, actions);
    RunKeepsAlone(time, actions);
    assert SessionOk(w, k) && NamedByRow(w, k);
  }

  /** Then every release that matches is that of the row's owner, so a session that holds until expiry
      is never cut short by one. */
  lemma {:induction false} OneCallReleasesOwn(time: int, actions: seq<Action>, i: nat)
    requires OneCallEach(time, actions)
    ensures OwnReleases(time, actions)
    ensures var w, last := Run(time, actions), LastChange(time, actions, i);
      i < |w.sessions| && w.sessions[i].hold && last.Some? ==> last.value.Renewing?
  {
    if actions != [] {
      var init, a := actions[..|actions| - 1], actions[|actions| - 1];
      OneCallReleasesOwn(time, init, i);
      if a.Release? && Releases(Run(time, init), a.s) { ReleaseIsOwn(time, init, a.s); }
      RunKeepsLast(time, init, i);
      StepHold(Run(time, init), a, i);
    }
  }

  lemma StepHold(w: World, a: Action, i: nat)
    ensures i < |w.sessions| ==> i < |Step(w, a).sessions| && Step(w, a).sessions[i].hold == w.sessions[i].hold
  {}

  // ---- Leases cut short ----------------------------------------------------------------

  /** In every run: where an earlier call of the owner's process, one that does not hold until expiry, is
      still under way, its end is the end of the owner's lease. */
  lemma EarlierCallEndsLease(time: int, actions: seq<Action>, i: nat, k: nat)
    requires var w := Run(time, actions);
      w.owner == Some(i) && i < |w.sessions| && In(w, k, Running) && k != i && w.sessions[k].holder == w.sessions[i].holder && !w.sessions[k].hold
    ensures var w, after := Run(time, actions), Run(time, actions + [BodyEnd(k), Release(k)]);
      |after.sessions| == |w.sessions| && after.owner == Some(i) && after.sessions[i] == w.sessions[i].(lease := w.time)
  {
    RunKeepsInv(time, actions);
    var w := Run(time, actions);
    RunOne(time, actions, w, BodyEnd(k));
    RunOne(time, actions + [BodyEnd(k)], Step(w, BodyEnd(k)), Release(k));
    assert actions + [BodyEnd(k)] + [Release(k)] == actions + [BodyEnd(k), Release(k)];
    var w1 := Put(w, k, w.sessions[k].(phase := Releasing(w.time)));
    assert Step(w, BodyEnd(k)) == w1 && Releases(w1, k);
  }

  /** It takes a call whose lease has expired before its body ended: the process calls again and wins. */
  const SECOND_CALL: seq<Action> := [
    Start("a", 10, false), Update(0), Read(0), Insert(0), Tick(10), Start("a", 10, true), Update(1)
  ]

  lemma SecondCallOfOneProcess(t: int)
    ensures var w := Run(t, SECOND_CALL);
      && |w.sessions| == 2 && w.owner == Some(1) && In(w, 0, Running) && In(w, 1, Running)
      && w.sessions[0].holder == w.sessions[1].holder && !w.sessions[0].hold && w.sessions[1].hold && w.sessions[1].lease == w.time + 10
  {
    SecondCallRuns(t, SECOND_CALL);
  }

  lemma SecondCallRuns(t: int, a: seq<Action>)
    requires |a| == 7 && a[0] == Start("a", 10, false) && a[1] == Update(0) && a[2] == Read(0) && a[3] == Insert(0)
    requires a[4] == Tick(10) && a[5] == Start("a", 10, true) && a[6] == Update(1)
    ensures Run(t, a) == World(t + 10, Some(Lease("a", t + 10, t + 10, t + 20)),
      [FirstSession(t, false).(phase := Running, takenOver := Some(t + 10)), SecondSession(t)], [], Some(1))
  {
    FirstWins(t, false);
    Unfold(t, a, 1); Unfold(t, a, 2); Unfold(t, a, 3); Unfold(t, a, 4);
    SecondOverlaps(t);
    Unfold(t, a, 5); Unfold(t, a, 6); Unfold(t, a, 7);
    assert a[..7] == a;
  }

  lemma SecondOverlaps(t: int)
    ensures var row, s := Some(Lease("a", t, t, t + 10)), FirstSession(t, false).(phase := Running);
      var s2 := SecondSession(t).(phase := Updating, won := false, lease := t + 10, own := t + 10);
      && Step(World(t, row, [s], [], Some(0)), Tick(10)) == World(t + 10, row, [s], [], Some(0))
      && Step(World(t + 10, row, [s], [], Some(0)), Start("a", 10, true)) == World(t + 10, row, [s, s2], [], Some(0))
      && Step(World(t + 10, row, [s, s2], [], Some(0)), Update(1))
           == World(t + 10, Some(Lease("a", t + 10, t + 10, t + 20)), [s.(takenOver := Some(t + 10)), SecondSession(t)], [], Some(1))
  {}

  /** It happens: a renewal issued by one session of a process
      lands in the process's next session and cuts its lease short. */
  const LATE_RENEWAL: seq<Action> := [
    Start("a", 10, true), Update(0), Read(0), Insert(0), RenewRead(0), BodyEnd(0), Tick(10),
    Start("a", 10, true), Update(1), RenewLand(0), Start("b", 10, true), Update(2)
  ]

  /** Process a's first session, done with its renewal still under way, and its second. */
  function FirstSession(t: int, hold: bool): Session {
    Session("a", 10, hold, t, Done, true, t + 10, t + 10, None)
  }

  function SecondSession(t: int): Session {
    Session("a", 10, true, t + 10, Running, true, t + 20, t + 20, None)
  }

  lemma FirstWins(t: int, hold: bool)
    ensures var s := FirstSession(t, hold).(phase := Updating, won := false, lease := t, own := t);
      && Step(Init(t), Start("a", 10, hold)) == World(t, None, [s], [], None)
      && Step(World(t, None, [s], [], None), Update(0)) == World(t, None, [s.(phase := Reading)], [], None)
      && Step(World(t, None, [s.(phase := Reading)], [], None), Read(0)) == World(t, None, [s.(phase := Inserting)], [], None)
      && Step(World(t, None, [s.(phase := Inserting)], [], None), Insert(0))
           == World(t, Some(Lease("a", t, t, t + 10)), [FirstSession(t, hold).(phase := Running)], [], Some(0))
  {}

  lemma FirstEnds(t: int)
    ensures var row, s := Some(Lease("a", t, t, t + 10)), FirstSession(t, true).(phase := Running);
      && Step(World(t, row, [s], [], Some(0)), RenewRead(0)) == World(t, row, [s], [Renewal(0, t)], Some(0))
      && Step(World(t, row, [s], [Renewal(0, t)], Some(0)), BodyEnd(0)) == World(t, row, [FirstSession(t, true)], [Renewal(0, t)], Some(0))
      && Step(World(t, row, [FirstSession(t, true)], [Renewal(0, t)], Some(0)), Tick(10)) == World(t + 10, row, [FirstSession(t, true)], [Renewal(0, t)], Some(0))
  {}

  lemma FirstSessionRuns(t: int, a: seq<Action>)
    requires |a| >= 7
    requires a[0] == Start("a", 10, true) && a[1] == Update(0) && a[2] == Read(0) && a[3] == Insert(0)
    requires a[4] == RenewRead(0) && a[5] == BodyEnd(0) && a[6] == Tick(10)
    ensures Run(t, a[..7]) == World(t + 10, Some(Lease("a", t, t, t + 10)), [FirstSession(t, true)], [Renewal(0, t)], Some(0))
  {
    FirstWins(t, true);
    FirstEnds(t);
    Unfold(t, a, 1); Unfold(t, a, 2); Unfold(t, a, 3); Unfold(t, a, 4); Unfold(t, a, 5); Unfold(t, a, 6); Unfold(t, a, 7);
  }

  lemma SecondWins(t: int)
    ensures var row, s := Some(Lease("a", t, t, t + 10)), SecondSession(t).(phase := Updating, won := false, lease := t + 10, own := t + 10);
      && Step(World(t + 10, row, [FirstSession(t, true)], [Renewal(0, t)], Some(0)), Start("a", 10, true))
           == World(t + 10, row, [FirstSession(t, true), s], [Renewal(0, t)], Some(0))
      && Step(World(t + 10, row, [FirstSession(t, true), s], [Renewal(0, t)], Some(0)), Update(1))
           == World(t + 10, Some(Lease("a", t + 10, t + 10, t + 20)), [FirstSession(t, true).(takenOver := Some(t + 10)), SecondSession(t)], [Renewal(0, t)], Some(1))
  {}

  lemma SecondCut(t: int)
    ensures Step(World(t + 10, Some(Lease("a", t + 10, t + 10, t + 20)), [FirstSession(t, true).(takenOver := Some(t + 10)), SecondSession(t)],
                       [Renewal(0, t)], Some(1)), RenewLand(0))
      == World(t + 10, Some(Lease("a", t + 10, t, t + 10)),
               [FirstSession(t, true).(takenOver := Some(t + 10), own := t + 10), SecondSession(t).(lease := t + 10)], [], Some(1))
  {}

  function ThirdSession(t: int): Session {
    Session("b", 10, true, t + 10, Updating, false, t + 10, t + 10, None)
  }

  lemma ThirdWins(t: int)
    ensures var row, old0, old1 := Some(Lease("a", t + 10, t, t + 10)), FirstSession(t, true).(takenOver := Some(t + 10), own := t + 10), SecondSession(t).(lease := t + 10);
      && Step(World(t + 10, row, [old0, old1], [], Some(1)), Start("b", 10, true)) == World(t + 10, row, [old0, old1, ThirdSession(t)], [], Some(1))
      && Step(World(t + 10, row, [old0, old1, ThirdSession(t)], [], Some(1)), Update(2))
           == World(t + 10, Some(Lease("b", t + 10, t + 10, t + 20)),
                    [old0, old1.(takenOver := Some(t + 10)), ThirdSession(t).(phase := Running, won := true, lease := t + 20, own := t + 20)], [], Some(2))
  {
    assert "b"[0] != "a"[0];
  }

  lemma AllThreeRun(t: int, a: seq<Action>)
    requires |a| == 12
    requires a[0] == Start("a", 10, true) && a[1] == Update(0) && a[2] == Read(0) && a[3] == Insert(0)
    requires a[4] == RenewRead(0) && a[5] == BodyEnd(0) && a[6] == Tick(10)
    requires a[7] == Start("a", 10, true) && a[8] == Update(1) && a[9] == RenewLand(0)
    requires a[10] == Start("b", 10, true) && a[11] == Update(2)
    ensures Run(t, a).sessions ==
      [FirstSession(t, true).(takenOver := Some(t + 10), own := t + 10),
       SecondSession(t).(lease := t + 10, takenOver := Some(t + 10)),
       ThirdSession(t).(phase := Running, won := true, lease := t + 20, own := t + 20)]
  {
    FirstSessionRuns(t, a);
    SecondWins(t);
    Unfold(t, a, 8); Unfold(t, a, 9);
    SecondCut(t);
    Unfold(t, a, 10);
    ThirdWins(t);
    Unfold(t, a, 11); Unfold(t, a, 12);
    assert a[..12] == a;
  }

  lemma LateRenewalCutsTtl(t: int)
    ensures var w := Run(t, LATE_RENEWAL);
      && |w.sessions| == 3
      && w.sessions[1].hold && In(w, 1, Running) && In(w, 2, Running)
      && w.sessions[1].takenOver == Some(t + 10) && w.sessions[1].now + w.sessions[1].ttl == t + 20
  {
    AllThreeRun(t, LATE_RENEWAL);
  }

  lemma Unfold(time: int, actions: seq<Action>, n: nat)
    requires 0 < n <= |actions|
    ensures Run(time, actions[..n]) == Step(Run(time, actions[..n - 1]), actions[n - 1])
  {
    assert actions[..n][..n - 1] == actions[..n - 1];
  }
}
