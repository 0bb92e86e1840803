/** One server's drift history: its snapshots, the one that is the baseline, the events that
    scans recorded, and the alerts raised for them. Every operation is one transaction under
    the server's lock, so a history is a sequence of operations. */
module DriftHistory {
  import opened Options
  import opened DriftDiff
  import opened DriftSnapshots

  datatype Snap = Snap(id: nat, data: Snapshot, isBaseline: bool)

  /** The stored row keeps the truncated change set; the event is identified by its fingerprint. */
  datatype Event = Event(category: Category, fingerprint: Changes, snapshotId: nat, acknowledged: bool)

  datatype Alert = Trigger | Resolve

  /** Snapshots by ascending id; events in the order they were recorded. */
  datatype History = History(snapshots: seq<Snap>, events: seq<Event>, alerts: seq<Alert>)

  const EMPTY := History([], [], [])

  // ---- Reading a history --------------------------------------------------------------

  /** The newest snapshot flagged as the baseline. */
  function BaselineIn(snaps: seq<Snap>): (r: Option<Snap>)
    ensures r.Some? ==> r.value in snaps && r.value.isBaseline
    ensures r.None? ==> forall s :: s in snaps ==> !s.isBaseline
  {
    if snaps == [] then None
    else if snaps[|snaps| - 1].isBaseline then Some(snaps[|snaps| - 1])
    else BaselineIn(snaps[..|snaps| - 1])
  }

  function LatestIn(snaps: seq<Snap>): Option<Snap> {
    if snaps == [] then None else Some(snaps[|snaps| - 1])
  }

  predicate SomeOpen(events: seq<Event>) {
    exists k :: 0 <= k < |events| && !events[k].acknowledged
  }

  predicate IncidentOpen(alerts: seq<Alert>) {
    alerts != [] && alerts[|alerts| - 1] == Trigger
  }

  ghost predicate Ascending(snaps: seq<Snap>) {
    forall i, j :: 0 <= i < j < |snaps| ==> snaps[i].id < snaps[j].id
  }

  // ---- What the operations do -----------------------------------------------------------

  /** Drop the non-baseline snapshots beyond the newest `n`. */
  function KeepNewest(snaps: seq<Snap>, n: nat): seq<Snap> {
    if snaps == [] then []
    else
      var last, init := snaps[|snaps| - 1], snaps[..|snaps| - 1];
      if last.isBaseline then KeepNewest(init, n) + [last]
      else if n > 0 then KeepNewest(init, n - 1) + [last]
      else KeepNewest(init, 0)
  }

  function Max(a: int, b: int): int {
    if a >= b then a else b
  }

  function Prune(snaps: seq<Snap>, keep: nat): seq<Snap> {
    KeepNewest(snaps, Max(1, keep - 1))
  }

  ghost function Fingerprint(base: Snapshot, data: Snapshot, c: Category): Changes
    requires Comparable(base, data, c)
  {
    FingerprintOf(c, Before(base, data, c), After(base, data, c))
  }

  /** The scan before reported the same change against the same baseline. */
  ghost predicate Repeats(base: Snapshot, prior: Option<Snapshot>, data: Snapshot, c: Category) {
    && prior.Some? && Differs(base, prior.value, c) && Comparable(base, data, c)
    && Fingerprint(base, prior.value, c) == Fingerprint(base, data, c)
  }

  /** The events recorded for the first `n` categories. */
  ghost function Created(base: Snapshot, prior: Option<Snapshot>, data: Snapshot, id: nat, n: nat): seq<Event>
    requires n <= |ALL_CATEGORIES|
  {
    if n == 0 then []
    else
      var c := ALL_CATEGORIES[n - 1];
      Created(base, prior, data, id, n - 1) +
      (if Differs(base, data, c) && !Repeats(base, prior, data, c) then [Event(c, Fingerprint(base, data, c), id, false)] else [])
  }

  /** The previous scan, when it was compared with this same baseline. */
  function PriorScan(snaps: seq<Snap>, baseline: Snap): Option<Snapshot> {
    var previous := LatestIn(snaps);
    if previous.Some? && previous.value.id > baseline.id then Some(previous.value.data) else None
  }

  ghost function EventsOfScan(snaps: seq<Snap>, id: nat, data: Snapshot): seq<Event> {
    var baseline := BaselineIn(snaps);
    if baseline.None? then []
    else Created(baseline.value.data, PriorScan(snaps, baseline.value), data, id, |ALL_CATEGORIES|)
  }

  ghost function Scan(h: History, id: nat, data: Snapshot, keep: nat): History {
    var created := EventsOfScan(h.snapshots, id, data);
    History(
      Prune(h.snapshots + [Snap(id, data, BaselineIn(h.snapshots).None?)], Max(2, keep)),
      h.events + created,
      if created == [] then h.alerts else h.alerts + [Trigger])
  }

  function FindSnap(snaps: seq<Snap>, id: nat): (r: Option<Snap>)
    ensures r.Some? ==> r.value in snaps && r.value.id == id
    ensures r.None? ==> forall s :: s in snaps ==> s.id != id
  {
    if snaps == [] then None
    else if snaps[|snaps| - 1].id == id then Some(snaps[|snaps| - 1])
    else FindSnap(snaps[..|snaps| - 1], id)
  }

  /** The snapshot to accept: the latest, unless one is pinned. */
  function Chosen(snaps: seq<Snap>, pinned: Option<nat>): Option<Snap> {
    match pinned case None => LatestIn(snaps) case Some(id) => FindSnap(snaps, id)
  }

  function Flagged(snaps: seq<Snap>, id: nat): seq<Snap> {
    seq(|snaps|, i requires 0 <= i < |snaps| => snaps[i].(isBaseline := snaps[i].id == id))
  }

  function AckUpTo(events: seq<Event>, id: nat): seq<Event> {
    seq(|events|, i requires 0 <= i < |events| =>
      if events[i].snapshotId <= id then events[i].(acknowledged := true) else events[i])
  }

  function Accept(h: History, pinned: Option<nat>): History {
    var chosen := Chosen(h.snapshots, pinned);
    if chosen.None? then h
    else
      var events := AckUpTo(h.events, chosen.value.id);
      History(Flagged(h.snapshots, chosen.value.id), events,
              if events != h.events && !SomeOpen(events) then h.alerts + [Resolve] else h.alerts)
  }

  function Acknowledge(h: History, k: nat): History {
    if k >= |h.events| || h.events[k].acknowledged then h
    else
      var events := h.events[k := h.events[k].(acknowledged := true)];
      History(h.snapshots, events, if SomeOpen(events) then h.alerts else h.alerts + [Resolve])
  }

  // ---- The operations themselves ----------------------------------------------------------

  datatype AcceptResult = Accepted(baseline: Snap, acknowledged: nat) | SnapshotNotFound | NoSnapshotYet

  /** The categories in which a scan departs from the baseline, and the events to record: none
      for a change the previous scan against this baseline found as well. */
  method NewEvents(base: Snapshot, prior: Option<Snapshot>, data: Snapshot, id: nat)
    returns (created: seq<Event>, drifted: seq<Category>)
    ensures created == Created(base, prior, data, id, |ALL_CATEGORIES|)
    ensures forall c :: c in drifted <==> Differs(base, data, c)
  {
    var diff, _ := DiffSnapshots(base, data);
    var prevDiff: map<Category, CategoryDiff> := map[];
    if prior.Some? {
      var again, _ := DiffSnapshots(base, prior.value);
      prevDiff := again;
    }
    created, drifted := [], [];
    for k := 0 to |ALL_CATEGORIES|
      invariant created == Created(base, prior, data, id, k)
      invariant forall c :: c in drifted <==> c in ALL_CATEGORIES[..k] && Differs(base, data, c)
    {
      var category := ALL_CATEGORIES[k];
      assert ALL_CATEGORIES[..k + 1] == ALL_CATEGORIES[..k] + [category];
      if category in diff {
        drifted := drifted + [category];
        var repeated := category in prevDiff && prevDiff[category].fingerprint == diff[category].fingerprint;
        assert repeated <==> Repeats(base, prior, data, category);
        if !repeated {
          created := created + [Event(category, diff[category].fingerprint, id, false)];
        }
      }
    }
    assert ALL_CATEGORIES[..|ALL_CATEGORIES|] == ALL_CATEGORIES;
    EveryCategory();
  }

  class ServerDrift {
    var snapshots: seq<Snap>
    var events: seq<Event>
    var alerts: seq<Alert>

    ghost function State(): History
      reads this
    {
      History(snapshots, events, alerts)
    }

    constructor ()
      ensures State() == EMPTY
    {
      snapshots, events, alerts := [], [], [];
    }

    /** `id` is the row number the database assigns. */
    method TakeSnapshot(id: nat, data: Snapshot, snapshotKeep: nat) returns (baselineCreated: bool, drifted: seq<Category>)
      modifies this
      ensures State() == Scan(old(State()), id, data, snapshotKeep)
      ensures baselineCreated == BaselineIn(old(snapshots)).None?
      ensures forall c :: c in drifted <==> !baselineCreated && Differs(BaselineIn(old(snapshots)).value.data, data, c)
    {
      var keep := Max(2, snapshotKeep);
      var baseline := BaselineIn(snapshots);
      var previous := LatestIn(snapshots);
      var snapshot := Snap(id, data, baseline.None?);
      snapshots := snapshots + [snapshot];
      var created: seq<Event> := [];
      drifted := [];
      if baseline.Some? {
        var prior := if previous.Some? && previous.value.id > baseline.value.id then Some(previous.value.data) else None;
        created, drifted := NewEvents(baseline.value.data, prior, data, id);
      }
      snapshots := Prune(snapshots, keep);
      events := events + created;
      if created != [] { alerts := alerts + [Trigger]; }
      return baseline.None?, drifted;
    }

    method AcceptBaseline(pinned: Option<nat>) returns (r: AcceptResult)
      modifies this
      ensures State() == Accept(old(State()), pinned)
      ensures r.Accepted? <==> Chosen(old(snapshots), pinned).Some?
      ensures r == SnapshotNotFound ==> pinned.Some?
      ensures r == NoSnapshotYet ==> pinned.None? && old(snapshots) == []
      ensures r.Accepted? ==> r.baseline == Chosen(old(snapshots), pinned).value.(isBaseline := true)
    {
      var chosen := if pinned.None? then LatestIn(snapshots) else FindSnap(snapshots, pinned.value);
      if chosen.None? && pinned.Some? { return SnapshotNotFound; }
      if chosen.None? { return NoSnapshotYet; }
      var id := chosen.value.id;
      var acked := 0;
      var k := 0;
      ghost var before := events;
      snapshots := Flagged(snapshots, id);
      while k < |events|
        invariant k <= |events| == |before|
        invariant snapshots == Flagged(old(snapshots), id) && alerts == old(alerts)
        invariant events[..k] == AckUpTo(before, id)[..k] && events[k..] == before[k..]
        invariant acked > 0 <==> events[..k] != before[..k]
      {
        assert events[k] == before[k];
        ghost var row := AckUpTo(before, id)[k];
        var event := events[k];
        if !event.acknowledged && event.snapshotId <= id {
          event := event.(acknowledged := true);
          acked := acked + 1;
        }
        assert event == row;
        assert before[..k + 1] == before[..k] + [before[k]];
        assert AckUpTo(before, id)[..k + 1] == AckUpTo(before, id)[..k] + [row];
        events := events[k := event];
        assert events[..k + 1] == events[..k] + [event];
        k := k + 1;
      }
      assert events[..k] == events && before[..k] == before && AckUpTo(before, id)[..k] == AckUpTo(before, id);
      if acked > 0 && !SomeOpen(events) { alerts := alerts + [Resolve]; }
      return Accepted(chosen.value.(isBaseline := true), acked);
    }

    method AcknowledgeDriftEvent(k: nat) returns (found: bool)
      modifies this
      ensures State() == Acknowledge(old(State()), k)
      ensures found == (k < |old(events)|)
    {
      if k >= |events| { return false; }
      if events[k].acknowledged { return true; }
      events := events[k := events[k].(acknowledged := true)];
      if !SomeOpen(events) { alerts := alerts + [Resolve]; }
      return true;
    }
  }

  // ---- Runs -------------------------------------------------------------------------------

  datatype Action =
    | DoScan(id: nat, data: Snapshot)
    | DoAccept(pinned: Option<nat>)
    | DoAcknowledge(event: nat)

  /** Row numbers grow, so a scan whose number is taken or passed does not happen. */
  predicate Fresh(snaps: seq<Snap>, id: nat) {
    snaps == [] || snaps[|snaps| - 1].id < id
  }

  ghost function Step(h: History, a: Action, keep: nat): History {
    match a
    case DoScan(id, data) => if Fresh(h.snapshots, id) then Scan(h, id, data, keep) else h
    case DoAccept(pinned) => Accept(h, pinned)
    case DoAcknowledge(k) => Acknowledge(h, k)
  }

  ghost function Run(acts: seq<Action>, keep: nat): History {
    if acts == [] then EMPTY else Step(Run(acts[..|acts| - 1], keep), acts[|acts| - 1], keep)
  }

  // ---- One baseline, few snapshots, an honest incident -------------------------------------

  function BaselineCount(snaps: seq<Snap>): nat {
    if snaps == [] then 0 else BaselineCount(snaps[..|snaps| - 1]) + (if snaps[|snaps| - 1].isBaseline then 1 else 0)
  }

  ghost predicate Inv(h: History, keep: nat) {
    && Ascending(h.snapshots)
    && BaselineCount(h.snapshots) == (if h.snapshots == [] then 0 else 1)
    && |h.snapshots| <= Max(2, keep)
    && (IncidentOpen(h.alerts) <==> SomeOpen(h.events))
  }

  lemma {:induction false} NoBaselineIffZero(snaps: seq<Snap>)
    ensures BaselineIn(snaps).None? <==> BaselineCount(snaps) == 0
  {
    if snaps != [] { NoBaselineIffZero(snaps[..|snaps| - 1]); }
  }

  lemma {:induction false} CountAppend(snaps: seq<Snap>, s: Snap)
    ensures BaselineCount(snaps + [s]) == BaselineCount(snaps) + (if s.isBaseline then 1 else 0)
  {
    assert (snaps + [s])[..|snaps|] == snaps;
  }

  /** Pruning keeps every baseline row and at most `n` others. */
  lemma {:induction false} KeepNewestCount(snaps: seq<Snap>, n: nat)
    ensures BaselineCount(KeepNewest(snaps, n)) == BaselineCount(snaps)
    ensures |KeepNewest(snaps, n)| <= n + BaselineCount(snaps)
  {
    if snaps != [] {
      var last, init := snaps[|snaps| - 1], snaps[..|snaps| - 1];
      var m: nat := if last.isBaseline || n == 0 then n else n - 1;
      KeepNewestCount(init, m);
      CountAppend(KeepNewest(init, m), last);
    }
  }

  /** Pruning keeps the baseline, adds nothing, and keeps the order. */
  lemma {:induction false} KeepNewestKeeps(snaps: seq<Snap>, n: nat)
    ensures forall s :: s in snaps && s.isBaseline ==> s in KeepNewest(snaps, n)
    ensures forall s :: s in KeepNewest(snaps, n) ==> s in snaps
  {
    if snaps != [] {
      var last, init := snaps[|snaps| - 1], snaps[..|snaps| - 1];
      KeepNewestKeeps(init, if last.isBaseline || n == 0 then n else n - 1);
    }
  }

  lemma {:induction false} KeepNewestOrder(snaps: seq<Snap>, n: nat)
    requires Ascending(snaps)
    ensures Ascending(KeepNewest(snaps, n))
  {
    if snaps != [] {
      var last, init := snaps[|snaps| - 1], snaps[..|snaps| - 1];
      var m: nat := if last.isBaseline || n == 0 then n else n - 1;
      var kept := KeepNewest(init, m);
      KeepNewestOrder(init, m);
      KeepNewestKeeps(init, m);
      forall i | 0 <= i < |kept| ensures kept[i].id < last.id {
        assert kept[i] in init;
      }
    }
  }

  /** What pruning drops is not the baseline, and at least `n` newer rows that are not the
      baseline stay. */
  lemma {:induction false} DroppedIsOld(snaps: seq<Snap>, n: nat, s: Snap)
    requires s in snaps && s !in KeepNewest(snaps, n)
    ensures !s.isBaseline
    ensures Ascending(snaps) ==> |Newer(KeepNewest(snaps, n), s.id)| >= n
  {
    var last, init := snaps[|snaps| - 1], snaps[..|snaps| - 1];
    var m: nat := if last.isBaseline || n == 0 then n else n - 1;
    var kept := KeepNewest(init, m);
    if s == last {
      assert n == 0;
    } else {
      assert s in init;
      DroppedIsOld(init, m, s);
      if Ascending(snaps) && !last.isBaseline && n > 0 { assert (kept + [last])[..|kept|] == kept; }
      if Ascending(snaps) && last.isBaseline { assert (kept + [last])[..|kept|] == kept; }
    }
  }

  function Newer(snaps: seq<Snap>, id: nat): seq<Snap> {
    if snaps == [] then []
    else
      var last := snaps[|snaps| - 1];
      Newer(snaps[..|snaps| - 1], id) + (if last.id > id && !last.isBaseline then [last] else [])
  }

  lemma {:induction false} NewerAre(snaps: seq<Snap>, id: nat)
    ensures forall s :: s in Newer(snaps, id) <==> s in snaps && s.id > id && !s.isBaseline
  {
    if snaps != [] {
      NewerAre(snaps[..|snaps| - 1], id);
      assert snaps == snaps[..|snaps| - 1] + [snaps[|snaps| - 1]];
    }
  }

  lemma {:induction false} FlaggedCount(snaps: seq<Snap>, id: nat)
    requires Ascending(snaps)
    ensures BaselineCount(Flagged(snaps, id)) == if FindSnap(snaps, id).Some? then 1 else 0
  {
    if snaps != [] {
      var last, init := snaps[|snaps| - 1], snaps[..|snaps| - 1];
      FlaggedCount(init, id);
      assert Flagged(snaps, id) == Flagged(init, id) + [last.(isBaseline := last.id == id)];
      CountAppend(Flagged(init, id), last.(isBaseline := last.id == id));
    }
  }

  lemma {:induction false} CreatedAreOpen(base: Snapshot, prior: Option<Snapshot>, data: Snapshot, id: nat, n: nat)
    requires n <= |ALL_CATEGORIES|
    ensures forall e :: e in Created(base, prior, data, id, n) ==> !e.acknowledged && e.snapshotId == id
    ensures forall c :: c in ALL_CATEGORIES[..n] && Differs(base, data, c) && !Repeats(base, prior, data, c) ==>
      Event(c, Fingerprint(base, data, c), id, false) in Created(base, prior, data, id, n)
  {
    if n > 0 {
      CreatedAreOpen(base, prior, data, id, n - 1);
      assert ALL_CATEGORIES[..n] == ALL_CATEGORIES[..n - 1] + [ALL_CATEGORIES[n - 1]];
    }
  }

  lemma PrunedWithin(snaps: seq<Snap>, keep: nat)
    requires Ascending(snaps) && BaselineCount(snaps) == 1 && keep >= 2
    ensures Ascending(Prune(snaps, keep)) && BaselineCount(Prune(snaps, keep)) == 1 && |Prune(snaps, keep)| <= keep
  {
    KeepNewestCount(snaps, keep - 1);
    KeepNewestOrder(snaps, keep - 1);
  }

  lemma EventsOfScanAreOpen(snaps: seq<Snap>, id: nat, data: Snapshot)
    ensures forall e :: e in EventsOfScan(snaps, id, data) ==> !e.acknowledged && e.snapshotId == id
  {
    var baseline := BaselineIn(snaps);
    if baseline.Some? {
      CreatedAreOpen(baseline.value.data, PriorScan(snaps, baseline.value), data, id, |ALL_CATEGORIES|);
    }
  }

  lemma SomeOpenAppend(events: seq<Event>, created: seq<Event>)
    requires forall e :: e in created ==> !e.acknowledged
    ensures SomeOpen(events + created) <==> SomeOpen(events) || created != []
  {
    if created != [] {
      assert created[0] in created;
      assert (events + created)[|events|] == created[0];
    } else {
      assert events + created == events;
    }
  }

  lemma ScanKeepsInv(h: History, id: nat, data: Snapshot, keep: nat)
    requires Inv(h, keep) && Fresh(h.snapshots, id)
    ensures Inv(Scan(h, id, data, keep), keep)
  {
    var snap := Snap(id, data, BaselineIn(h.snapshots).None?);
    NoBaselineIffZero(h.snapshots);
    CountAppend(h.snapshots, snap);
    PrunedWithin(h.snapshots + [snap], Max(2, keep));
    ScanIsKept(h, id, data, keep);
    EventsOfScanAreOpen(h.snapshots, id, data);
    SomeOpenAppend(h.events, EventsOfScan(h.snapshots, id, data));
  }

  lemma AcceptKeepsInv(h: History, pinned: Option<nat>, keep: nat)
    requires Inv(h, keep)
    ensures Inv(Accept(h, pinned), keep)
  {
    var chosen := Chosen(h.snapshots, pinned);
    if chosen.Some? {
      FlaggedCount(h.snapshots, chosen.value.id);
      assert chosen.value in h.snapshots;
      var events := AckUpTo(h.events, chosen.value.id);
      if SomeOpen(events) {
        var k :| 0 <= k < |events| && !events[k].acknowledged;
        assert !h.events[k].acknowledged;
      } else if events == h.events {
      }
    }
  }

  lemma AcknowledgeKeepsInv(h: History, k: nat, keep: nat)
    requires Inv(h, keep)
    ensures Inv(Acknowledge(h, k), keep)
  {
    if k < |h.events| && !h.events[k].acknowledged {
      var events := h.events[k := h.events[k].(acknowledged := true)];
      if SomeOpen(events) {
        var j :| 0 <= j < |events| && !events[j].acknowledged;
        assert !h.events[j].acknowledged;
      }
    }
  }

  /** In every history there is exactly one baseline once there is a snapshot, at most `keep`
      snapshots, and the incident is open exactly when some event is not acknowledged. */
  lemma {:induction false} RunKeepsInv(acts: seq<Action>, keep: nat)
    ensures Inv(Run(acts, keep), keep)
  {
    if acts != [] {
      var h := Run(acts[..|acts| - 1], keep);
      RunKeepsInv(acts[..|acts| - 1], keep);
      match acts[|acts| - 1]
      case DoScan(id, data) => if Fresh(h.snapshots, id) { ScanKeepsInv(h, id, data, keep); }
      case DoAccept(pinned) => AcceptKeepsInv(h, pinned, keep);
      case DoAcknowledge(k) => AcknowledgeKeepsInv(h, k, keep);
    }
  }

  lemma NothingToAck(events: seq<Event>, id: nat)
    requires !SomeOpen(events)
    ensures AckUpTo(events, id) == events
  {}

  /** What one step may add to the alerts. */
  predicate AddsAlert(before: seq<Alert>, after: seq<Alert>) {
    after == before || after == before + [Trigger] || (after == before + [Resolve] && IncidentOpen(before))
  }

  lemma AcceptAlerts(h: History, pinned: Option<nat>, keep: nat)
    requires Inv(h, keep)
    ensures AddsAlert(h.alerts, Accept(h, pinned).alerts)
  {
    if Chosen(h.snapshots, pinned).Some? && !SomeOpen(h.events) { NothingToAck(h.events, Chosen(h.snapshots, pinned).value.id); }
  }

  lemma AcknowledgeAlerts(h: History, k: nat, keep: nat)
    requires Inv(h, keep)
    ensures AddsAlert(h.alerts, Acknowledge(h, k).alerts)
  {}

  lemma ScanAlerts(h: History, id: nat, data: Snapshot, keep: nat)
    ensures AddsAlert(h.alerts, Scan(h, id, data, keep).alerts)
  {}

  lemma StepAlerts(h: History, a: Action, keep: nat)
    requires Inv(h, keep)
    ensures AddsAlert(h.alerts, Step(h, a, keep).alerts)
  {
    match a
    case DoScan(id, data) => ScanAlerts(h, id, data, keep);
    case DoAccept(pinned) => AcceptAlerts(h, pinned, keep);
    case DoAcknowledge(k) => AcknowledgeAlerts(h, k, keep);
  }

  /** A resolve is only ever raised over an open incident. */
  lemma ResolveFollowsTrigger(acts: seq<Action>, a: Action, keep: nat)
    ensures AddsAlert(Run(acts, keep).alerts, Step(Run(acts, keep), a, keep).alerts)
  {
    RunKeepsInv(acts, keep);
    StepAlerts(Run(acts, keep), a, keep);
  }

  /** A scan's own snapshot is never the one pruned. */
  lemma ScanIsKept(h: History, id: nat, data: Snapshot, keep: nat)
    ensures LatestIn(Scan(h, id, data, keep).snapshots) == Some(Snap(id, data, BaselineIn(h.snapshots).None?))
  {
    var snaps := h.snapshots + [Snap(id, data, BaselineIn(h.snapshots).None?)];
    assert snaps[|snaps| - 1] == Snap(id, data, BaselineIn(h.snapshots).None?);
  }

  // ---- Reported drift ---------------------------------------------------------------------

  /** An event recorded since snapshot `since` says exactly how `data` departs from `base`. */
  ghost predicate Told(events: seq<Event>, since: nat, base: Snapshot, data: Snapshot, c: Category) {
    Comparable(base, data, c) &&
    exists k :: 0 <= k < |events| && events[k].snapshotId > since && events[k].category == c
      && events[k].fingerprint == Fingerprint(base, data, c)
  }

  /** Every category of the latest scan that departs from the baseline has been reported. */
  ghost predicate Reported(h: History) {
    h.snapshots != [] ==>
      BaselineIn(h.snapshots).Some? &&
      forall c :: Differs(BaselineIn(h.snapshots).value.data, LatestIn(h.snapshots).value.data, c) ==>
        Told(h.events, BaselineIn(h.snapshots).value.id, BaselineIn(h.snapshots).value.data, LatestIn(h.snapshots).value.data, c)
  }

  lemma NoBaselineIn(snaps: seq<Snap>, s: Snap)
    requires BaselineIn(snaps).None?
    ensures s in snaps ==> !s.isBaseline
  {}

  lemma {:induction false} BaselineIsUnique(snaps: seq<Snap>, s: Snap)
    requires BaselineCount(snaps) <= 1 && s in snaps && s.isBaseline
    ensures BaselineIn(snaps) == Some(s)
  {
    var last, init := snaps[|snaps| - 1], snaps[..|snaps| - 1];
    NoBaselineIffZero(init);
    if last.isBaseline {
      if s != last { NoBaselineIn(init, s); }
    } else {
      assert s in init;
      BaselineIsUnique(init, s);
    }
  }

  lemma PruneKeepsBaseline(snaps: seq<Snap>, n: nat)
    requires BaselineCount(snaps) == 1
    ensures BaselineIn(KeepNewest(snaps, n)) == BaselineIn(snaps)
  {
    NoBaselineIffZero(snaps);
    KeepNewestCount(snaps, n);
    KeepNewestKeeps(snaps, n);
    BaselineIsUnique(KeepNewest(snaps, n), BaselineIn(snaps).value);
  }

  lemma LatestIsNewest(snaps: seq<Snap>)
    requires Ascending(snaps) && snaps != []
    ensures forall s :: s in snaps ==> s.id <= LatestIn(snaps).value.id
    ensures forall s :: s in snaps && s.id == LatestIn(snaps).value.id ==> s == LatestIn(snaps).value
  {}

  lemma NothingDiffersFromItself(d: Snapshot, c: Category)
    ensures !Differs(d, d, c)
  {}

  /** A scan keeps the baseline; the first one is it. */
  lemma ScanKeepsBaseline(h: History, id: nat, data: Snapshot, keep: nat)
    requires Inv(h, keep)
    ensures BaselineIn(Scan(h, id, data, keep).snapshots) == if h.snapshots == [] then Some(Snap(id, data, true)) else BaselineIn(h.snapshots)
    ensures h.snapshots != [] ==> BaselineIn(h.snapshots).Some?
  {
    NoBaselineIffZero(h.snapshots);
    SnapKeepsBaseline(h.snapshots, Snap(id, data, BaselineIn(h.snapshots).None?), Max(2, keep));
  }

  lemma SnapKeepsBaseline(snaps: seq<Snap>, snap: Snap, keep: nat)
    requires snap.isBaseline == BaselineIn(snaps).None? && BaselineCount(snaps) <= 1
    ensures BaselineIn(Prune(snaps + [snap], keep)) == if BaselineIn(snaps).None? then Some(snap) else BaselineIn(snaps)
  {
    var all := snaps + [snap];
    NoBaselineIffZero(snaps);
    CountAppend(snaps, snap);
    PruneKeepsBaseline(all, Max(1, keep - 1));
    assert all[..|snaps|] == snaps;
  }

  lemma ScanKeepsReported(h: History, id: nat, data: Snapshot, keep: nat)
    requires Inv(h, keep) && Fresh(h.snapshots, id) && Reported(h)
    ensures Reported(Scan(h, id, data, keep))
  {
    var after := Scan(h, id, data, keep);
    ScanIsKept(h, id, data, keep);
    ScanKeepsBaseline(h, id, data, keep);
    if h.snapshots != [] {
      var b := BaselineIn(h.snapshots).value;
      LatestIsNewest(h.snapshots);
      forall c | Differs(b.data, data, c) ensures Told(after.events, b.id, b.data, data, c) {
        ScanTells(h, id, data, keep, b, c);
      }
    } else {
      forall c ensures !Differs(data, data, c) { NothingDiffersFromItself(data, c); }
    }
  }

  lemma ScanTells(h: History, id: nat, data: Snapshot, keep: nat, b: Snap, c: Category)
    requires Reported(h) && h.snapshots != [] && BaselineIn(h.snapshots) == Some(b)
    requires b.id < id && b.id <= LatestIn(h.snapshots).value.id
    requires Differs(b.data, data, c)
    ensures Told(Scan(h, id, data, keep).events, b.id, b.data, data, c)
  {
    var created, prior := EventsOfScan(h.snapshots, id, data), PriorScan(h.snapshots, b);
    ScanEvents(h, id, data, keep);
    if Repeats(b.data, prior, data, c) {
      TellsAgain(h.events, created, b.id, b.data, prior.value, data, c);
    } else {
      CreatedAreOpen(b.data, prior, data, id, |ALL_CATEGORIES|);
      EveryCategory();
      assert ALL_CATEGORIES[..|ALL_CATEGORIES|] == ALL_CATEGORIES;
      TellsNow(h.events, created, b.id, id, b.data, data, c);
    }
  }

  lemma ScanEvents(h: History, id: nat, data: Snapshot, keep: nat)
    ensures Scan(h, id, data, keep).events == h.events + EventsOfScan(h.snapshots, id, data)
  {}

  /** What was told of the scan before is told of this one. */
  lemma TellsAgain(events: seq<Event>, created: seq<Event>, since: nat, base: Snapshot, prior: Snapshot, data: Snapshot, c: Category)
    requires Told(events, since, base, prior, c) && Comparable(base, data, c) && Fingerprint(base, prior, c) == Fingerprint(base, data, c)
    ensures Told(events + created, since, base, data, c)
  {
    var k :| 0 <= k < |events| && events[k].snapshotId > since && events[k].category == c && events[k].fingerprint == Fingerprint(base, prior, c);
    assert (events + created)[k] == events[k];
  }

  lemma TellsNow(events: seq<Event>, created: seq<Event>, since: nat, id: nat, base: Snapshot, data: Snapshot, c: Category)
    requires since < id && Comparable(base, data, c) && Event(c, Fingerprint(base, data, c), id, false) in created
    ensures Told(events + created, since, base, data, c)
  {
    var e := Event(c, Fingerprint(base, data, c), id, false);
    var k :| 0 <= k < |created| && created[k] == e;
    assert (events + created)[|events| + k] == e;
  }

  /** The accepted snapshot shows the host as the latest one does. */
  ghost predicate CoversLatest(h: History, pinned: Option<nat>) {
    var chosen := Chosen(h.snapshots, pinned);
    chosen.Some? ==> forall c :: !Differs(chosen.value.data, LatestIn(h.snapshots).value.data, c)
  }

  /** The new baseline and the latest scan, after `chosen` has been accepted. */
  lemma AcceptChanges(h: History, pinned: Option<nat>, keep: nat)
    requires Inv(h, keep) && Chosen(h.snapshots, pinned).Some?
    ensures var chosen, after := Chosen(h.snapshots, pinned).value, Accept(h, pinned);
      && chosen in h.snapshots
      && BaselineIn(after.snapshots) == Some(chosen.(isBaseline := true))
      && LatestIn(after.snapshots).Some? && LatestIn(after.snapshots).value.data == LatestIn(h.snapshots).value.data
      && LatestIn(after.snapshots).value.id == LatestIn(h.snapshots).value.id
  {
    var chosen := Chosen(h.snapshots, pinned).value;
    AcceptKeepsInv(h, pinned, keep);
    var k :| 0 <= k < |h.snapshots| && h.snapshots[k] == chosen;
    var flagged := Flagged(h.snapshots, chosen.id);
    assert flagged[k] == chosen.(isBaseline := true);
    BaselineIsUnique(flagged, chosen.(isBaseline := true));
  }

  lemma AcceptKeepsReported(h: History, pinned: Option<nat>, keep: nat)
    requires Inv(h, keep) && Reported(h) && CoversLatest(h, pinned)
    ensures Reported(Accept(h, pinned))
  {
    if Chosen(h.snapshots, pinned).Some? { AcceptChanges(h, pinned, keep); }
  }

  /** Each category in which the latest scan departs from the snapshot to accept has been reported since
      that snapshot, with that very change. */
  ghost predicate ChosenIsTold(h: History, pinned: Option<nat>) {
    var chosen := Chosen(h.snapshots, pinned);
    chosen.Some? ==>
      forall c :: Differs(chosen.value.data, LatestIn(h.snapshots).value.data, c) ==>
        Told(h.events, chosen.value.id, chosen.value.data, LatestIn(h.snapshots).value.data, c)
  }

  /** Acknowledging changes nothing about what was told. */
  lemma AckTells(events: seq<Event>, id: nat, since: nat, base: Snapshot, data: Snapshot, c: Category)
    ensures Told(AckUpTo(events, id), since, base, data, c) <==> Told(events, since, base, data, c)
  {
    var acked := AckUpTo(events, id);
    if Told(events, since, base, data, c) {
      var k :| 0 <= k < |events| && events[k].snapshotId > since && events[k].category == c && events[k].fingerprint == Fingerprint(base, data, c);
      assert acked[k].snapshotId == events[k].snapshotId;
    }
    if Told(acked, since, base, data, c) {
      var k :| 0 <= k < |acked| && acked[k].snapshotId > since && acked[k].category == c && acked[k].fingerprint == Fingerprint(base, data, c);
      assert events[k].snapshotId == acked[k].snapshotId;
    }
  }

  /** Whatever snapshot is accepted, and whatever was recorded after it: drift stays unreported exactly
      when the latest scan differs from it in a way not reported since it. Where nothing was recorded
      after it, that is when the latest scan differs from it at all. */
  lemma PinningHidesDriftIff(h: History, pinned: Option<nat>, keep: nat)
    requires Inv(h, keep) && Chosen(h.snapshots, pinned).Some?
    ensures Reported(Accept(h, pinned)) <==> ChosenIsTold(h, pinned)
    ensures (forall e :: e in h.events ==> e.snapshotId <= Chosen(h.snapshots, pinned).value.id) ==>
      (Reported(Accept(h, pinned)) <==> CoversLatest(h, pinned))
  {
    AcceptChanges(h, pinned, keep);
    var chosen, latest := Chosen(h.snapshots, pinned).value, LatestIn(h.snapshots).value;
    forall c
      ensures Told(Accept(h, pinned).events, chosen.id, chosen.data, latest.data, c) <==> Told(h.events, chosen.id, chosen.data, latest.data, c)
    {
      AckTells(h.events, chosen.id, chosen.id, chosen.data, latest.data, c);
    }
    if forall e :: e in h.events ==> e.snapshotId <= chosen.id {
      forall c
        ensures !Told(h.events, chosen.id, chosen.data, latest.data, c)
      {
        forall k | 0 <= k < |h.events| ensures h.events[k].snapshotId <= chosen.id {
          assert h.events[k] in h.events;
        }
      }
    }
  }

  /** The last acceptance, if any, was of a snapshot from which the latest scan then departed in no way that
      had not been reported. */
  ghost predicate LastAcceptTells(acts: seq<Action>, keep: nat) {
    acts == [] ||
    var init, last := acts[..|acts| - 1], acts[|acts| - 1];
    if last.DoAccept? && Chosen(Run(init, keep).snapshots, last.pinned).Some? then ChosenIsTold(Run(init, keep), last.pinned)
    else LastAcceptTells(init, keep)
  }

  lemma AcceptingTheLatestCovers(h: History)
    ensures CoversLatest(h, None) && ChosenIsTold(h, None)
  {
    if h.snapshots != [] {
      forall c ensures !Differs(LatestIn(h.snapshots).value.data, LatestIn(h.snapshots).value.data, c) {
        NothingDiffersFromItself(LatestIn(h.snapshots).value.data, c);
      }
    }
  }

  ghost predicate NonePinned(acts: seq<Action>) {
    forall i :: 0 <= i < |acts| && acts[i].DoAccept? ==> acts[i].pinned.None?
  }

  /** Every history in which no acceptance is pinned is such a history, and hides nothing. */
  lemma {:induction false} UnpinnedHidesNothing(acts: seq<Action>, keep: nat)
    requires NonePinned(acts)
    ensures LastAcceptTells(acts, keep) && Reported(Run(acts, keep))
  {
    if acts != [] {
      UnpinnedHidesNothing(acts[..|acts| - 1], keep);
      AcceptingTheLatestCovers(Run(acts[..|acts| - 1], keep));
    }
    DriftIsReported(acts, keep);
  }

  /** Suppressing repeated reports never hides drift: in every such history each category in
      which the latest scan departs from the baseline was reported, with that very change,
      since the baseline was taken. */
  lemma {:induction false} DriftIsReported(acts: seq<Action>, keep: nat)
    requires LastAcceptTells(acts, keep)
    ensures Reported(Run(acts, keep))
  {
    if acts != [] {
      var init, last := acts[..|acts| - 1], acts[|acts| - 1];
      var h := Run(init, keep);
      RunKeepsInv(init, keep);
      if last.DoAccept? && Chosen(h.snapshots, last.pinned).Some? {
        PinningHidesDriftIff(h, last.pinned, keep);
      } else {
        DriftIsReported(init, keep);
        if last.DoScan? && Fresh(h.snapshots, last.id) { ScanKeepsReported(h, last.id, last.data, keep); }
        if last.DoAcknowledge? { AcknowledgeKeepsReported(h, last.event); }
      }
    }
  }

  lemma AcknowledgeKeepsReported(h: History, k: nat)
    requires Reported(h)
    ensures Reported(Acknowledge(h, k))
  {
    var after := Acknowledge(h, k);
    if h.snapshots != [] {
      var b, l := BaselineIn(h.snapshots).value, LatestIn(h.snapshots).value;
      forall c | Differs(b.data, l.data, c) ensures Told(after.events, b.id, b.data, l.data, c) {
        assert Told(h.events, b.id, b.data, l.data, c);
        var j :| 0 <= j < |h.events| && h.events[j].snapshotId > b.id && h.events[j].category == c
          && h.events[j].fingerprint == Fingerprint(b.data, l.data, c);
        assert after.events[j].snapshotId == h.events[j].snapshotId;
      }
    }
  }

  /** The reporting event says how to get from the baseline to what the latest scan found. */
  lemma ReportShowsTheDrift(acts: seq<Action>, keep: nat, c: Category)
    requires LastAcceptTells(acts, keep) && Run(acts, keep).snapshots != []
    ensures var h := Run(acts, keep);
      BaselineIn(h.snapshots).Some? &&
      (Differs(BaselineIn(h.snapshots).value.data, LatestIn(h.snapshots).value.data, c) ==>
        exists e :: e in h.events && e.category == c && e.snapshotId > BaselineIn(h.snapshots).value.id
          && Patch(Before(BaselineIn(h.snapshots).value.data, LatestIn(h.snapshots).value.data, c), e.fingerprint)
               == After(BaselineIn(h.snapshots).value.data, LatestIn(h.snapshots).value.data, c))
  {
    var h := Run(acts, keep);
    DriftIsReported(acts, keep);
    var b, l := BaselineIn(h.snapshots).value, LatestIn(h.snapshots).value;
    if Differs(b.data, l.data, c) {
      assert Told(h.events, b.id, b.data, l.data, c);
      var k :| 0 <= k < |h.events| && h.events[k].snapshotId > b.id && h.events[k].category == c
        && h.events[k].fingerprint == Fingerprint(b.data, l.data, c);
      PatchIsCurrent(c, Before(b.data, l.data, c), After(b.data, l.data, c), h.events[k].fingerprint);
      assert h.events[k] in h.events;
    }
  }

  // ---- Repeated reports, and pinning an older snapshot --------------------------------------

  lemma {:induction false} NothingCreated(base: Snapshot, prior: Option<Snapshot>, data: Snapshot, id: nat, n: nat)
    requires n <= |ALL_CATEGORIES|
    requires forall c :: Differs(base, data, c) ==> Repeats(base, prior, data, c)
    ensures Created(base, prior, data, id, n) == []
  {
    if n > 0 { NothingCreated(base, prior, data, id, n - 1); }
  }

  /** A scan that finds the host as the last scan left it records nothing and alerts nobody. */
  lemma UnchangedHostIsSilent(h: History, id: nat, keep: nat)
    requires Inv(h, keep) && h.snapshots != []
    ensures var after := Scan(h, id, LatestIn(h.snapshots).value.data, keep);
      after.events == h.events && after.alerts == h.alerts
  {
    NoBaselineIffZero(h.snapshots);
    var b, l := BaselineIn(h.snapshots).value, LatestIn(h.snapshots).value;
    LatestIsNewest(h.snapshots);
    var prior := PriorScan(h.snapshots, b);
    forall c | Differs(b.data, l.data, c) ensures Repeats(b.data, prior, l.data, c) {}
    NothingCreated(b.data, prior, l.data, id, |ALL_CATEGORIES|);
    assert h.events + [] == h.events;
  }

  /** What a scan is worth an event for: it departs from the baseline in that category, and the scan before,
      unless that is the baseline or older, did not depart in just that way. */
  ghost predicate IsNews(b: Snap, l: Snap, data: Snapshot, c: Category) {
    && Differs(b.data, data, c)
    && !(l.id > b.id && Differs(b.data, l.data, c) && Fingerprint(b.data, l.data, c) == Fingerprint(b.data, data, c))
  }

  lemma {:induction false} CreatedAre(base: Snapshot, prior: Option<Snapshot>, data: Snapshot, id: nat, n: nat)
    requires n <= |ALL_CATEGORIES|
    ensures forall e :: e in Created(base, prior, data, id, n) <==>
      && e.category in ALL_CATEGORIES[..n] && Differs(base, data, e.category) && !Repeats(base, prior, data, e.category)
      && e == Event(e.category, Fingerprint(base, data, e.category), id, false)
  {
    if n > 0 {
      CreatedAre(base, prior, data, id, n - 1);
      assert ALL_CATEGORIES[..n] == ALL_CATEGORIES[..n - 1] + [ALL_CATEGORIES[n - 1]];
    }
  }

  /** A scan of a server with a baseline adds one event for every category in which it is news, with what
      has changed, and no other; it raises the alert exactly when it adds any; and it is itself kept. */
  lemma ScanSays(h: History, id: nat, data: Snapshot, keep: nat, b: Snap, l: Snap)
    requires BaselineIn(h.snapshots) == Some(b) && LatestIn(h.snapshots) == Some(l)
    ensures var after := Scan(h, id, data, keep);
      var news := after.events[|h.events|..];
      && |after.events| >= |h.events| && after.events[..|h.events|] == h.events
      && (forall e :: e in news <==>
            IsNews(b, l, data, e.category) && e == Event(e.category, Fingerprint(b.data, data, e.category), id, false))
      && after.alerts == h.alerts + (if news == [] then [] else [Trigger])
      && LatestIn(after.snapshots) == Some(Snap(id, data, false))
  {
    var prior := PriorScan(h.snapshots, b);
    var created := Created(b.data, prior, data, id, |ALL_CATEGORIES|);
    CreatedAre(b.data, prior, data, id, |ALL_CATEGORIES|);
    EveryCategory();
    assert ALL_CATEGORIES[..|ALL_CATEGORIES|] == ALL_CATEGORIES;
    ScanIsKept(h, id, data, keep);
    assert (h.events + created)[|h.events|..] == created && (h.events + created)[..|h.events|] == h.events;
    assert h.alerts + [] == h.alerts;
  }

  /** The first scan of a server becomes its baseline and reports nothing. */
  lemma FirstScanSays(h: History, id: nat, data: Snapshot, keep: nat)
    requires BaselineIn(h.snapshots).None?
    ensures var after := Scan(h, id, data, keep);
      LatestIn(after.snapshots) == Some(Snap(id, data, true)) && after.events == h.events && after.alerts == h.alerts
  {
    ScanIsKept(h, id, data, keep);
    assert h.events + [] == h.events;
  }

  /** Accepting a snapshot makes it the one baseline and changes nothing else about the snapshots; it
      acknowledges exactly the open events of scans up to that one; and it resolves the incident exactly
      when events were open before and none is after. */
  lemma AcceptSays(h: History, pinned: Option<nat>)
    requires Chosen(h.snapshots, pinned).Some?
    ensures var id, after := Chosen(h.snapshots, pinned).value.id, Accept(h, pinned);
      && |after.snapshots| == |h.snapshots|
      && (forall i :: 0 <= i < |h.snapshots| ==>
            after.snapshots[i] == Snap(h.snapshots[i].id, h.snapshots[i].data, h.snapshots[i].id == id))
      && |after.events| == |h.events|
      && (forall k :: 0 <= k < |h.events| ==>
            && after.events[k] == h.events[k].(acknowledged := after.events[k].acknowledged)
            && (after.events[k].acknowledged <==> h.events[k].acknowledged || h.events[k].snapshotId <= id))
      && after.alerts == h.alerts + (if SomeOpen(h.events) && !SomeOpen(after.events) then [Resolve] else [])
  {
    var after := Accept(h, pinned);
    if SomeOpen(h.events) && !SomeOpen(after.events) {
      var k :| 0 <= k < |h.events| && !h.events[k].acknowledged;
      assert after.events[k].acknowledged;
    }
    if !SomeOpen(h.events) {
      NothingToAck(h.events, Chosen(h.snapshots, pinned).value.id);
    }
    assert h.alerts + [] == h.alerts;
  }

  /** With no snapshot to accept nothing changes. */
  lemma AcceptNothing(h: History, pinned: Option<nat>)
    requires Chosen(h.snapshots, pinned).None?
    ensures Accept(h, pinned) == h
    ensures pinned.None? ==> h.snapshots == []
    ensures pinned.Some? ==> forall s :: s in h.snapshots ==> s.id != pinned.value
  {}

  /** Acknowledging an open event closes that one, and the incident with the last of them; any other
      attempt changes nothing. */
  lemma AcknowledgeSays(h: History, k: nat)
    ensures var after := Acknowledge(h, k);
      if k < |h.events| && !h.events[k].acknowledged
        then
          && after.snapshots == h.snapshots
          && |after.events| == |h.events|
          && (forall i :: 0 <= i < |h.events| ==>
                after.events[i] == if i == k then h.events[i].(acknowledged := true) else h.events[i])
          && after.alerts == h.alerts + (if SomeOpen(after.events) then [] else [Resolve])
        else after == h
  {
    assert h.alerts + [] == h.alerts;
  }

  lemma RunAppend(acts: seq<Action>, a: Action, keep: nat)
    ensures Run(acts + [a], keep) == Step(Run(acts, keep), a, keep)
  {
    assert (acts + [a])[..|acts|] == acts;
  }

  /** While nothing has to be pruned a later scan only appends. */
  lemma {:induction false} NothingToPrune(snaps: seq<Snap>, n: nat)
    requires |snaps| <= n + BaselineCount(snaps)
    ensures KeepNewest(snaps, n) == snaps
  {
    if snaps != [] {
      var last, init := snaps[|snaps| - 1], snaps[..|snaps| - 1];
      CountWithin(init);
      assert snaps == init + [last];
      if last.isBaseline { NothingToPrune(init, n); } else { NothingToPrune(init, n - 1); }
    }
  }

  lemma {:induction false} CountWithin(snaps: seq<Snap>)
    ensures BaselineCount(snaps) <= |snaps|
  {
    if snaps != [] { CountWithin(snaps[..|snaps| - 1]); }
  }

  lemma LaterScan(h: History, id: nat, data: Snapshot, keep: nat)
    requires BaselineCount(h.snapshots) == 1 && |h.snapshots| < keep
    ensures Scan(h, id, data, keep).snapshots == h.snapshots + [Snap(id, data, false)]
  {
    NoBaselineIffZero(h.snapshots);
    LaterSnap(h.snapshots, Snap(id, data, false), keep);
  }

  lemma LaterSnap(snaps: seq<Snap>, snap: Snap, keep: nat)
    requires BaselineCount(snaps) == 1 && |snaps| < keep && !snap.isBaseline
    ensures Prune(snaps + [snap], Max(2, keep)) == snaps + [snap]
  {
    CountWithin(snaps);
    CountAppend(snaps, snap);
    PruneNothing(snaps + [snap], keep);
  }

  lemma PruneNothing(snaps: seq<Snap>, keep: nat)
    requires 2 <= keep && |snaps| <= keep && BaselineCount(snaps) == 1
    ensures Prune(snaps, Max(2, keep)) == snaps
  {
    var n := keep - 1;
    PruneIs(snaps, Max(2, keep), n);
    NothingToPrune(snaps, n);
  }

  lemma PruneIs(snaps: seq<Snap>, keep: nat, n: nat)
    requires n == Max(1, keep - 1)
    ensures Prune(snaps, keep) == KeepNewest(snaps, n)
  {}

  /** The first scan is the baseline. */
  lemma FirstScan(id: nat, data: Snapshot, keep: nat)
    ensures var h := Scan(EMPTY, id, data, keep);
      h.snapshots == [Snap(id, data, true)] && h.events == [] && BaselineCount(h.snapshots) == 1
  {
    var snaps := [Snap(id, data, true)];
    assert [] + snaps == snaps;
    CountAppend([], Snap(id, data, true));
    NothingToPrune(snaps, Max(1, Max(2, keep) - 1));
  }

  lemma SecondScan(h: History, a: Snap, id: nat, data: Snapshot, keep: nat)
    requires h.snapshots == [a] && h.events == [] && BaselineCount(h.snapshots) == 1 && keep > 1
    ensures var h' := Scan(h, id, data, keep);
      && h'.snapshots == [a, Snap(id, data, false)] && BaselineCount(h'.snapshots) == 1
      && forall e :: e in h'.events ==> e.snapshotId == id
  {
    LaterScan(h, id, data, keep);
    CountAppend(h.snapshots, Snap(id, data, false));
    EventsOfScanAreOpen(h.snapshots, id, data);
    assert [] + EventsOfScan(h.snapshots, id, data) == EventsOfScan(h.snapshots, id, data);
  }

  /** Going back to what the baseline shows is no drift. */
  lemma ScanOfTheBaseline(h: History, a: Snap, b: Snap, id: nat, keep: nat)
    requires h.snapshots == [a, b] && a.isBaseline && BaselineCount(h.snapshots) == 1 && keep > 2
    ensures var h' := Scan(h, id, a.data, keep);
      h'.snapshots == [a, b, Snap(id, a.data, false)] && h'.events == h.events
  {
    LaterScan(h, id, a.data, keep);
    assert a in h.snapshots;
    BaselineIsUnique(h.snapshots, a);
    forall k ensures !Differs(a.data, a.data, k) { NothingDiffersFromItself(a.data, k); }
    NothingCreated(a.data, PriorScan(h.snapshots, a), a.data, id, |ALL_CATEGORIES|);
    assert h.events + [] == h.events;
  }

  /** A host that went from `a` to `b` and back to `a`: accepting the snapshot of `b` makes `a`
      drift that nobody is told about. */
  lemma PinningMayHideDrift(a: Snapshot, b: Snapshot, c: Category, keep: nat)
    requires keep >= 3 && Differs(b, a, c)
    ensures exists acts :: !Reported(Run(acts, keep))
  {
    var acts2 := TwoScans(a, b, keep);
    ThirdScanAndPin(acts2, a, b, c, keep);
  }

  lemma TwoScans(a: Snapshot, b: Snapshot, keep: nat) returns (acts: seq<Action>)
    requires keep >= 3
    ensures var h := Run(acts, keep);
      h.snapshots == [Snap(1, a, true), Snap(2, b, false)] && BaselineCount(h.snapshots) == 1 && forall e :: e in h.events ==> e.snapshotId == 2
  {
    var acts1 := [] + [DoScan(1, a)];
    acts := acts1 + [DoScan(2, b)];
    RunAppend([], DoScan(1, a), keep);
    FirstScan(1, a, keep);
    RunAppend(acts1, DoScan(2, b), keep);
    SecondScan(Run(acts1, keep), Snap(1, a, true), 2, b, keep);
  }

  lemma ThirdScanAndPin(acts2: seq<Action>, a: Snapshot, b: Snapshot, c: Category, keep: nat)
    requires keep >= 3 && Differs(b, a, c)
    requires var h := Run(acts2, keep);
      h.snapshots == [Snap(1, a, true), Snap(2, b, false)] && BaselineCount(h.snapshots) == 1 && forall e :: e in h.events ==> e.snapshotId == 2
    ensures exists acts :: !Reported(Run(acts, keep))
  {
    var acts3 := acts2 + [DoScan(3, a)];
    ThirdScan(acts2, acts3, a, b, keep);
    PinTheMiddle(acts3, Snap(1, a, true), Snap(2, b, false), Snap(3, a, false), c, keep);
  }

  lemma PinTheMiddle(acts: seq<Action>, s1: Snap, s2: Snap, s3: Snap, c: Category, keep: nat)
    requires Run(acts, keep).snapshots == [s1, s2, s3] && Differs(s2.data, s3.data, c)
    requires forall e :: e in Run(acts, keep).events ==> e.snapshotId <= s2.id
    ensures exists more :: !Reported(Run(more, keep))
  {
    RunKeepsInv(acts, keep);
    RunAppend(acts, DoAccept(Some(s2.id)), keep);
    PinnedInTheMiddle(Run(acts, keep), s1, s2, s3, c, keep);
    assert !Reported(Run(acts + [DoAccept(Some(s2.id))], keep));
  }

  lemma ThirdScan(acts2: seq<Action>, acts3: seq<Action>, a: Snapshot, b: Snapshot, keep: nat)
    requires keep >= 3 && acts3 == acts2 + [DoScan(3, a)]
    requires var h := Run(acts2, keep);
      h.snapshots == [Snap(1, a, true), Snap(2, b, false)] && BaselineCount(h.snapshots) == 1 && forall e :: e in h.events ==> e.snapshotId == 2
    ensures var h := Run(acts3, keep);
      h.snapshots == [Snap(1, a, true), Snap(2, b, false), Snap(3, a, false)] && forall e :: e in h.events ==> e.snapshotId == 2
  {
    RunAppend(acts2, DoScan(3, a), keep);
    ScanOfTheBaseline(Run(acts2, keep), Snap(1, a, true), Snap(2, b, false), 3, keep);
  }

  lemma PinnedInTheMiddle(h: History, s1: Snap, s2: Snap, s3: Snap, c: Category, keep: nat)
    requires Inv(h, keep) && h.snapshots == [s1, s2, s3] && Differs(s2.data, s3.data, c)
    requires forall e :: e in h.events ==> e.snapshotId <= s2.id
    ensures !Reported(Accept(h, Some(s2.id)))
  {
    var snaps := h.snapshots;
    assert snaps[1] == s2 && snaps[2] == s3;
    assert s2 in snaps;
    assert Chosen(snaps, Some(s2.id)) == Some(s2);
    assert LatestIn(snaps) == Some(s3);
    assert !CoversLatest(h, Some(s2.id));
    PinningHidesDriftIff(h, Some(s2.id), keep);
  }

  /** Hidden drift stays hidden: scanning the unchanged host again reports nothing. */
  lemma HiddenDriftStaysHidden(h: History, id: nat, keep: nat)
    requires Inv(h, keep) && h.snapshots != [] && Fresh(h.snapshots, id) && !Reported(h)
    ensures !Reported(Scan(h, id, LatestIn(h.snapshots).value.data, keep))
  {
    var data := LatestIn(h.snapshots).value.data;
    UnchangedHostIsSilent(h, id, keep);
    NoBaselineIffZero(h.snapshots);
    var snap := Snap(id, data, false);
    CountAppend(h.snapshots, snap);
    PruneKeepsBaseline(h.snapshots + [snap], Max(1, Max(2, keep) - 1));
    ScanIsKept(h, id, data, keep);
    assert (h.snapshots + [snap])[..|h.snapshots|] == h.snapshots;
  }
}
