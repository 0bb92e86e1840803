/** Two snapshots of a host compared category by category. Group members, ports and authorized keys are
    compared only as far as both sides could see them, and a new key is rated by what its
    account may do. */
module DriftSnapshots {
  import opened Options
  import opened Utf16
  import opened DriftDiff

  const COLON: CodeUnit := 58
  const SPACE: CodeUnit := 32

  /** As `getent` lists groups and `ssh-keygen` prints fingerprints. */
  type GroupName = s: JsText | COLON !in s

  /** A sudoers rule, and whom it grants rights to. */
  datatype Rule = Rule(text: JsText, users: set<JsText>, everyone: bool)

  datatype Port = Port(proto: JsText, local: JsText, process: Option<JsText>)

  type HeldKey = k: AuthKey | SPACE !in k.fp witness AuthKey([], [], [])

  /** A category that could not be collected is None. */
  datatype Snapshot = Snapshot(
    users: Option<seq<User>>,
    groups: Option<map<GroupName, seq<JsText>>>,
    sudoers: Option<seq<Rule>>,
    crontabs: Option<map<JsText, JsText>>,
    ports: Option<seq<Port>>,
    units: Option<seq<JsText>>,
    authorizedKeys: Option<map<JsText, seq<HeldKey>>>)

  predicate Has(s: Snapshot, category: Category) {
    match category
    case Users => s.users.Some?
    case Groups => s.groups.Some?
    case Sudoers => s.sudoers.Some?
    case Crontabs => s.crontabs.Some?
    case Ports => s.ports.Some?
    case Units => s.units.Some?
    case AuthorizedKeys => s.authorizedKeys.Some?
  }

  predicate Comparable(baseline: Snapshot, current: Snapshot, category: Category) {
    Has(baseline, category) && Has(current, category)
  }

  function Texts(rules: seq<Rule>): seq<JsText> {
    seq(|rules|, i requires 0 <= i < |rules| => rules[i].text)
  }

  // ---- Keys of two parts --------------------------------------------------------------------

  function Joined(a: JsText, sep: CodeUnit, b: JsText): JsText {
    a + [sep] + b
  }

  lemma SplitsFirst(a: JsText, b: JsText, c: JsText, d: JsText, sep: CodeUnit)
    requires sep !in a && sep !in c && Joined(a, sep, b) == Joined(c, sep, d)
    ensures a == c && b == d
  {
    var x, y := Joined(a, sep, b), Joined(c, sep, d);
    assert x[|a|] == sep && y[|c|] == sep;
    assert forall i :: 0 <= i < |a| ==> x[i] == a[i];
    assert forall i :: 0 <= i < |c| ==> y[i] == c[i];
    assert |a| == |c|;
    assert x[..|a|] == a && y[..|c|] == c && x[|a| + 1..] == b && y[|c| + 1..] == d;
  }

  lemma SplitsLast(a: JsText, b: JsText, c: JsText, d: JsText, sep: CodeUnit)
    requires sep !in b && sep !in d && Joined(a, sep, b) == Joined(c, sep, d)
    ensures a == c && b == d
  {
    var x, y := Joined(a, sep, b), Joined(c, sep, d);
    assert x[|a|] == sep && y[|c|] == sep;
    assert forall i :: |a| < i < |x| ==> x[i] == b[i - |a| - 1];
    assert forall i :: |c| < i < |y| ==> y[i] == d[i - |c| - 1];
    assert |a| == |c|;
    assert x[..|a|] == a && y[..|c|] == c && x[|a| + 1..] == b && y[|c| + 1..] == d;
  }

  // ---- Members of privileged groups -----------------------------------------------------------

  function Ascii(s: string): JsText
    requires forall i :: 0 <= i < |s| ==> s[i] < '\U{80}'
  {
    seq(|s|, i requires 0 <= i < |s| => s[i] as int as CodeUnit)
  }

  const PRIVILEGED_OS_GROUPS: set<JsText> := {
    Ascii("sudo"), Ascii("wheel"), Ascii("admin"), Ascii("docker"), Ascii("lxd"), Ascii("disk"), Ascii("root"), Ascii("adm"), Ascii("shadow")
  }

  /** A group that is not privileged is listed only because sudoers names it: where sudoers could not
      be read, its absence says nothing. */
  predicate KnowsGroup(s: Snapshot, group: GroupName)
    requires s.groups.Some?
  {
    group in s.groups.value || group in PRIVILEGED_OS_GROUPS || s.sudoers.Some?
  }

  /** Group and member, of the groups both sides know about. */
  function MembersOf(s: Snapshot, other: Snapshot): Content
    requires s.groups.Some? && other.groups.Some?
  {
    MembersSplit();
    var known := set g | g in s.groups.value && KnowsGroup(other, g);
    map g, m | g in known && m in s.groups.value[g] :: Joined(g, COLON, m) := Member(g, m)
  }

  lemma MembersSplit()
    ensures forall g: GroupName, h: GroupName, m, n :: Joined(g, COLON, m) == Joined(h, COLON, n) ==> g == h && m == n
  {
    forall g: GroupName, h: GroupName, m, n | Joined(g, COLON, m) == Joined(h, COLON, n)
      ensures g == h && m == n
    {
      SplitsFirst(g, m, h, n, COLON);
    }
  }

  /** What is reported of groups: who is a member on one side only, of a group both sides know about. */
  lemma GroupsDifferIff(baseline: Snapshot, current: Snapshot)
    requires baseline.groups.Some? && current.groups.Some?
    ensures MembersOf(baseline, current) != MembersOf(current, baseline) <==>
      exists g: GroupName, m :: IsMember(baseline, g, m) != IsMember(current, g, m) && KnowsGroup(baseline, g) && KnowsGroup(current, g)
  {
    var a, b := MembersOf(baseline, current), MembersOf(current, baseline);
    MembersSplit();
    forall g: GroupName, m
      ensures Joined(g, COLON, m) in a <==> IsMember(baseline, g, m) && KnowsGroup(current, g)
      ensures Joined(g, COLON, m) in b <==> IsMember(current, g, m) && KnowsGroup(baseline, g)
    {}
    if a != b {
      var k :| k in a.Keys + b.Keys && (k in a) != (k in b);
    }
  }

  predicate IsMember(s: Snapshot, group: GroupName, member: JsText)
    requires s.groups.Some?
  {
    group in s.groups.value && member in s.groups.value[group]
  }

  method DiffGroups(baseline: Snapshot, current: Snapshot) returns (out: Changes)
    requires baseline.groups.Some? && current.groups.Some?
    ensures IsDiff(Groups, MembersOf(baseline, current), MembersOf(current, baseline), out)
  {
    out := DiffByOwner(Groups, MembersOf(baseline, current), MembersOf(current, baseline));
  }

  /** Whose group or key it is. */
  function Owner(v: Value): JsText {
    match v
    case Member(group, _) => group
    case Key(holder, _, _) => holder
    case _ => []
  }

  function OwnedBy(m: Content, owners: set<JsText>): set<JsText> {
    set k | k in m && Owner(m[k]) in owners
  }

  lemma OwnedSplit(m: Content, owners: set<JsText>, owner: JsText)
    requires owner in owners
    ensures OwnedBy(m, {owner}) <= OwnedBy(m, owners) && OwnedBy(m, owners) - OwnedBy(m, {owner}) == OwnedBy(m, owners - {owner})
  {}

  predicate OneSidedOnly(category: Category, a: Content, b: Content) {
    (category == Groups || category == AuthorizedKeys) && forall k :: k in a && k in b ==> a[k] == b[k]
  }

  /** Every new member is critical; of the new keys those are that open a privileged account. */
  function NewSeverity(category: Category, v: Value): Severity {
    if category == Groups || (v.Key? && v.privileged) then Critical else Warning
  }

  lemma NewStep(category: Category, a: Content, b: Content, added: seq<Item>, todo: set<JsText>, key: JsText)
    requires OneSidedOnly(category, a, b) && Progress(category, a, b, added, [], todo) && key in todo
    ensures key !in a ==> Progress(category, a, b, added + [Item(key, NewSeverity(category, b[key]), NoValue, b[key])], [], todo - {key})
    ensures key in a ==> Progress(category, a, b, added, [], todo - {key})
  {
    ProgressStep(category, a, b, added, [], todo, key);
    if key !in a {
      assert ItemFor(category, a, b, key) == Item(key, NewSeverity(category, b[key]), NoValue, b[key]);
    }
  }

  /** What one group or user has in the scan and had not in the baseline. */
  method NewOnes(category: Category, a: Content, b: Content, before: seq<Item>, todo: set<JsText>, mine: set<JsText>) returns (added: seq<Item>)
    requires OneSidedOnly(category, a, b) && mine <= todo && Progress(category, a, b, before, [], todo)
    ensures Progress(category, a, b, added, [], todo - mine)
  {
    added := before;
    var here := mine;
    assert todo - mine + mine == todo;
    while here != {}
      invariant here <= mine && Progress(category, a, b, added, [], todo - mine + here)
      decreases |here|
    {
      var key :| key in here;
      NewStep(category, a, b, added, todo - mine + here, key);
      assert todo - mine + here - {key} == todo - mine + (here - {key});
      if key !in a {
        added := added + [Item(key, NewSeverity(category, b[key]), NoValue, b[key])];
      }
      here := here - {key};
    }
    assert todo - mine + {} == todo - mine;
  }

  /** What it had in the baseline and has not in the scan. */
  method GoneOnes(category: Category, a: Content, b: Content, before: seq<Item>, todo: set<JsText>, mine: set<JsText>) returns (removed: seq<Item>)
    requires mine <= todo && RemovedSoFar(category, a, b, before, todo)
    ensures RemovedSoFar(category, a, b, removed, todo - mine)
  {
    removed := before;
    var here := mine;
    assert todo - mine + mine == todo;
    while here != {}
      invariant here <= mine && RemovedSoFar(category, a, b, removed, todo - mine + here)
      decreases |here|
    {
      var key :| key in here;
      RemovedStep(category, a, b, removed, todo - mine + here, key);
      assert todo - mine + here - {key} == todo - mine + (here - {key});
      if key !in b {
        removed := removed + [Item(key, Info, a[key], NoValue)];
      }
      here := here - {key};
    }
    assert todo - mine + {} == todo - mine;
  }

  /** The groups or users not among `owners` are dealt with. */
  ghost predicate OwnersLeft(category: Category, a: Content, b: Content, added: seq<Item>, removed: seq<Item>, owners: set<JsText>) {
    Progress(category, a, b, added, [], OwnedBy(b, owners)) && RemovedSoFar(category, a, b, removed, OwnedBy(a, owners))
  }

  lemma OwnersStart(category: Category, a: Content, b: Content, owners: set<JsText>)
    requires forall k :: k in a ==> Owner(a[k]) in owners
    requires forall k :: k in b ==> Owner(b[k]) in owners
    ensures OwnersLeft(category, a, b, [], [], owners)
  {
    ProgressStarts(category, a, b);
    RemovedStarts(category, a, b);
    assert OwnedBy(b, owners) == b.Keys && OwnedBy(a, owners) == a.Keys;
  }

  lemma OwnersStep(category: Category, a: Content, b: Content, added: seq<Item>, removed: seq<Item>, owners: set<JsText>, owner: JsText)
    requires owner in owners
    requires Progress(category, a, b, added, [], OwnedBy(b, owners) - OwnedBy(b, {owner}))
    requires RemovedSoFar(category, a, b, removed, OwnedBy(a, owners) - OwnedBy(a, {owner}))
    ensures OwnersLeft(category, a, b, added, removed, owners - {owner})
  {
    OwnedSplit(b, owners, owner);
    OwnedSplit(a, owners, owner);
  }

  lemma OwnersEnd(category: Category, a: Content, b: Content, added: seq<Item>, removed: seq<Item>)
    requires OneSidedOnly(category, a, b) && OwnersLeft(category, a, b, added, removed, {})
    ensures IsDiff(category, a, b, Changes(added, removed, [], 0))
  {
    assert OwnedBy(b, {}) == {} && OwnedBy(a, {}) == {};
    ProgressEnds(category, a, b, added, []);
    RemovedEnds(category, a, b, removed);
    NoneChanged(a, b);
  }

  /** Group by group, or user by user: what is on one side only. */
  method DiffByOwner(category: Category, a: Content, b: Content) returns (out: Changes)
    requires OneSidedOnly(category, a, b)
    ensures IsDiff(category, a, b, out)
  {
    var added, removed: seq<Item> := [], [];
    var owners := Owners(a) + Owners(b);
    OwnersStart(category, a, b, owners);
    while owners != {}
      invariant OwnersLeft(category, a, b, added, removed, owners)
      decreases |owners|
    {
      var owner :| owner in owners;
      OwnedSplit(b, owners, owner);
      OwnedSplit(a, owners, owner);
      added := NewOnes(category, a, b, added, OwnedBy(b, owners), OwnedBy(b, {owner}));
      removed := GoneOnes(category, a, b, removed, OwnedBy(a, owners), OwnedBy(a, {owner}));
      OwnersStep(category, a, b, added, removed, owners, owner);
      owners := owners - {owner};
    }
    OwnersEnd(category, a, b, added, removed);
    out := Changes(added, removed, [], 0);
  }

  function Owners(m: Content): (owners: set<JsText>)
    ensures forall k :: k in m ==> Owner(m[k]) in owners
  {
    set k | k in m :: Owner(m[k])
  }

  lemma NoneChanged(a: Content, b: Content)
    requires forall k :: k in a && k in b ==> a[k] == b[k]
    ensures KeysChanged(a, b) == {}
  {}

  // ---- Listening ports ------------------------------------------------------------------------

  /** The last port of an address wins. */
  function ByAddress(ports: seq<Port>): Content {
    if ports == [] then map[]
    else
      var last := ports[|ports| - 1];
      ByAddress(ports[..|ports| - 1])[Joined(last.proto, SPACE, last.local) := Listening(last.proto, last.local, last.process)]
  }

  /** Both sides could see who serves the port, and it is somebody else. */
  predicate ServedOtherwise(x: Value, y: Value) {
    x.Listening? && y.Listening? && x.process.Some? && y.process.Some? && x.process != y.process
  }

  /** The ports of a scan, as far as they can be told apart from those of the baseline. */
  function SeenPorts(a: Content, b: Content): Content {
    map k | k in b :: if k in a && !ServedOtherwise(a[k], b[k]) then a[k] else b[k]
  }

  /** What is reported of ports: who listens on one side only, and a port known to be served otherwise. */
  lemma PortsDifferIff(a: Content, b: Content)
    ensures a != SeenPorts(a, b) <==> a.Keys != b.Keys || exists k :: k in a && k in b && ServedOtherwise(a[k], b[k])
  {
    var c := SeenPorts(a, b);
    assert c.Keys == b.Keys;
    if a.Keys == b.Keys && (forall k :: k in a && k in b ==> !ServedOtherwise(a[k], b[k])) {
      assert a == c;
    }
    if k :| k in a && k in b && ServedOtherwise(a[k], b[k]) {
      assert a[k] != c[k];
    }
  }

  method DiffPorts(before: seq<Port>, after: seq<Port>) returns (out: Changes)
    ensures IsDiff(Ports, ByAddress(before), SeenPorts(ByAddress(before), ByAddress(after)), out)
  {
    var a, b := ByAddress(before), ByAddress(after);
    ghost var seen := SeenPorts(a, b);
    var added, changed: seq<Item> := [], [];
    var todo: set<JsText> := b.Keys;
    AddressesListen(before);
    AddressesListen(after);
    ProgressStarts(Ports, a, seen);
    while todo != {}
      invariant Progress(Ports, a, seen, added, changed, todo)
      decreases |todo|
    {
      var k :| k in todo;
      ProgressStep(Ports, a, seen, added, changed, todo, k);
      var p := b[k];
      if k !in a {
        added := added + [Item(k, Warning, NoValue, p)];
      } else if a[k].process.Some? && p.process.Some? && a[k].process != p.process {
        changed := changed + [Item(k, Warning, a[k], p)];
      }
      todo := todo - {k};
    }
    ProgressEnds(Ports, a, seen, added, changed);
    var removed := OneSided(Ports, a, SeenPorts(a, b));
    out := Changes(added, removed, changed, 0);
  }

  lemma {:induction false} AddressesListen(ports: seq<Port>)
    ensures forall k :: k in ByAddress(ports) ==> ByAddress(ports)[k].Listening?
  {
    if ports != [] { AddressesListen(ports[..|ports| - 1]); }
  }

  // ---- Authorized keys --------------------------------------------------------------------------

  /** Root, everybody with uid 0, in a listed group or named by a sudoers rule. */
  function PrivilegedUsers(users: Option<seq<User>>, groups: Option<map<GroupName, seq<JsText>>>, sudoers: Option<seq<Rule>>): set<JsText> {
    {Ascii("root")}
    + (if users.None? then {} else set u | u in users.value && u.uid == 0 :: u.name)
    + (if groups.None? then {} else set g, m | g in groups.value && m in groups.value[g] :: m)
    + (if sudoers.None? then {} else set r, u | r in sudoers.value && u in r.users :: u)
  }

  predicate Everyone(sudoers: Option<seq<Rule>>) {
    sudoers.Some? && exists r :: r in sudoers.value && r.everyone
  }

  function OrElse<T>(newest: Option<T>, older: Option<T>): Option<T> {
    if newest.Some? then newest else older
  }

  /** Judged on the newest account data there is. */
  predicate MayBecomeRoot(baseline: Snapshot, current: Snapshot, user: JsText) {
    var sudoers := OrElse(current.sudoers, baseline.sudoers);
    Everyone(sudoers) || user in PrivilegedUsers(OrElse(current.users, baseline.users), OrElse(current.groups, baseline.groups), sudoers)
  }

  /** The last key of a fingerprint wins. */
  function ByPrint(keys: seq<HeldKey>): map<JsText, HeldKey> {
    if keys == [] then map[]
    else
      var last := keys[|keys| - 1];
      ByPrint(keys[..|keys| - 1])[last.fp := last]
  }

  lemma {:induction false} PrintsHaveNoSpace(keys: seq<HeldKey>)
    ensures forall fp :: fp in ByPrint(keys) ==> SPACE !in fp
  {
    if keys != [] { PrintsHaveNoSpace(keys[..|keys| - 1]); }
  }

  lemma KeysSplit()
    ensures forall u, v, p, q :: SPACE !in p && SPACE !in q && Joined(u, SPACE, p) == Joined(v, SPACE, q) ==> u == v && p == q
  {
    forall u, v, p, q | SPACE !in p && SPACE !in q && Joined(u, SPACE, p) == Joined(v, SPACE, q)
      ensures u == v && p == q
    {
      SplitsLast(u, p, v, q, SPACE);
    }
  }

  /** Users and the fingerprints they hold. */
  function Held(held: map<JsText, seq<HeldKey>>): set<(JsText, JsText)> {
    set u, fp | u in held && fp in ByPrint(held[u]) :: (u, fp)
  }

  lemma HeldAre(held: map<JsText, seq<HeldKey>>)
    ensures forall p :: p in Held(held) ==> p.0 in held && p.1 in ByPrint(held[p.0]) && SPACE !in p.1
  {
    forall p | p in Held(held)
      ensures p.0 in held && p.1 in ByPrint(held[p.0]) && SPACE !in p.1
    {
      PrintsHaveNoSpace(held[p.0]);
    }
  }

  function Names(pairs: set<(JsText, JsText)>): set<JsText> {
    set p | p in pairs :: Joined(p.0, SPACE, p.1)
  }

  /** Whose key it is, and which. */
  function Named(held: map<JsText, seq<HeldKey>>, name: JsText): (JsText, JsText)
    requires name in Names(Held(held))
    ensures Named(held, name) in Held(held) && Joined(Named(held, name).0, SPACE, Named(held, name).1) == name
  {
    NamesSplit(held, name);
    var p :| p in Held(held) && Joined(p.0, SPACE, p.1) == name;
    p
  }

  lemma NamesSplit(held: map<JsText, seq<HeldKey>>, name: JsText)
    ensures forall p, q :: p in Held(held) && q in Held(held) && Joined(p.0, SPACE, p.1) == Joined(q.0, SPACE, q.1) ==> p == q
  {
    KeysSplit();
    HeldAre(held);
  }

  /** By user and fingerprint. */
  function HeldKeys(held: map<JsText, seq<HeldKey>>): Content {
    map k | k in Names(Held(held)) :: Key(Named(held, k).0, ByPrint(held[Named(held, k).0])[Named(held, k).1], false)
  }

  /** The keys of a scan: those the baseline has, too, as there, and the others with what they open. */
  function RatedKeys(baseline: Snapshot, current: Snapshot, a: Content, b: Content): Content {
    map k | k in b :: if k in a then a[k] else if b[k].Key? then b[k].(privileged := MayBecomeRoot(baseline, current, b[k].holder)) else b[k]
  }

  lemma HeldKeyIn(held: map<JsText, seq<HeldKey>>, user: JsText, fp: JsText)
    requires SPACE !in fp
    ensures Joined(user, SPACE, fp) in HeldKeys(held) <==> (user, fp) in Held(held)
  {
    KeysSplit();
    HeldAre(held);
    if Joined(user, SPACE, fp) in HeldKeys(held) {
      assert Named(held, Joined(user, SPACE, fp)) == (user, fp);
    }
  }

  lemma KeysAreNames(held: map<JsText, seq<HeldKey>>)
    ensures HeldKeys(held).Keys == Names(Held(held))
  {}

  lemma HeldWithin(was: map<JsText, seq<HeldKey>>, now: map<JsText, seq<HeldKey>>)
    requires HeldKeys(was).Keys <= HeldKeys(now).Keys
    ensures Held(was) <= Held(now)
  {
    HeldAre(was);
    forall p | p in Held(was)
      ensures p in Held(now)
    {
      HeldKeyIn(was, p.0, p.1);
      HeldKeyIn(now, p.0, p.1);
    }
  }

  lemma SameHeld(was: map<JsText, seq<HeldKey>>, now: map<JsText, seq<HeldKey>>)
    ensures HeldKeys(was).Keys == HeldKeys(now).Keys <==> Held(was) == Held(now)
  {
    KeysAreNames(was);
    KeysAreNames(now);
    if HeldKeys(was).Keys == HeldKeys(now).Keys {
      HeldWithin(was, now);
      HeldWithin(now, was);
    }
  }

  /** What is reported of keys: which user holds which fingerprint, on one side only. */
  lemma KeysDifferIff(baseline: Snapshot, current: Snapshot)
    requires Comparable(baseline, current, AuthorizedKeys)
    ensures Differs(baseline, current, AuthorizedKeys) <==> Held(baseline.authorizedKeys.value) != Held(current.authorizedKeys.value)
  {
    SameHeld(baseline.authorizedKeys.value, current.authorizedKeys.value);
    RatedDiffers(baseline, current, HeldKeys(baseline.authorizedKeys.value), HeldKeys(current.authorizedKeys.value));
  }

  lemma RatedDiffers(baseline: Snapshot, current: Snapshot, a: Content, b: Content)
    ensures a == RatedKeys(baseline, current, a, b) <==> a.Keys == b.Keys
  {
    assert RatedKeys(baseline, current, a, b).Keys == b.Keys;
  }

  method DiffAuthorizedKeys(baseline: Snapshot, current: Snapshot) returns (out: Changes)
    requires baseline.authorizedKeys.Some? && current.authorizedKeys.Some?
    ensures var a, b := HeldKeys(baseline.authorizedKeys.value), HeldKeys(current.authorizedKeys.value);
      IsDiff(AuthorizedKeys, a, RatedKeys(baseline, current, a, b), out)
  {
    var a, b := HeldKeys(baseline.authorizedKeys.value), HeldKeys(current.authorizedKeys.value);
    out := DiffByOwner(AuthorizedKeys, a, RatedKeys(baseline, current, a, b));
  }

  // ---- The two sides of a comparison --------------------------------------------------------------

  /** What the baseline has of a category, and what the scan has of it, as far as they can be compared. */
  function Before(baseline: Snapshot, current: Snapshot, category: Category): Content
    requires Comparable(baseline, current, category)
  {
    match category
    case Users => ByName(baseline.users.value)
    case Groups => MembersOf(baseline, current)
    case Sudoers => SetOf(Texts(baseline.sudoers.value))
    case Crontabs => HashesOf(baseline.crontabs.value)
    case Ports => ByAddress(baseline.ports.value)
    case Units => SetOf(baseline.units.value)
    case AuthorizedKeys => HeldKeys(baseline.authorizedKeys.value)
  }

  function After(baseline: Snapshot, current: Snapshot, category: Category): Content
    requires Comparable(baseline, current, category)
  {
    match category
    case Users => ByName(current.users.value)
    case Groups => MembersOf(current, baseline)
    case Sudoers => SetOf(Texts(current.sudoers.value))
    case Crontabs => HashesOf(current.crontabs.value)
    case Ports => SeenPorts(ByAddress(baseline.ports.value), ByAddress(current.ports.value))
    case Units => SetOf(current.units.value)
    case AuthorizedKeys => RatedKeys(baseline, current, HeldKeys(baseline.authorizedKeys.value), HeldKeys(current.authorizedKeys.value))
  }

  predicate Differs(baseline: Snapshot, current: Snapshot, category: Category) {
    Comparable(baseline, current, category) && Before(baseline, current, category) != After(baseline, current, category)
  }

  // ---- Categories --------------------------------------------------------------------------------

  /** What is stored for one category. */
  ghost predicate Reports(category: Category, a: Content, b: Content, d: CategoryDiff) {
    && d.fingerprint == FingerprintOf(category, a, b)
    && d.changes == Truncate(d.fingerprint)
    && IsMaxSeverity(AllItems(d.changes), d.severity)
    && IsMaxSeverity(AllItems(d.fingerprint), d.severity)
    && ChangeCount(d.changes) == ChangeCount(d.fingerprint) > 0
  }

  ghost predicate ReportsDifference(baseline: Snapshot, current: Snapshot, category: Category, d: CategoryDiff) {
    && Comparable(baseline, current, category)
    && Reports(category, Before(baseline, current, category), After(baseline, current, category), d)
  }

  /** The comparison of one category that both sides collected. */
  method DiffCategory(baseline: Snapshot, current: Snapshot, category: Category) returns (d: Option<CategoryDiff>)
    requires Comparable(baseline, current, category)
    ensures d != None <==> Differs(baseline, current, category)
    ensures d != None ==> ReportsDifference(baseline, current, category, d.value)
  {
    ghost var a, b := Before(baseline, current, category), After(baseline, current, category);
    var changes: Changes;
    match category {
      case Users => changes := DiffUsers(baseline.users.value, current.users.value);
      case Groups => changes := DiffGroups(baseline, current);
      case Sudoers => changes := DiffStringSet(Sudoers, Texts(baseline.sudoers.value), Texts(current.sudoers.value));
      case Crontabs => changes := DiffCrontabs(baseline.crontabs.value, current.crontabs.value);
      case Ports => changes := DiffPorts(baseline.ports.value, current.ports.value);
      case Units => changes := DiffStringSet(Units, baseline.units.value, current.units.value);
      case AuthorizedKeys => changes := DiffAuthorizedKeys(baseline, current);
    }
    NoChangeIffEqual(category, a, b, changes);
    if |changes.added| + |changes.removed| + |changes.changed| == 0 { return None; }
    SortKeepsDiff(category, a, b, changes);
    var sorted := SortChanges(changes);
    NoChangeIffEqual(category, a, b, sorted);
    FingerprintIdentifiesContent(category, a, b, sorted, b, FingerprintOf(category, a, b));
    var severity := ChangesSeverity(sorted);
    TruncateKeepsCountAndSeverity(sorted, severity);
    d := Some(CategoryDiff(severity, Truncate(sorted), sorted));
  }

  const ALL_CATEGORIES: seq<Category> := [Users, Groups, Sudoers, Crontabs, Ports, Units, AuthorizedKeys]

  lemma EveryCategory()
    ensures forall c: Category :: c in ALL_CATEGORIES
  {
    forall c: Category ensures c in ALL_CATEGORIES {
      var k := match c case Users => 0 case Groups => 1 case Sudoers => 2 case Crontabs => 3 case Ports => 4 case Units => 5 case AuthorizedKeys => 6;
      assert ALL_CATEGORIES[k] == c;
    }
  }

  method DiffSnapshots(baseline: Snapshot, current: Snapshot)
    returns (categories: map<Category, CategoryDiff>, skipped: set<Category>)
    ensures forall c :: c in skipped <==> !Comparable(baseline, current, c)
    ensures forall c :: c in categories <==> Differs(baseline, current, c)
    ensures forall c :: c in categories ==> ReportsDifference(baseline, current, c, categories[c])
  {
    categories, skipped := map[], {};
    for k := 0 to |ALL_CATEGORIES|
      invariant forall c :: c in skipped <==> c in ALL_CATEGORIES[..k] && !Comparable(baseline, current, c)
      invariant forall c :: c in categories <==> c in ALL_CATEGORIES[..k] && Differs(baseline, current, c)
      invariant forall c :: c in categories ==> ReportsDifference(baseline, current, c, categories[c])
    {
      var category := ALL_CATEGORIES[k];
      assert ALL_CATEGORIES[..k + 1] == ALL_CATEGORIES[..k] + [category];
      if Comparable(baseline, current, category) {
        var d := DiffCategory(baseline, current, category);
        if d != None { categories := categories[category := d.value]; }
      } else {
        skipped := skipped + {category};
      }
    }
    assert ALL_CATEGORIES[..|ALL_CATEGORIES|] == ALL_CATEGORIES;
    EveryCategory();
  }
}
