/** What a comparison says about the two snapshots themselves: which accounts, members, rules,
    crontabs, ports, units and keys make a category differ, and how each of them is rated. */
module DriftReports {
  import opened Options
  import opened Utf16
  import opened DriftDiff
  import opened DriftSnapshots

  // ---- Items and contents -----------------------------------------------------------------

  /** An item names something that the two sides do not have alike, and says what each has. */
  lemma ItemSays(category: Category, a: Content, b: Content, c: Changes, x: Item)
    requires IsDiff(category, a, b, c) && x in AllItems(c)
    ensures At(a, x.key) != At(b, x.key)
    ensures x.before == ValueOf(At(a, x.key)) && x.after == ValueOf(At(b, x.key))
    ensures x.severity == Rate(category, At(a, x.key), At(b, x.key))
  {
    if x in c.added {
      InKeys(c.added, x);
    } else if x in c.removed {
      InKeys(c.removed, x);
    } else {
      InKeys(c.changed, x);
    }
  }

  lemma SomeKeyDiffers(a: Content, b: Content)
    ensures a != b <==> exists k :: At(a, k) != At(b, k)
  {
    if forall k :: At(a, k) == At(b, k) {
      forall k
        ensures (k in a) == (k in b) && (k in a ==> a[k] == b[k])
      {
        assert At(a, k) == At(b, k);
      }
      assert a == b;
    }
  }

  // ---- Accounts -----------------------------------------------------------------------------

  /** The account of that name: the last one listed. */
  ghost predicate HasAccount(users: seq<User>, u: User) {
    exists i :: 0 <= i < |users| && users[i] == u && forall j :: i < j < |users| ==> users[j].name != u.name
  }

  ghost predicate HasName(users: seq<User>, name: JsText) {
    exists i :: 0 <= i < |users| && users[i].name == name
  }

  lemma AccountAdded(users: seq<User>, last: User, u: User)
    ensures HasAccount(users + [last], u) <==> u == last || (u.name != last.name && HasAccount(users, u))
  {
    var more := users + [last];
    assert more[|users|] == last;
    if HasAccount(more, u) && u != last {
      var i :| 0 <= i < |more| && more[i] == u && forall j :: i < j < |more| ==> more[j].name != u.name;
      assert users[i] == u && forall j :: i < j < |users| ==> more[j].name == users[j].name;
    }
    if u.name != last.name && HasAccount(users, u) {
      var i :| 0 <= i < |users| && users[i] == u && forall j :: i < j < |users| ==> users[j].name != u.name;
      assert more[i] == u;
    }
  }

  lemma {:induction false} AccountIff(users: seq<User>, u: User)
    ensures HasAccount(users, u) <==> At(ByName(users), u.name) == Some(Account(u))
  {
    if users != [] {
      var init, last := users[..|users| - 1], users[|users| - 1];
      assert users == init + [last];
      AccountIff(init, u);
      AccountAdded(init, last, u);
    }
  }

  lemma {:induction false} NameIff(users: seq<User>, name: JsText)
    ensures HasName(users, name) <==> name in ByName(users)
  {
    if users != [] {
      var init, last := users[..|users| - 1], users[|users| - 1];
      NameIff(init, name);
      assert forall i :: 0 <= i < |init| ==> init[i] == users[i];
      assert users[|users| - 1].name == last.name;
    }
  }

  /** Users differ exactly when somebody is an account on one side and not on the other, with that
      very uid, gid, home and shell. */
  lemma UsersDifferIff(baseline: Snapshot, current: Snapshot)
    requires Comparable(baseline, current, Users)
    ensures Differs(baseline, current, Users) <==>
      exists u :: HasAccount(baseline.users.value, u) != HasAccount(current.users.value, u)
  {
    var was, now := baseline.users.value, current.users.value;
    var a, b := ByName(was), ByName(now);
    ByNameIsNamed(was);
    ByNameIsNamed(now);
    forall u
      ensures HasAccount(was, u) <==> At(a, u.name) == Some(Account(u))
      ensures HasAccount(now, u) <==> At(b, u.name) == Some(Account(u))
    {
      AccountIff(was, u);
      AccountIff(now, u);
    }
    SomeKeyDiffers(a, b);
    if k :| At(a, k) != At(b, k) {
      var u := if k in a then a[k].user else b[k].user;
      assert HasAccount(was, u) != HasAccount(now, u);
    }
  }

  /** The account is there with uid 0, and was not there or had another uid. */
  ghost predicate BecameRoot(was: seq<User>, now: seq<User>, name: JsText) {
    && (exists u :: HasAccount(now, u) && u.name == name && u.uid == 0)
    && (forall u :: HasAccount(was, u) && u.name == name ==> u.uid != 0)
  }

  /** Account `v` is what that side says of the name. */
  ghost predicate SaysAccount(users: seq<User>, name: JsText, v: Value) {
    if HasName(users, name) then v.Account? && v.user.name == name && HasAccount(users, v.user) else v == NoValue
  }

  lemma AccountAt(users: seq<User>, name: JsText)
    ensures SaysAccount(users, name, ValueOf(At(ByName(users), name)))
    ensures forall u :: HasAccount(users, u) && u.name == name <==> At(ByName(users), name) == Some(Account(u))
  {
    ByNameIsNamed(users);
    NameIff(users, name);
    forall u
      ensures HasAccount(users, u) && u.name == name <==> At(ByName(users), name) == Some(Account(u))
    {
      AccountIff(users, u);
    }
  }

  /** What is reported of an account: critical exactly when it has become root, information exactly
      when it is gone, and otherwise a warning. */
  lemma UserIsRated(was: seq<User>, now: seq<User>, c: Changes, x: Item)
    requires IsDiff(Users, ByName(was), ByName(now), c) && x in AllItems(c)
    ensures SaysAccount(was, x.key, x.before) && SaysAccount(now, x.key, x.after) && x.before != x.after
    ensures x.severity == Critical <==> BecameRoot(was, now, x.key)
    ensures x.severity == Info <==> !HasName(now, x.key)
  {
    ItemSays(Users, ByName(was), ByName(now), c, x);
    AccountAt(was, x.key);
    AccountAt(now, x.key);
    NameIff(was, x.key);
    NameIff(now, x.key);
    RootIff(was, now, x.key);
  }

  lemma RootIff(was: seq<User>, now: seq<User>, name: JsText)
    ensures var x, y := At(ByName(was), name), At(ByName(now), name);
      BecameRoot(was, now, name) <==> y.Some? && IsRoot(y.value) && !(x.Some? && IsRoot(x.value))
  {
    AccountAt(was, name);
    AccountAt(now, name);
    var x, y := At(ByName(was), name), At(ByName(now), name);
    if y.Some? && IsRoot(y.value) {
      assert HasAccount(now, y.value.user);
    }
    if x.Some? && IsRoot(x.value) {
      assert HasAccount(was, x.value.user);
    }
  }

  // ---- Sudoers rules and units ----------------------------------------------------------------

  ghost predicate HasRule(rules: seq<Rule>, text: JsText) {
    exists r :: r in rules && r.text == text
  }

  lemma RuleIff(rules: seq<Rule>, text: JsText)
    ensures HasRule(rules, text) <==> text in Texts(rules)
  {
    if HasRule(rules, text) {
      var r :| r in rules && r.text == text;
      var i :| 0 <= i < |rules| && rules[i] == r;
      assert Texts(rules)[i] == text;
    }
    if text in Texts(rules) {
      var i :| 0 <= i < |rules| && Texts(rules)[i] == text;
      assert rules[i] in rules;
    }
  }

  lemma SetAt(xs: seq<JsText>, s: JsText)
    ensures At(SetOf(xs), s) == if s in xs then Some(NoValue) else None
  {}

  lemma SetsDifferIff(was: seq<JsText>, now: seq<JsText>)
    ensures SetOf(was) != SetOf(now) <==> exists s :: (s in was) != (s in now)
  {
    SomeKeyDiffers(SetOf(was), SetOf(now));
    forall s
      ensures At(SetOf(was), s) != At(SetOf(now), s) <==> (s in was) != (s in now)
    {
      SetAt(was, s);
      SetAt(now, s);
    }
  }

  lemma SudoersDifferIff(baseline: Snapshot, current: Snapshot)
    requires Comparable(baseline, current, Sudoers)
    ensures Differs(baseline, current, Sudoers) <==>
      exists text :: HasRule(baseline.sudoers.value, text) != HasRule(current.sudoers.value, text)
  {
    var was, now := baseline.sudoers.value, current.sudoers.value;
    SetsDifferIff(Texts(was), Texts(now));
    forall text
      ensures HasRule(was, text) == (text in Texts(was)) && HasRule(now, text) == (text in Texts(now))
    {
      RuleIff(was, text);
      RuleIff(now, text);
    }
  }

  lemma UnitsDifferIff(baseline: Snapshot, current: Snapshot)
    requires Comparable(baseline, current, Units)
    ensures Differs(baseline, current, Units) <==> exists unit :: (unit in baseline.units.value) != (unit in current.units.value)
  {
    SetsDifferIff(baseline.units.value, current.units.value);
  }

  /** A rule or a unit is reported when it is on one side only; a new rule is critical, and everything
      else about rules and units is information. */
  lemma StringIsRated(category: Category, was: seq<JsText>, now: seq<JsText>, c: Changes, x: Item)
    requires category == Sudoers || category == Units
    requires IsDiff(category, SetOf(was), SetOf(now), c) && x in AllItems(c)
    ensures (x.key in was) != (x.key in now)
    ensures x.severity == if category == Sudoers && x.key in now then Critical else Info
  {
    ItemSays(category, SetOf(was), SetOf(now), c, x);
    SetAt(was, x.key);
    SetAt(now, x.key);
  }

  // ---- Crontabs ---------------------------------------------------------------------------------

  lemma CrontabsDifferIff(baseline: Snapshot, current: Snapshot)
    requires Comparable(baseline, current, Crontabs)
    ensures Differs(baseline, current, Crontabs) <==> baseline.crontabs.value != current.crontabs.value
  {
    var was, now := baseline.crontabs.value, current.crontabs.value;
    var a, b := HashesOf(was), HashesOf(now);
    if a == b {
      assert was.Keys == a.Keys == b.Keys == now.Keys;
      forall t | t in was
        ensures was[t] == now[t]
      {
        assert a[t] == b[t];
      }
    }
  }

  /** A crontab that is new or has another hash is a warning, one that is gone information. */
  lemma CrontabIsRated(was: map<JsText, JsText>, now: map<JsText, JsText>, c: Changes, x: Item)
    requires IsDiff(Crontabs, HashesOf(was), HashesOf(now), c) && x in AllItems(c)
    ensures x.before == if x.key in was then Hash(was[x.key]) else NoValue
    ensures x.after == if x.key in now then Hash(now[x.key]) else NoValue
    ensures x.before != x.after && x.severity == if x.key in now then Warning else Info
  {
    ItemSays(Crontabs, HashesOf(was), HashesOf(now), c, x);
  }

  // ---- Members of groups --------------------------------------------------------------------------

  /** A side can tell who is in a group if it lists the group, if it always lists it, or if it could
      read the rules that name it. */
  predicate CanTell(groups: map<GroupName, seq<JsText>>, rulesRead: bool, g: GroupName) {
    g in groups || g in PRIVILEGED_OS_GROUPS || rulesRead
  }

  /** Groups differ exactly when somebody is in a group on one side only, and both sides can tell. */
  lemma MembersDifferIff(baseline: Snapshot, current: Snapshot)
    requires Comparable(baseline, current, Groups)
    ensures var was, now := baseline.groups.value, current.groups.value;
      Differs(baseline, current, Groups) <==>
        exists g: GroupName, m ::
          && (g in was && m in was[g]) != (g in now && m in now[g])
          && CanTell(was, baseline.sudoers.Some?, g) && CanTell(now, current.sudoers.Some?, g)
  {
    var was, now := baseline.groups.value, current.groups.value;
    GroupsDifferIff(baseline, current);
    forall g: GroupName, m
      ensures IsMember(baseline, g, m) <==> g in was && m in was[g]
      ensures IsMember(current, g, m) <==> g in now && m in now[g]
      ensures KnowsGroup(baseline, g) <==> CanTell(was, baseline.sudoers.Some?, g)
      ensures KnowsGroup(current, g) <==> CanTell(now, current.sudoers.Some?, g)
    {}
  }

  /** A new member is critical, one that is gone information. */
  lemma MemberIsRated(baseline: Snapshot, current: Snapshot, c: Changes, x: Item)
    requires Comparable(baseline, current, Groups)
    requires IsDiff(Groups, MembersOf(baseline, current), MembersOf(current, baseline), c) && x in AllItems(c)
    ensures exists g: GroupName, m ::
      && x.key == Joined(g, COLON, m) && IsMember(baseline, g, m) != IsMember(current, g, m)
      && KnowsGroup(baseline, g) && KnowsGroup(current, g)
      && x.severity == (if IsMember(current, g, m) then Critical else Info)
      && x.before == (if IsMember(baseline, g, m) then Member(g, m) else NoValue)
      && x.after == (if IsMember(current, g, m) then Member(g, m) else NoValue)
  {
    var a, b := MembersOf(baseline, current), MembersOf(current, baseline);
    ItemSays(Groups, a, b, c, x);
    MemberAt(baseline, current, x.key);
    MemberAt(current, baseline, x.key);
    if x.key in a {
      var g: GroupName, m :| x.key == Joined(g, COLON, m) && IsMember(baseline, g, m) && KnowsGroup(current, g) && a[x.key] == Member(g, m);
      MemberIn(current, baseline, g, m);
    } else {
      var g: GroupName, m :| x.key == Joined(g, COLON, m) && IsMember(current, g, m) && KnowsGroup(baseline, g) && b[x.key] == Member(g, m);
      MemberIn(baseline, current, g, m);
    }
  }

  lemma MemberIn(s: Snapshot, other: Snapshot, g: GroupName, m: JsText)
    requires s.groups.Some? && other.groups.Some? && KnowsGroup(other, g)
    ensures At(MembersOf(s, other), Joined(g, COLON, m)) == if IsMember(s, g, m) then Some(Member(g, m)) else None
  {
    MembersSplit();
  }

  lemma MemberAt(s: Snapshot, other: Snapshot, key: JsText)
    requires s.groups.Some? && other.groups.Some?
    ensures key in MembersOf(s, other) ==> exists g: GroupName, m ::
      key == Joined(g, COLON, m) && IsMember(s, g, m) && KnowsGroup(other, g) && MembersOf(s, other)[key] == Member(g, m)
  {
    MembersSplit();
  }

  // ---- Ports --------------------------------------------------------------------------------------

  function Address(p: Port): JsText {
    Joined(p.proto, SPACE, p.local)
  }

  /** The port of that address: the last one listed. */
  ghost predicate HasPort(ports: seq<Port>, p: Port) {
    exists i :: 0 <= i < |ports| && ports[i] == p && forall j :: i < j < |ports| ==> Address(ports[j]) != Address(p)
  }

  lemma PortAdded(ports: seq<Port>, last: Port, p: Port)
    ensures HasPort(ports + [last], p) <==> p == last || (Address(p) != Address(last) && HasPort(ports, p))
  {
    var more := ports + [last];
    assert more[|ports|] == last;
    if HasPort(more, p) && p != last {
      var i :| 0 <= i < |more| && more[i] == p && forall j :: i < j < |more| ==> Address(more[j]) != Address(p);
      assert ports[i] == p && forall j :: i < j < |ports| ==> more[j] == ports[j];
    }
    if Address(p) != Address(last) && HasPort(ports, p) {
      var i :| 0 <= i < |ports| && ports[i] == p && forall j :: i < j < |ports| ==> Address(ports[j]) != Address(p);
      assert more[i] == p;
    }
  }

  function Listener(p: Port): Value {
    Listening(p.proto, p.local, p.process)
  }

  lemma {:induction false} PortIff(ports: seq<Port>, p: Port)
    ensures HasPort(ports, p) <==> At(ByAddress(ports), Address(p)) == Some(Listener(p))
  {
    if ports != [] {
      var init, last := ports[..|ports| - 1], ports[|ports| - 1];
      assert ports == init + [last];
      PortIff(init, p);
      PortAdded(init, last, p);
    }
  }

  /** Every value of a content is that of a port. */
  lemma {:induction false} PortAt(ports: seq<Port>, key: JsText)
    ensures key in ByAddress(ports) <==> exists p :: HasPort(ports, p) && Address(p) == key
    ensures forall p :: HasPort(ports, p) && Address(p) == key ==> ByAddress(ports)[key] == Listener(p)
  {
    forall p | HasPort(ports, p) && Address(p) == key
      ensures At(ByAddress(ports), key) == Some(Listener(p))
    {
      PortIff(ports, p);
    }
    if key in ByAddress(ports) {
      var p := SomePort(ports, key);
      PortIff(ports, p);
    }
  }

  lemma {:induction false} SomePort(ports: seq<Port>, key: JsText) returns (p: Port)
    requires key in ByAddress(ports)
    ensures Address(p) == key && ByAddress(ports)[key] == Listener(p)
  {
    var init, last := ports[..|ports| - 1], ports[|ports| - 1];
    if Address(last) == key {
      p := last;
    } else {
      p := SomePort(init, key);
    }
  }

  ghost predicate Listens(ports: seq<Port>, address: JsText) {
    exists p :: HasPort(ports, p) && Address(p) == address
  }

  /** The same address is known to be served by different processes. */
  predicate Reassigned(p: Port, q: Port) {
    Address(p) == Address(q) && p.process.Some? && q.process.Some? && p.process != q.process
  }

  /** Ports differ exactly when something listens on an address on one side only, or an address is
      known to be served by another process. */
  lemma ListenersDifferIff(baseline: Snapshot, current: Snapshot)
    requires Comparable(baseline, current, Ports)
    ensures Differs(baseline, current, Ports) <==>
      || (exists address :: Listens(baseline.ports.value, address) != Listens(current.ports.value, address))
      || (exists p, q :: HasPort(baseline.ports.value, p) && HasPort(current.ports.value, q) && Reassigned(p, q))
  {
    var was, now := baseline.ports.value, current.ports.value;
    var a, b := ByAddress(was), ByAddress(now);
    PortsDifferIff(a, b);
    forall k
      ensures k in a <==> Listens(was, k)
      ensures k in b <==> Listens(now, k)
    {
      PortAt(was, k);
      PortAt(now, k);
    }
    if k :| k in a && k in b && ServedOtherwise(a[k], b[k]) {
      var p := PortOfKey(was, k);
      var q := PortOfKey(now, k);
      assert Reassigned(p, q);
    }
    if p, q :| HasPort(was, p) && HasPort(now, q) && Reassigned(p, q) {
      PortAt(was, Address(p));
      PortAt(now, Address(p));
      assert ServedOtherwise(a[Address(p)], b[Address(p)]);
    }
    KeysApart(a, b);
  }

  lemma KeysApart(a: Content, b: Content)
    ensures a.Keys != b.Keys <==> exists k :: (k in a) != (k in b)
  {
    if forall k :: (k in a) == (k in b) {
      assert forall k :: k in a.Keys <==> k in b.Keys;
    }
  }

  lemma PortOfKey(ports: seq<Port>, key: JsText) returns (p: Port)
    requires key in ByAddress(ports)
    ensures HasPort(ports, p) && Address(p) == key && ByAddress(ports)[key] == Listener(p)
  {
    p := SomePort(ports, key);
    PortIff(ports, p);
  }

  /** What that side says of the address. */
  ghost predicate SaysPort(ports: seq<Port>, address: JsText, v: Value) {
    if Listens(ports, address) then exists p :: HasPort(ports, p) && Address(p) == address && v == Listener(p) else v == NoValue
  }

  lemma PortSaid(ports: seq<Port>, address: JsText)
    ensures SaysPort(ports, address, ValueOf(At(ByAddress(ports), address)))
  {
    PortAt(ports, address);
  }

  /** A port that is new or served otherwise is a warning, one that is closed information. */
  lemma PortIsRated(was: seq<Port>, now: seq<Port>, c: Changes, x: Item)
    requires IsDiff(Ports, ByAddress(was), SeenPorts(ByAddress(was), ByAddress(now)), c) && x in AllItems(c)
    ensures SaysPort(was, x.key, x.before) && SaysPort(now, x.key, x.after)
    ensures x.severity == if Listens(now, x.key) then Warning else Info
  {
    var a, b := ByAddress(was), ByAddress(now);
    ItemSays(Ports, a, SeenPorts(a, b), c, x);
    PortSaid(was, x.key);
    PortSaid(now, x.key);
    PortAt(now, x.key);
    assert At(SeenPorts(a, b), x.key) == At(b, x.key);
  }

  // ---- Authorized keys ------------------------------------------------------------------------------

  /** The user's key of that fingerprint: the last one listed. */
  ghost predicate HasKey(keys: seq<HeldKey>, k: HeldKey) {
    exists i :: 0 <= i < |keys| && keys[i] == k && forall j :: i < j < |keys| ==> keys[j].fp != k.fp
  }

  lemma KeyAdded(keys: seq<HeldKey>, last: HeldKey, k: HeldKey)
    ensures HasKey(keys + [last], k) <==> k == last || (k.fp != last.fp && HasKey(keys, k))
  {
    var more := keys + [last];
    assert more[|keys|] == last;
    if HasKey(more, k) && k != last {
      var i :| 0 <= i < |more| && more[i] == k && forall j :: i < j < |more| ==> more[j].fp != k.fp;
      assert keys[i] == k && forall j :: i < j < |keys| ==> more[j] == keys[j];
    }
    if k.fp != last.fp && HasKey(keys, k) {
      var i :| 0 <= i < |keys| && keys[i] == k && forall j :: i < j < |keys| ==> keys[j].fp != k.fp;
      assert more[i] == k;
    }
  }

  lemma {:induction false} KeyIff(keys: seq<HeldKey>, k: HeldKey)
    ensures HasKey(keys, k) <==> k.fp in ByPrint(keys) && ByPrint(keys)[k.fp] == k
  {
    if keys != [] {
      var init, last := keys[..|keys| - 1], keys[|keys| - 1];
      assert keys == init + [last];
      KeyIff(init, k);
      KeyAdded(init, last, k);
    }
  }

  lemma {:induction false} PrintIff(keys: seq<HeldKey>, fp: JsText)
    ensures fp in ByPrint(keys) <==> exists i :: 0 <= i < |keys| && keys[i].fp == fp
    ensures fp in ByPrint(keys) ==> ByPrint(keys)[fp].fp == fp
  {
    if keys != [] {
      var init, last := keys[..|keys| - 1], keys[|keys| - 1];
      PrintIff(init, fp);
      assert forall i :: 0 <= i < |init| ==> init[i] == keys[i];
      assert keys[|keys| - 1].fp == last.fp;
    }
  }

  ghost predicate Holds(held: map<JsText, seq<HeldKey>>, user: JsText, fp: JsText) {
    user in held && exists i :: 0 <= i < |held[user]| && held[user][i].fp == fp
  }

  lemma HoldsIff(held: map<JsText, seq<HeldKey>>, user: JsText, fp: JsText)
    ensures Holds(held, user, fp) <==> (user, fp) in Held(held)
  {
    if user in held { PrintIff(held[user], fp); }
  }

  /** Keys differ exactly when some user holds a key of some fingerprint on one side only. */
  lemma HoldersDifferIff(baseline: Snapshot, current: Snapshot)
    requires Comparable(baseline, current, AuthorizedKeys)
    ensures Differs(baseline, current, AuthorizedKeys) <==>
      exists user, fp :: Holds(baseline.authorizedKeys.value, user, fp) != Holds(current.authorizedKeys.value, user, fp)
  {
    var was, now := baseline.authorizedKeys.value, current.authorizedKeys.value;
    KeysDifferIff(baseline, current);
    forall user, fp
      ensures Holds(was, user, fp) <==> (user, fp) in Held(was)
      ensures Holds(now, user, fp) <==> (user, fp) in Held(now)
    {
      HoldsIff(was, user, fp);
      HoldsIff(now, user, fp);
    }
    if Held(was) != Held(now) {
      var p :| (p in Held(was)) != (p in Held(now));
      assert Holds(was, p.0, p.1) != Holds(now, p.0, p.1);
    }
  }

  /** Who may become root, on the newest data there is: root; whoever has uid 0; whoever is in a
      listed group; whom a rule names; and everybody, if a rule is for everybody. */
  lemma MayBecomeRootIff(baseline: Snapshot, current: Snapshot, user: JsText)
    ensures var users := if current.users.Some? then current.users else baseline.users;
      var groups := if current.groups.Some? then current.groups else baseline.groups;
      var sudoers := if current.sudoers.Some? then current.sudoers else baseline.sudoers;
      MayBecomeRoot(baseline, current, user) <==>
        || user == Ascii("root")
        || (users.Some? && exists u :: u in users.value && u.name == user && u.uid == 0)
        || (groups.Some? && exists g :: g in groups.value && user in groups.value[g])
        || (sudoers.Some? && exists r :: r in sudoers.value && (r.everyone || user in r.users))
  {}

  lemma HeldAt(held: map<JsText, seq<HeldKey>>, user: JsText, fp: JsText)
    requires SPACE !in fp
    ensures var v := At(HeldKeys(held), Joined(user, SPACE, fp));
      if Holds(held, user, fp)
        then v.Some? && v.value.Key? && v.value.holder == user && v.value.key.fp == fp && HasKey(held[user], v.value.key) && !v.value.privileged
        else v == None
  {
    HeldKeyIn(held, user, fp);
    HoldsIff(held, user, fp);
    if Holds(held, user, fp) {
      PrintIff(held[user], fp);
      KeyIff(held[user], ByPrint(held[user])[fp]);
      KeySplits(held, user, fp);
    }
  }

  lemma KeySplits(held: map<JsText, seq<HeldKey>>, user: JsText, fp: JsText)
    requires (user, fp) in Held(held)
    ensures Joined(user, SPACE, fp) in HeldKeys(held)
    ensures HeldKeys(held)[Joined(user, SPACE, fp)] == Key(user, ByPrint(held[user])[fp], false)
  {
    NamesSplit(held, Joined(user, SPACE, fp));
    assert Joined((user, fp).0, SPACE, (user, fp).1) in Names(Held(held));
  }

  lemma HolderOf(held: map<JsText, seq<HeldKey>>, key: JsText) returns (user: JsText, fp: JsText)
    requires key in HeldKeys(held)
    ensures key == Joined(user, SPACE, fp) && SPACE !in fp && Holds(held, user, fp)
  {
    HeldAre(held);
    var p := DriftSnapshots.Named(held, key);
    user, fp := p.0, p.1;
    HoldsIff(held, user, fp);
  }

  lemma RatedAt(baseline: Snapshot, current: Snapshot, a: Content, b: Content, key: JsText)
    ensures At(RatedKeys(baseline, current, a, b), key) ==
      if key !in b then None
      else if key in a then Some(a[key])
      else if b[key].Key? then Some(b[key].(privileged := MayBecomeRoot(baseline, current, b[key].holder)))
      else Some(b[key])
  {}

  /** What is reported of one user's key. */
  ghost predicate KeyReported(
    was: map<JsText, seq<HeldKey>>, now: map<JsText, seq<HeldKey>>, mayBecomeRoot: bool, x: Item, user: JsText, fp: JsText)
  {
    && Holds(was, user, fp) != Holds(now, user, fp)
    && (if Holds(now, user, fp)
        then x.before == NoValue && x.after.Key? && x.after.holder == user && x.after.key.fp == fp && HasKey(now[user], x.after.key)
        else x.after == NoValue && x.before.Key? && x.before.holder == user && x.before.key.fp == fp && HasKey(was[user], x.before.key))
    && x.severity == if !Holds(now, user, fp) then Info else if mayBecomeRoot then Critical else Warning
  }

  /** A new key is critical when its user may become root and a warning otherwise; one that is gone is
      information. */
  lemma KeyIsRated(baseline: Snapshot, current: Snapshot, c: Changes, x: Item) returns (user: JsText, fp: JsText)
    requires Comparable(baseline, current, AuthorizedKeys) && x in AllItems(c)
    requires IsDiff(AuthorizedKeys, Before(baseline, current, AuthorizedKeys), After(baseline, current, AuthorizedKeys), c)
    ensures x.key == Joined(user, SPACE, fp)
    ensures KeyReported(baseline.authorizedKeys.value, current.authorizedKeys.value, MayBecomeRoot(baseline, current, user), x, user, fp)
  {
    var was, now := baseline.authorizedKeys.value, current.authorizedKeys.value;
    var a, b := HeldKeys(was), HeldKeys(now);
    ItemSays(AuthorizedKeys, a, RatedKeys(baseline, current, a, b), c, x);
    RatedAt(baseline, current, a, b, x.key);
    if x.key in a {
      user, fp := HolderOf(was, x.key);
    } else {
      user, fp := HolderOf(now, x.key);
    }
    HeldAt(was, user, fp);
    HeldAt(now, user, fp);
    assert x.before == ValueOf(At(a, x.key));
  }

  // ---- Nothing else, and nothing missing ----------------------------------------------------------------

  /** What the two sides do not have alike is reported by exactly one item, in the list that says how. */
  lemma EveryDifferenceIsReported(category: Category, a: Content, b: Content, c: Changes, key: JsText)
    requires IsDiff(category, a, b, c) && At(a, key) != At(b, key)
    ensures key in KeysOf(c.added) <==> key !in a
    ensures key in KeysOf(c.removed) <==> key !in b
    ensures key in KeysOf(c.changed) <==> key in a && key in b
    ensures DistinctKeys(c.added) && DistinctKeys(c.removed) && DistinctKeys(c.changed)
  {}

  /** The severity of a category: critical if any of its items is, a warning if none is but some item is
      one, and information otherwise. */
  lemma MostSerious(items: seq<Item>, s: Severity)
    requires IsMaxSeverity(items, s)
    ensures s == Critical <==> exists x :: x in items && x.severity == Critical
    ensures s == Info <==> forall x :: x in items ==> x.severity == Info
  {}

  /** Sorted: no item stands above a more serious one, and items as serious as each other stand in the
      order of their keys. */
  lemma SortedMeans(items: seq<Item>, i: nat, j: nat)
    requires Sorted(items) && i < j < |items|
    ensures items[j].severity == Critical ==> items[i].severity == Critical
    ensures items[i].severity == Info ==> items[j].severity == Info
    ensures items[i].severity == items[j].severity && items[i].key != items[j].key ==> Less(items[i].key, items[j].key)
  {
    assert MayPrecede(items[i], items[j]);
    LessIsTotal(items[i].key, items[j].key);
  }

  /** They agree up to a place where the first one ends or has the smaller unit. */
  ghost predicate SmallerAt(x: JsText, y: JsText, n: nat) {
    n < |y| && n <= |x| && x[..n] == y[..n] && (n < |x| ==> x[n] < y[n])
  }

  lemma SmallerBelow(x: JsText, y: JsText, n: nat)
    requires x != [] && y != []
    ensures SmallerAt(x, y, n + 1) <==> x[0] == y[0] && SmallerAt(x[1..], y[1..], n)
  {
    if n + 1 <= |x| && n + 1 <= |y| {
      assert x[..n + 1] == [x[0]] + x[1..][..n] && y[..n + 1] == [y[0]] + y[1..][..n];
      SameTail([x[0]], x[1..][..n], [y[0]], y[1..][..n]);
    }
  }

  lemma SameTail(a: JsText, x: JsText, b: JsText, y: JsText)
    requires |a| == |b|
    ensures a + x == b + y <==> a == b && x == y
  {
    if a + x == b + y {
      assert a == (a + x)[..|a|] == (b + y)[..|b|] == b;
      assert x == (a + x)[|a|..] == (b + y)[|b|..] == y;
    }
  }

  /** The order of keys. */
  lemma {:induction false} LessMeans(x: JsText, y: JsText)
    ensures Less(x, y) <==> exists n: nat :: SmallerAt(x, y, n)
  {
    if Less(x, y) {
      if x != [] && x[0] == y[0] {
        LessMeans(x[1..], y[1..]);
        var n: nat :| SmallerAt(x[1..], y[1..], n);
        SmallerBelow(x, y, n);
      } else {
        assert SmallerAt(x, y, 0);
      }
    }
    if n: nat :| SmallerAt(x, y, n) {
      if n > 0 {
        SmallerBelow(x, y, n - 1);
        LessMeans(x[1..], y[1..]);
      }
    }
  }

  /** What is stored of a list: its first 200 items, and how many were left out. */
  lemma StoredLists(c: Changes)
    requires c.omitted == 0
    ensures var stored := Truncate(c);
      && stored.added <= c.added && |stored.added| == (if |c.added| <= 200 then |c.added| else 200)
      && stored.removed <= c.removed && |stored.removed| == (if |c.removed| <= 200 then |c.removed| else 200)
      && stored.changed <= c.changed && |stored.changed| == (if |c.changed| <= 200 then |c.changed| else 200)
  {}
}
