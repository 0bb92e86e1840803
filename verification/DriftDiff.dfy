/** Snapshot-against-baseline comparison: which items were added, removed or changed, how
    serious that is, and the sorted, capped lists that are stored. An item's label is left out:
    it is text computed from the rest of the item. */
module DriftDiff {
  import opened Options
  import opened Utf16

  datatype Category = Users | Groups | Sudoers | Crontabs | Ports | Units | AuthorizedKeys

  datatype Severity = Info | Warning | Critical

  datatype User = User(name: JsText, uid: int, gid: int, home: JsText, shell: JsText)

  datatype AuthKey = AuthKey(fp: JsText, algorithm: JsText, comment: JsText)

  /** What an item carries beside its key; a sudoers rule or a unit carries nothing. A key is
      `privileged` when it is new and opens an account that may become root. */
  datatype Value =
    | NoValue
    | Account(user: User)
    | Member(group: JsText, member: JsText)
    | Hash(hash: JsText)
    | Listening(proto: JsText, local: JsText, process: Option<JsText>)
    | Key(holder: JsText, key: AuthKey, privileged: bool)

  datatype Item = Item(key: JsText, severity: Severity, before: Value, after: Value)

  datatype Changes = Changes(added: seq<Item>, removed: seq<Item>, changed: seq<Item>, omitted: nat)

  /** One category of a snapshot, as the comparison sees it: values by key. */
  type Content = map<JsText, Value>

  function Rank(s: Severity): nat {
    match s case Info => 0 case Warning => 1 case Critical => 2
  }

  function At(m: Content, key: JsText): Option<Value> {
    if key in m then Some(m[key]) else None
  }

  function ValueOf(v: Option<Value>): Value {
    match v case None => NoValue case Some(value) => value
  }

  function IsRoot(v: Value): bool {
    v.Account? && v.user.uid == 0
  }

  /** How serious it is that `before` became `after`. */
  function Rate(category: Category, before: Option<Value>, after: Option<Value>): Severity {
    if after == None || category == Units then Info
    else match category
      case Users => if IsRoot(after.value) && (before == None || !IsRoot(before.value)) then Critical else Warning
      case Groups => Critical
      case Sudoers => Critical
      case AuthorizedKeys => if after.value.Key? && after.value.privileged then Critical else Warning
      case _ => Warning
  }

  function ItemFor(category: Category, a: Content, b: Content, key: JsText): Item {
    Item(key, Rate(category, At(a, key), At(b, key)), ValueOf(At(a, key)), ValueOf(At(b, key)))
  }

  // ---- What a comparison must report ----------------------------------------------------

  function KeysOf(items: seq<Item>): set<JsText> {
    set i | 0 <= i < |items| :: items[i].key
  }

  predicate DistinctKeys(items: seq<Item>) {
    forall i, j :: 0 <= i < j < |items| ==> items[i].key != items[j].key
  }

  /** `items` reports each of `keys` once, and nothing else. */
  ghost predicate Lists(category: Category, a: Content, b: Content, items: seq<Item>, keys: set<JsText>) {
    && DistinctKeys(items)
    && KeysOf(items) == keys
    && forall x :: x in items ==> x == ItemFor(category, a, b, x.key)
  }

  function KeysChanged(a: Content, b: Content): set<JsText> {
    set k | k in a && k in b && a[k] != b[k]
  }

  ghost predicate IsDiff(category: Category, a: Content, b: Content, c: Changes) {
    && Lists(category, a, b, c.added, b.Keys - a.Keys)
    && Lists(category, a, b, c.removed, a.Keys - b.Keys)
    && Lists(category, a, b, c.changed, KeysChanged(a, b))
    && c.omitted == 0
  }

  lemma ListsAppend(category: Category, a: Content, b: Content, items: seq<Item>, keys: set<JsText>, key: JsText)
    requires Lists(category, a, b, items, keys) && key !in keys
    ensures Lists(category, a, b, items + [ItemFor(category, a, b, key)], keys + {key})
  {
    var x := ItemFor(category, a, b, key);
    var longer := items + [x];
    assert longer[|items|] == x;
    forall i | 0 <= i < |items| ensures longer[i] == items[i] && items[i].key in KeysOf(items) && items[i].key in KeysOf(longer) {}
  }

  lemma InKeys(items: seq<Item>, x: Item)
    requires x in items
    ensures x.key in KeysOf(items)
  {}

  // ---- Users ------------------------------------------------------------------------

  /** The last account of a name wins. */
  function ByName(users: seq<User>): Content {
    if users == [] then map[]
    else
      var last := users[|users| - 1];
      ByName(users[..|users| - 1])[last.name := Account(last)]
  }

  ghost predicate Named(m: Content) {
    forall n :: n in m ==> m[n].Account? && m[n].user.name == n
  }

  lemma {:induction false} ByNameIsNamed(users: seq<User>)
    ensures Named(ByName(users))
  {
    if users != [] { ByNameIsNamed(users[..|users| - 1]); }
  }

  /** One step of a loop that lists what `a` has not, then one that lists what changed. */
  lemma ListAdded(category: Category, a: Content, b: Content, items: seq<Item>, done: set<JsText>, key: JsText)
    requires Lists(category, a, b, items, done - a.Keys) && key !in done
    ensures key !in a ==> Lists(category, a, b, items + [ItemFor(category, a, b, key)], done + {key} - a.Keys)
    ensures key in a ==> Lists(category, a, b, items, done + {key} - a.Keys)
  {
    if key in a {
      assert done + {key} - a.Keys == done - a.Keys;
    } else {
      ListsAppend(category, a, b, items, done - a.Keys, key);
      assert done + {key} - a.Keys == done - a.Keys + {key};
    }
  }

  lemma ListRemoved(category: Category, a: Content, b: Content, items: seq<Item>, done: set<JsText>, key: JsText)
    requires Lists(category, a, b, items, done - b.Keys) && key !in done
    ensures key !in b ==> Lists(category, a, b, items + [ItemFor(category, a, b, key)], done + {key} - b.Keys)
    ensures key in b ==> Lists(category, a, b, items, done + {key} - b.Keys)
  {
    if key in b {
      assert done + {key} - b.Keys == done - b.Keys;
    } else {
      ListsAppend(category, a, b, items, done - b.Keys, key);
      assert done + {key} - b.Keys == done - b.Keys + {key};
    }
  }

  lemma ListChanged(category: Category, a: Content, b: Content, items: seq<Item>, done: set<JsText>, key: JsText)
    requires Lists(category, a, b, items, KeysChanged(a, b) * done) && key !in done
    ensures key in KeysChanged(a, b) ==>
      Lists(category, a, b, items + [ItemFor(category, a, b, key)], KeysChanged(a, b) * (done + {key}))
    ensures key !in KeysChanged(a, b) ==> Lists(category, a, b, items, KeysChanged(a, b) * (done + {key}))
  {
    if key in KeysChanged(a, b) {
      ListsAppend(category, a, b, items, KeysChanged(a, b) * done, key);
      assert KeysChanged(a, b) * (done + {key}) == KeysChanged(a, b) * done + {key};
    } else {
      assert KeysChanged(a, b) * (done + {key}) == KeysChanged(a, b) * done;
    }
  }

  lemma NothingListed(category: Category, a: Content, b: Content, keys: set<JsText>)
    requires keys == {}
    ensures Lists(category, a, b, [], keys)
  {}

  /** The keys of `b` not in `todo` are dealt with. */
  ghost predicate Progress(category: Category, a: Content, b: Content, added: seq<Item>, changed: seq<Item>, todo: set<JsText>) {
    && todo <= b.Keys
    && Lists(category, a, b, added, (b.Keys - todo) - a.Keys)
    && Lists(category, a, b, changed, KeysChanged(a, b) * (b.Keys - todo))
  }

  lemma ProgressStarts(category: Category, a: Content, b: Content)
    ensures Progress(category, a, b, [], [], b.Keys)
  {}

  lemma ProgressStep(category: Category, a: Content, b: Content, added: seq<Item>, changed: seq<Item>, todo: set<JsText>, key: JsText)
    requires Progress(category, a, b, added, changed, todo) && key in todo
    ensures key !in a ==> Progress(category, a, b, added + [ItemFor(category, a, b, key)], changed, todo - {key})
    ensures key in a && a[key] != b[key] ==>
      Progress(category, a, b, added, changed + [ItemFor(category, a, b, key)], todo - {key})
    ensures key in a && a[key] == b[key] ==> Progress(category, a, b, added, changed, todo - {key})
  {
    assert b.Keys - (todo - {key}) == (b.Keys - todo) + {key};
    ListAdded(category, a, b, added, b.Keys - todo, key);
    ListChanged(category, a, b, changed, b.Keys - todo, key);
  }

  lemma ProgressEnds(category: Category, a: Content, b: Content, added: seq<Item>, changed: seq<Item>)
    requires Progress(category, a, b, added, changed, {})
    ensures Lists(category, a, b, added, b.Keys - a.Keys) && Lists(category, a, b, changed, KeysChanged(a, b))
  {
    assert b.Keys - {} == b.Keys && KeysChanged(a, b) * b.Keys == KeysChanged(a, b);
  }

  method DiffUsers(before: seq<User>, after: seq<User>) returns (out: Changes)
    ensures IsDiff(Users, ByName(before), ByName(after), out)
  {
    var a, b := ByName(before), ByName(after);
    ByNameIsNamed(before);
    ByNameIsNamed(after);
    var added, changed: seq<Item> := [], [];
    var todo: set<JsText> := b.Keys;
    ProgressStarts(Users, a, b);
    while todo != {}
      invariant Progress(Users, a, b, added, changed, todo)
      decreases |todo|
    {
      var name :| name in todo;
      var u := b[name].user;
      ProgressStep(Users, a, b, added, changed, todo, name);
      if name !in a {
        added := added + [Item(name, if u.uid == 0 then Critical else Warning, NoValue, Account(u))];
      } else {
        var prior := a[name].user;
        if prior.uid != u.uid || prior.gid != u.gid || prior.home != u.home || prior.shell != u.shell {
          var becameRoot := u.uid == 0 && prior.uid != 0;
          changed := changed + [Item(name, if becameRoot then Critical else Warning, Account(prior), Account(u))];
        } else {
          assert prior == u;
        }
      }
      todo := todo - {name};
    }
    ProgressEnds(Users, a, b, added, changed);
    var removed := OneSided(Users, a, b);
    out := Changes(added, removed, changed, 0);
  }

  /** The last loop of each comparison: what the baseline had and the scan has not. */
  method OneSided(category: Category, a: Content, b: Content) returns (removed: seq<Item>)
    ensures Lists(category, a, b, removed, a.Keys - b.Keys)
  {
    removed := [];
    var todo: set<JsText> := a.Keys;
    RemovedStarts(category, a, b);
    while todo != {}
      invariant RemovedSoFar(category, a, b, removed, todo)
      decreases |todo|
    {
      var key :| key in todo;
      RemovedStep(category, a, b, removed, todo, key);
      if key !in b {
        removed := removed + [Item(key, Info, a[key], NoValue)];
      }
      todo := todo - {key};
    }
    RemovedEnds(category, a, b, removed);
  }

  lemma RemovedEnds(category: Category, a: Content, b: Content, removed: seq<Item>)
    requires RemovedSoFar(category, a, b, removed, {})
    ensures Lists(category, a, b, removed, a.Keys - b.Keys)
  {
    assert a.Keys - {} == a.Keys;
  }

  lemma RemovedStarts(category: Category, a: Content, b: Content)
    ensures RemovedSoFar(category, a, b, [], a.Keys)
  {}

  ghost predicate RemovedSoFar(category: Category, a: Content, b: Content, removed: seq<Item>, todo: set<JsText>) {
    todo <= a.Keys && Lists(category, a, b, removed, (a.Keys - todo) - b.Keys)
  }

  lemma RemovedStep(category: Category, a: Content, b: Content, removed: seq<Item>, todo: set<JsText>, key: JsText)
    requires RemovedSoFar(category, a, b, removed, todo) && key in todo
    ensures key !in b ==> RemovedSoFar(category, a, b, removed + [ItemFor(category, a, b, key)], todo - {key})
    ensures key in b ==> RemovedSoFar(category, a, b, removed, todo - {key})
  {
    assert a.Keys - (todo - {key}) == (a.Keys - todo) + {key};
    ListRemoved(category, a, b, removed, a.Keys - todo, key);
  }

  // ---- String sets (sudoers rules, enabled units) -------------------------------------

  function SetOf(xs: seq<JsText>): Content {
    map x | x in xs :: NoValue
  }

  method DiffStringSet(category: Category, before: seq<JsText>, after: seq<JsText>) returns (out: Changes)
    requires category in {Sudoers, Units}
    ensures IsDiff(category, SetOf(before), SetOf(after), out)
  {
    var a, b := SetOf(before), SetOf(after);
    var added: seq<Item> := [];
    var todo: set<JsText> := b.Keys;
    ProgressStarts(category, a, b);
    while todo != {}
      invariant Progress(category, a, b, added, [], todo)
      decreases |todo|
    {
      var s :| s in todo;
      ProgressStep(category, a, b, added, [], todo, s);
      if s !in a {
        added := added + [Item(s, if category == Sudoers then Critical else Info, NoValue, NoValue)];
      }
      todo := todo - {s};
    }
    ProgressEnds(category, a, b, added, []);
    var removed := OneSided(category, a, b);
    out := Changes(added, removed, [], 0);
  }

  // ---- Crontabs -----------------------------------------------------------------------

  function HashesOf(m: map<JsText, JsText>): Content {
    map t | t in m :: Hash(m[t])
  }

  method DiffCrontabs(before: map<JsText, JsText>, after: map<JsText, JsText>) returns (out: Changes)
    ensures IsDiff(Crontabs, HashesOf(before), HashesOf(after), out)
  {
    var a, b := HashesOf(before), HashesOf(after);
    var added, changed: seq<Item> := [], [];
    var todo: set<JsText> := b.Keys;
    ProgressStarts(Crontabs, a, b);
    while todo != {}
      invariant Progress(Crontabs, a, b, added, changed, todo)
      decreases |todo|
    {
      var t :| t in todo;
      ProgressStep(Crontabs, a, b, added, changed, todo, t);
      if t !in a {
        added := added + [Item(t, Warning, NoValue, b[t])];
      } else if a[t] != b[t] {
        changed := changed + [Item(t, Warning, a[t], b[t])];
      }
      todo := todo - {t};
    }
    ProgressEnds(Crontabs, a, b, added, changed);
    var removed := OneSided(Crontabs, a, b);
    out := Changes(added, removed, changed, 0);
  }

  // ---- Patching -------------------------------------------------------------------------

  function Put(m: Content, items: seq<Item>): Content {
    if items == [] then m else Put(m, items[..|items| - 1])[items[|items| - 1].key := items[|items| - 1].after]
  }

  /** Drop what was removed, overwrite what changed, write what was added. */
  function Patch(a: Content, c: Changes): Content {
    Put(Put(a - KeysOf(c.removed), c.changed), c.added)
  }

  lemma {:induction false} PutLooksUp(m: Content, items: seq<Item>, b: Content)
    requires forall x :: x in items ==> x.key in b && x.after == b[x.key]
    ensures Put(m, items).Keys == m.Keys + KeysOf(items)
    ensures forall n :: n in KeysOf(items) ==> Put(m, items)[n] == b[n]
    ensures forall n :: n in m && n !in KeysOf(items) ==> Put(m, items)[n] == m[n]
  {
    if items != [] {
      var init, x := items[..|items| - 1], items[|items| - 1];
      PutLooksUp(m, init, b);
      assert x in items;
      assert forall i :: 0 <= i < |init| ==> items[i] == init[i];
      assert KeysOf(items) == KeysOf(init) + {x.key};
    }
  }

  /** Patching the baseline with the change set gives the current content. */
  lemma PatchIsCurrent(category: Category, a: Content, b: Content, c: Changes)
    requires IsDiff(category, a, b, c)
    ensures Patch(a, c) == b
  {
    ListedLookUp(category, a, b, c.changed, KeysChanged(a, b));
    ListedLookUp(category, a, b, c.added, b.Keys - a.Keys);
    var kept := a - KeysOf(c.removed);
    var overwritten := Put(kept, c.changed);
    var patched := Put(overwritten, c.added);
    PutLooksUp(kept, c.changed, b);
    PutLooksUp(overwritten, c.added, b);
    PatchedIs(a, b, kept, overwritten, patched);
  }

  lemma PatchedIs(a: Content, b: Content, kept: Content, overwritten: Content, patched: Content)
    requires kept == a - (a.Keys - b.Keys)
    requires overwritten.Keys == kept.Keys + KeysChanged(a, b)
    requires forall k :: k in KeysChanged(a, b) ==> overwritten[k] == b[k]
    requires forall k :: k in kept && k !in KeysChanged(a, b) ==> overwritten[k] == kept[k]
    requires patched.Keys == overwritten.Keys + (b.Keys - a.Keys)
    requires forall k :: k in b.Keys - a.Keys ==> patched[k] == b[k]
    requires forall k :: k in overwritten && k !in b.Keys - a.Keys ==> patched[k] == overwritten[k]
    ensures patched == b
  {
    assert patched.Keys == b.Keys;
    forall k | k in b
      ensures patched[k] == b[k]
    {
      if k in a { assert k in overwritten && overwritten[k] == b[k]; }
    }
  }

  lemma ListedLookUp(category: Category, a: Content, b: Content, items: seq<Item>, keys: set<JsText>)
    requires Lists(category, a, b, items, keys) && keys <= b.Keys
    ensures forall x :: x in items ==> x.key in b && x.after == b[x.key]
  {
    forall x | x in items ensures x.key in b && x.after == b[x.key] { InKeys(items, x); }
  }

  predicate NoChange(c: Changes) {
    |c.added| + |c.removed| + |c.changed| == 0
  }

  /** Nothing is reported exactly when the contents are equal. */
  lemma NoChangeIffEqual(category: Category, a: Content, b: Content, c: Changes)
    requires IsDiff(category, a, b, c)
    ensures NoChange(c) <==> a == b
  {
    PatchIsCurrent(category, a, b, c);
    if a == b {
      if c.added != [] { InKeys(c.added, c.added[0]); }
      if c.removed != [] { InKeys(c.removed, c.removed[0]); }
      if c.changed != [] { InKeys(c.changed, c.changed[0]); }
    }
  }

  // ---- Sorting ----------------------------------------------------------------------------

  /** The order of strings by code unit. */
  predicate Less(x: JsText, y: JsText) {
    y != [] && (x == [] || x[0] < y[0] || (x[0] == y[0] && Less(x[1..], y[1..])))
  }

  lemma {:induction false} LessIsTotal(x: JsText, y: JsText)
    ensures !(Less(x, y) && Less(y, x))
    ensures Less(x, y) || Less(y, x) || x == y
  {
    if x != [] && y != [] && x[0] == y[0] {
      LessIsTotal(x[1..], y[1..]);
      if x[1..] == y[1..] { assert x == [x[0]] + x[1..] == y; }
    }
  }

  lemma {:induction false} LessIsTransitive(x: JsText, y: JsText, z: JsText)
    ensures Less(x, y) && Less(y, z) ==> Less(x, z)
    decreases |x|
  {
    if x != [] && y != [] && z != [] && x[0] == y[0] == z[0] { LessIsTransitive(x[1..], y[1..], z[1..]); }
  }

  /** `x` may stand before `y`: more serious, or as serious and not later by key. */
  predicate MayPrecede(x: Item, y: Item) {
    Rank(x.severity) > Rank(y.severity) || (x.severity == y.severity && !Less(y.key, x.key))
  }

  lemma MayPrecedeIsAnOrder(x: Item, y: Item, z: Item)
    ensures MayPrecede(x, y) || MayPrecede(y, x)
    ensures MayPrecede(x, y) && MayPrecede(y, z) ==> MayPrecede(x, z)
    ensures MayPrecede(x, y) && MayPrecede(y, x) ==> x.key == y.key
  {
    LessIsTotal(x.key, y.key);
    LessIsTotal(y.key, z.key);
    LessIsTotal(x.key, z.key);
    LessIsTransitive(z.key, x.key, y.key);
    LessIsTransitive(z.key, y.key, x.key);
    LessIsTransitive(y.key, z.key, x.key);
  }

  ghost predicate Sorted(items: seq<Item>) {
    forall i, j :: 0 <= i < j < |items| ==> MayPrecede(items[i], items[j])
  }

  function InsertItem(x: Item, items: seq<Item>): seq<Item> {
    if items == [] || MayPrecede(x, items[0]) then [x] + items else [items[0]] + InsertItem(x, items[1..])
  }

  function SortItems(items: seq<Item>): seq<Item> {
    if items == [] then [] else InsertItem(items[0], SortItems(items[1..]))
  }

  lemma {:induction false} InsertItemSorts(x: Item, items: seq<Item>)
    requires Sorted(items)
    ensures Sorted(InsertItem(x, items)) && multiset(InsertItem(x, items)) == multiset(items) + multiset{x}
  {
    if items == [] {
    } else if MayPrecede(x, items[0]) {
      forall j | 0 <= j < |items| ensures MayPrecede(x, items[j]) { MayPrecedeIsAnOrder(x, items[0], items[j]); }
    } else {
      var first, rest := items[0], items[1..];
      InsertItemSorts(x, rest);
      MayPrecedeIsAnOrder(x, first, x);
      var put := InsertItem(x, rest);
      assert items == [first] + rest;
      forall j | 0 <= j < |put| ensures MayPrecede(first, put[j]) {
        assert put[j] in multiset(put);
        if put[j] != x {
          assert put[j] in rest;
          var k :| 0 <= k < |rest| && rest[k] == put[j];
          assert rest[k] == items[k + 1];
        }
      }
    }
  }

  lemma {:induction false} SortItemsSorts(items: seq<Item>)
    ensures Sorted(SortItems(items)) && multiset(SortItems(items)) == multiset(items)
  {
    if items != [] {
      SortItemsSorts(items[1..]);
      InsertItemSorts(items[0], SortItems(items[1..]));
      assert items == [items[0]] + items[1..];
    }
  }

  lemma SameMembers(p: seq<Item>, q: seq<Item>)
    requires multiset(p) == multiset(q)
    ensures |p| == |q| && KeysOf(p) == KeysOf(q)
    ensures forall x :: x in p <==> x in q
  {
    assert |multiset(p)| == |p| && |multiset(q)| == |q|;
    forall x ensures x in p <==> x in q { assert x in p <==> x in multiset(p); assert x in q <==> x in multiset(q); }
    forall k ensures k in KeysOf(p) <==> k in KeysOf(q) {
      if k in KeysOf(p) { var i :| 0 <= i < |p| && p[i].key == k; assert p[i] in q; InKeys(q, p[i]); }
      if k in KeysOf(q) { var i :| 0 <= i < |q| && q[i].key == k; assert q[i] in p; InKeys(p, q[i]); }
    }
  }

  /** Distinct keys leave one sorted order, whatever order the comparison listed them in. */
  lemma {:induction false} SortedOrderIsUnique(p: seq<Item>, q: seq<Item>)
    requires Sorted(p) && Sorted(q) && DistinctKeys(p) && DistinctKeys(q)
    requires forall x :: x in p <==> x in q
    ensures p == q
  {
    if p == [] {
      if q != [] { HeadIsMember(q); }
    } else {
      assert p[0] in p;
      if q == [] { assert false; }
      assert q[0] in q;
      var j :| 0 <= j < |p| && p[j] == q[0];
      var i :| 0 <= i < |q| && q[i] == p[0];
      MayPrecedeIsAnOrder(p[0], q[0], p[0]);
      assert p[0] == q[0];
      forall x ensures x in p[1..] <==> x in q[1..] {
        TailMembers(p, x);
        TailMembers(q, x);
      }
      SortedOrderIsUnique(p[1..], q[1..]);
      assert p == [p[0]] + p[1..] && q == [q[0]] + q[1..];
    }
  }

  lemma HeadIsMember(q: seq<Item>)
    requires q != []
    ensures exists x :: x in q
  {
    assert q[0] in q;
  }

  lemma TailMembers(p: seq<Item>, x: Item)
    requires p != [] && DistinctKeys(p)
    ensures x in p[1..] <==> x in p && x != p[0]
  {
    if x in p && x != p[0] {
      var i :| 0 <= i < |p| && p[i] == x;
      assert p[1..][i - 1] == x;
    }
  }

  /** The number of items of a key is a matter of the multiset, not of the order. */
  function Times(key: JsText, items: seq<Item>): nat {
    if items == [] then 0 else (if items[0].key == key then 1 else 0) + Times(key, items[1..])
  }

  lemma {:induction false} TimesWithout(key: JsText, items: seq<Item>, i: nat)
    requires i < |items|
    ensures Times(key, items) == Times(key, items[..i] + items[i + 1..]) + (if items[i].key == key then 1 else 0)
  {
    if i == 0 {
      assert items[..0] + items[1..] == items[1..];
    } else {
      TimesWithout(key, items[1..], i - 1);
      var rest := items[..i] + items[i + 1..];
      assert rest[0] == items[0];
      assert rest[1..] == items[1..][..i - 1] + items[1..][i..];
    }
  }

  lemma WithoutFirst(p: seq<Item>, q: seq<Item>, i: nat)
    requires multiset(p) == multiset(q) && p != [] && i < |q| && q[i] == p[0]
    ensures multiset(p[1..]) == multiset(q[..i] + q[i + 1..])
  {
    assert p == [p[0]] + p[1..];
    assert q == q[..i] + ([q[i]] + q[i + 1..]);
    assert multiset(p) == multiset{p[0]} + multiset(p[1..]);
    assert multiset(q) == multiset(q[..i]) + (multiset{q[i]} + multiset(q[i + 1..]));
    assert multiset(p[1..]) == multiset(p) - multiset{p[0]};
    assert multiset(q[..i]) + multiset(q[i + 1..]) == multiset(q) - multiset{p[0]};
  }

  lemma {:induction false} TimesOfPermutation(key: JsText, p: seq<Item>, q: seq<Item>)
    requires multiset(p) == multiset(q)
    ensures Times(key, p) == Times(key, q)
  {
    if p == [] {
      assert |p| == |multiset(p)| == |multiset(q)| == |q|;
    } else {
      assert p[0] in multiset(q);
      var i :| 0 <= i < |q| && q[i] == p[0];
      TimesWithout(key, q, i);
      WithoutFirst(p, q, i);
      TimesOfPermutation(key, p[1..], q[..i] + q[i + 1..]);
    }
  }

  lemma {:induction false} NoneIffAbsent(key: JsText, items: seq<Item>)
    ensures Times(key, items) == 0 <==> key !in KeysOf(items)
  {
    if items != [] {
      NoneIffAbsent(key, items[1..]);
      assert KeysOf(items) == {items[0].key} + KeysOf(items[1..]) by {
        assert forall i :: 0 <= i < |items[1..]| ==> items[1..][i] == items[i + 1];
      }
    }
  }

  lemma {:induction false} DistinctMeansOnce(key: JsText, items: seq<Item>)
    requires DistinctKeys(items)
    ensures Times(key, items) <= 1
  {
    if items != [] {
      DistinctMeansOnce(key, items[1..]);
      NoneIffAbsent(items[0].key, items[1..]);
    }
  }

  lemma {:induction false} OnceMeansDistinct(items: seq<Item>)
    requires forall key :: Times(key, items) <= 1
    ensures DistinctKeys(items)
  {
    if items != [] {
      forall key ensures Times(key, items[1..]) <= 1 { assert Times(key, items) <= 1; }
      OnceMeansDistinct(items[1..]);
      assert Times(items[0].key, items) <= 1;
      NoneIffAbsent(items[0].key, items[1..]);
      forall i, j | 0 <= i < j < |items| ensures items[i].key != items[j].key {
        assert items[j] == items[1..][j - 1];
        if i > 0 { assert items[i] == items[1..][i - 1]; }
      }
    }
  }

  lemma PermutedKeysDistinct(p: seq<Item>, q: seq<Item>)
    requires multiset(p) == multiset(q) && DistinctKeys(p)
    ensures DistinctKeys(q)
  {
    forall key ensures Times(key, q) <= 1 {
      DistinctMeansOnce(key, p);
      TimesOfPermutation(key, p, q);
    }
    OnceMeansDistinct(q);
  }

  // ---- One category: sort, rate, fingerprint, truncate ------------------------------------

  const MAX_ITEMS_PER_LIST: nat := 200

  datatype CategoryDiff = CategoryDiff(severity: Severity, changes: Changes, fingerprint: Changes)

  function Cap(items: seq<Item>): seq<Item> {
    if |items| <= MAX_ITEMS_PER_LIST then items else items[..MAX_ITEMS_PER_LIST]
  }

  function Excess(items: seq<Item>): nat {
    if |items| <= MAX_ITEMS_PER_LIST then 0 else |items| - MAX_ITEMS_PER_LIST
  }

  function Truncate(c: Changes): Changes {
    Changes(Cap(c.added), Cap(c.removed), Cap(c.changed), Excess(c.added) + Excess(c.removed) + Excess(c.changed))
  }

  function ChangeCount(c: Changes): nat {
    |c.added| + |c.removed| + |c.changed| + c.omitted
  }

  function AllItems(c: Changes): seq<Item> {
    c.added + c.removed + c.changed
  }

  ghost predicate AtMost(items: seq<Item>, s: Severity) {
    forall x :: x in items ==> Rank(x.severity) <= Rank(s)
  }

  ghost predicate Reaches(items: seq<Item>, s: Severity) {
    exists x :: x in items && x.severity == s
  }

  /** `s` is the most serious severity among `items`, Info when there are none. */
  ghost predicate IsMaxSeverity(items: seq<Item>, s: Severity) {
    AtMost(items, s) && (s == Info || Reaches(items, s))
  }

  method ChangesSeverity(c: Changes) returns (best: Severity)
    ensures IsMaxSeverity(AllItems(c), best)
  {
    var items := AllItems(c);
    best := Info;
    for k := 0 to |items|
      invariant IsMaxSeverity(items[..k], best)
    {
      assert items[..k + 1] == items[..k] + [items[k]];
      assert items[k] in items[..k + 1];
      ghost var before := best;
      if Rank(items[k].severity) > Rank(best) {
        best := items[k].severity;
      } else if before != Info {
        var x :| x in items[..k] && x.severity == before;
        assert x in items[..k + 1];
      }
    }
    assert items[..|items|] == items;
  }

  ghost predicate AllSorted(c: Changes) {
    Sorted(c.added) && Sorted(c.removed) && Sorted(c.changed)
  }

  lemma CapKeepsTheWorst(items: seq<Item>, s: Severity)
    requires Sorted(items)
    ensures AtMost(items, s) <==> AtMost(Cap(items), s)
    ensures Reaches(Cap(items), s) ==> Reaches(items, s)
    ensures AtMost(items, s) && Reaches(items, s) ==> Reaches(Cap(items), s)
  {
    if items != [] {
      assert items[0] in items && Cap(items)[0] == items[0] && items[0] in Cap(items);
      forall x | x in items ensures Rank(x.severity) <= Rank(items[0].severity) {
        var i :| 0 <= i < |items| && items[i] == x;
      }
    }
  }

  lemma MaxOfParts(p: seq<Item>, q: seq<Item>, r: seq<Item>, s: Severity)
    ensures AtMost(p + q + r, s) <==> AtMost(p, s) && AtMost(q, s) && AtMost(r, s)
    ensures Reaches(p + q + r, s) <==> Reaches(p, s) || Reaches(q, s) || Reaches(r, s)
  {
    assert forall x :: x in p + q + r <==> x in p || x in q || x in r;
  }

  lemma PartsKeepTheWorst(p: seq<Item>, q: seq<Item>, r: seq<Item>, s: Severity)
    requires Sorted(p) && Sorted(q) && Sorted(r)
    ensures IsMaxSeverity(Cap(p) + Cap(q) + Cap(r), s) <==> IsMaxSeverity(p + q + r, s)
  {
    MaxOfParts(p, q, r, s);
    MaxOfParts(Cap(p), Cap(q), Cap(r), s);
    CapKeepsTheWorst(p, s);
    CapKeepsTheWorst(q, s);
    CapKeepsTheWorst(r, s);
  }

  /** Truncating sorted lists keeps the total count and the maximum severity. */
  lemma TruncateKeepsCountAndSeverity(c: Changes, s: Severity)
    requires AllSorted(c) && c.omitted == 0
    ensures ChangeCount(Truncate(c)) == ChangeCount(c)
    ensures IsMaxSeverity(AllItems(Truncate(c)), s) <==> IsMaxSeverity(AllItems(c), s)
  {
    PartsKeepTheWorst(c.added, c.removed, c.changed, s);
  }

  function SortChanges(c: Changes): Changes {
    Changes(SortItems(c.added), SortItems(c.removed), SortItems(c.changed), c.omitted)
  }

  lemma SortListKeepsLists(category: Category, a: Content, b: Content, items: seq<Item>, keys: set<JsText>)
    requires Lists(category, a, b, items, keys)
    ensures Lists(category, a, b, SortItems(items), keys) && Sorted(SortItems(items))
  {
    SortItemsSorts(items);
    SameMembers(items, SortItems(items));
    PermutedKeysDistinct(items, SortItems(items));
  }

  lemma SortKeepsDiff(category: Category, a: Content, b: Content, c: Changes)
    requires IsDiff(category, a, b, c)
    ensures IsDiff(category, a, b, SortChanges(c)) && AllSorted(SortChanges(c))
  {
    SortListKeepsLists(category, a, b, c.added, b.Keys - a.Keys);
    SortListKeepsLists(category, a, b, c.removed, a.Keys - b.Keys);
    SortListKeepsLists(category, a, b, c.changed, KeysChanged(a, b));
  }

  lemma ListsMembers(category: Category, a: Content, b: Content, p: seq<Item>, q: seq<Item>, keys: set<JsText>)
    requires Lists(category, a, b, p, keys) && Lists(category, a, b, q, keys)
    ensures forall x :: x in p ==> x in q
  {
    forall x | x in p ensures x in q {
      InKeys(p, x);
      var j :| 0 <= j < |q| && q[j].key == x.key;
      assert q[j] in q;
    }
  }

  /** Against one baseline, two scans have the same fingerprint exactly when the content is the
      same: equal drift is recognised as equal, and different drift is never taken for it. */
  lemma FingerprintIdentifiesContent(category: Category, a: Content, b: Content, c: Changes, b': Content, c': Changes)
    requires IsDiff(category, a, b, c) && AllSorted(c)
    requires IsDiff(category, a, b', c') && AllSorted(c')
    ensures c == c' <==> b == b'
  {
    PatchIsCurrent(category, a, b, c);
    PatchIsCurrent(category, a, b', c');
    if b == b' {
      SortedListIsUnique(category, a, b, c.added, c'.added, b.Keys - a.Keys);
      SortedListIsUnique(category, a, b, c.removed, c'.removed, a.Keys - b.Keys);
      SortedListIsUnique(category, a, b, c.changed, c'.changed, KeysChanged(a, b));
    }
  }

  lemma {:induction false} SomeList(category: Category, a: Content, b: Content, keys: set<JsText>)
    ensures exists items :: Lists(category, a, b, items, keys) && Sorted(items)
    decreases |keys|
  {
    if keys == {} {
      NothingListed(category, a, b, keys);
      assert Sorted([]);
    } else {
      var key :| key in keys;
      SomeList(category, a, b, keys - {key});
      var items :| Lists(category, a, b, items, keys - {key}) && Sorted(items);
      ListsAppend(category, a, b, items, keys - {key}, key);
      assert keys - {key} + {key} == keys;
      SortListKeepsLists(category, a, b, items + [ItemFor(category, a, b, key)], keys);
    }
  }

  /** The one sorted change set of a comparison; the stored fingerprint is a hash of it. */
  ghost function FingerprintOf(category: Category, a: Content, b: Content): (c: Changes)
    ensures IsDiff(category, a, b, c) && AllSorted(c)
  {
    SomeList(category, a, b, b.Keys - a.Keys);
    SomeList(category, a, b, a.Keys - b.Keys);
    SomeList(category, a, b, KeysChanged(a, b));
    var added :| Lists(category, a, b, added, b.Keys - a.Keys) && Sorted(added);
    var removed :| Lists(category, a, b, removed, a.Keys - b.Keys) && Sorted(removed);
    var changed :| Lists(category, a, b, changed, KeysChanged(a, b)) && Sorted(changed);
    Changes(added, removed, changed, 0)
  }

  lemma SortedListIsUnique(category: Category, a: Content, b: Content, p: seq<Item>, q: seq<Item>, keys: set<JsText>)
    requires Lists(category, a, b, p, keys) && Lists(category, a, b, q, keys) && Sorted(p) && Sorted(q)
    ensures p == q
  {
    ListsMembers(category, a, b, p, q, keys);
    ListsMembers(category, a, b, q, p, keys);
    SortedOrderIsUnique(p, q);
  }
}
