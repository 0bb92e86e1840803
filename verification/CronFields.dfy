/** Which five-field schedules are accepted, said by their spelling: every field is a list of items, an
    item is a star, a value or a range, with a step where one is allowed, and every value lies in
    the range of its field. */
module CronFields {
  import opened Options
  import opened Text
  import opened CronSchedule

  // ---- Values ---------------------------------------------------------------------------

  lemma {:induction false} IndexIff(names: seq<string>, name: string, i: nat)
    ensures IndexOf(names, name) == Some(i) <==> i < |names| && names[i] == name && name !in names[..i]
  {
    if names != [] {
      if i == 0 {
        assert names[..0] == [];
      } else {
        IndexIff(names[1..], name, i - 1);
        if i <= |names| { assert names[..i] == [names[0]] + names[1..][..i - 1]; }
      }
    }
  }

  /** The first of the field's names that is `name` stands for `n`. */
  predicate Names(spec: FieldSpec, n: nat, name: string) {
    n >= spec.base && n - spec.base < |spec.names| && spec.names[n - spec.base] == name && name !in spec.names[..n - spec.base]
  }

  /** A token is a number in the field's range, or one of its names in any case of letters. */
  lemma ValueIff(token: string, spec: FieldSpec, n: nat)
    ensures FieldValue(token, spec) == Some(n) <==>
      if AllDigits(token) then n == Number(token) && spec.min <= n <= spec.max else Names(spec, n, LowerAll(token))
  {
    if n >= spec.base { IndexIff(spec.names, LowerAll(token), n - spec.base); }
  }

  // ---- Items ----------------------------------------------------------------------------

  datatype Range = Every | One(lo: string) | Span(lo: string, hi: string)

  function SpellRange(r: Range): string {
    match r
    case Every => "*"
    case One(lo) => lo
    case Span(lo, hi) => lo + ['-'] + hi
  }

  function Spell(r: Range, step: Option<string>): string {
    match step
    case None => SpellRange(r)
    case Some(s) => SpellRange(r) + ['/'] + s
  }

  predicate HasValue(token: string, spec: FieldSpec) {
    ((1 <= |token| <= 2 && AllDigits(token)) || (|token| == 3 && AllLetters(token))) && FieldValue(token, spec).Some?
  }

  /** A range runs upwards; a step of one or two digits, from 1 to the field's maximum, may follow a star
      or a range, but not a single value. */
  predicate RangeOk(r: Range, step: Option<string>, spec: FieldSpec) {
    && (r.One? ==> HasValue(r.lo, spec) && step == None)
    && (r.Span? ==> HasValue(r.lo, spec) && HasValue(r.hi, spec) && FieldValue(r.lo, spec).value <= FieldValue(r.hi, spec).value)
    && (step.Some? ==> 1 <= |step.value| <= 2 && AllDigits(step.value) && 1 <= Number(step.value) <= spec.max)
  }

  lemma FirstIsUnique(a: string, c: char, b: string, x: string, y: string)
    requires c !in a && c !in x && a + [c] + b == x + [c] + y
    ensures a == x && b == y
  {
    var s := a + [c] + b;
    assert s[|a|] == c && s[|x|] == c;
    assert forall i :: 0 <= i < |a| ==> s[i] == a[i];
    assert forall i :: 0 <= i < |x| ==> s[i] == x[i];
    assert |a| == |x|;
    assert a == s[..|a|] == x && b == s[|a| + 1..] == y;
  }

  lemma CutAtFirst(a: string, c: char, b: string)
    requires c !in a
    ensures CutAt(a, c) == (a, None) && CutAt(a + [c] + b, c) == (a, Some(b))
  {
    var s := a + [c] + b;
    var r := CutAt(s, c);
    assert s[|a|] == c;
    if r.1.Some? { FirstIsUnique(a, c, b, r.0, r.1.value); }
    NotCut(a, c);
  }

  lemma NotCut(a: string, c: char)
    requires c !in a
    ensures CutAt(a, c) == (a, None)
  {
    CutFinds(a, c);
  }

  lemma CutFinds(a: string, c: char)
    ensures CutAt(a, c).1.Some? ==> c in a
  {
    var r := CutAt(a, c);
    if r.1.Some? { assert a[|r.0|] == c; }
  }

  lemma AtomChars(s: string)
    requires IsAtom(s)
    ensures '-' !in s && '/' !in s && ',' !in s && s != "*"
  {
    forall c | c in s
      ensures IsDigit(c) || IsLetter(c)
    {
      var i :| 0 <= i < |s| && s[i] == c;
    }
    assert "*"[0] == '*';
  }

  lemma SpellParts(r: Range, step: Option<string>, spec: FieldSpec)
    requires RangeOk(r, step, spec)
    ensures CutAt(Spell(r, step), '/') == (SpellRange(r), step)
    ensures r.One? ==> CutAt(SpellRange(r), '-') == (r.lo, None) && SpellRange(r) != "*"
    ensures r.Span? ==> CutAt(SpellRange(r), '-') == (r.lo, Some(r.hi)) && SpellRange(r) != "*"
  {
    if !r.Every? { AtomChars(r.lo); }
    if r.Span? {
      AtomChars(r.hi);
      assert SpellRange(r)[|r.lo|] == '-';
    }
    CutAtFirst(SpellRange(r), '/', if step.Some? then step.value else "");
    if r.One? { CutAtFirst(r.lo, '-', ""); }
    if r.Span? { CutAtFirst(r.lo, '-', r.hi); }
  }

  lemma SpelledIsOk(r: Range, step: Option<string>, spec: FieldSpec)
    requires RangeOk(r, step, spec)
    ensures ItemOk(Spell(r, step), spec)
  {
    SpellParts(r, step, spec);
  }

  lemma OkIsSpelled(item: string, spec: FieldSpec) returns (r: Range, step: Option<string>)
    requires ItemOk(item, spec)
    ensures item == Spell(r, step) && RangeOk(r, step, spec)
  {
    var (head, after) := CutAt(item, '/');
    var (lo, hi) := CutAt(head, '-');
    step := after;
    r := if head == "*" then Every else if hi.Some? then Span(lo, hi.value) else One(lo);
  }

  /** The items that are accepted are exactly those spelled so. */
  lemma ItemOkIff(item: string, spec: FieldSpec)
    ensures ItemOk(item, spec) <==> exists r, step :: item == Spell(r, step) && RangeOk(r, step, spec)
  {
    if ItemOk(item, spec) {
      var r, step := OkIsSpelled(item, spec);
    }
    if exists r, step :: item == Spell(r, step) && RangeOk(r, step, spec) {
      var r, step :| item == Spell(r, step) && RangeOk(r, step, spec);
      SpelledIsOk(r, step, spec);
    }
  }

  // ---- Fields -----------------------------------------------------------------------------

  function Commas(items: seq<string>): string
    requires items != []
  {
    if |items| == 1 then items[0] else items[0] + [','] + Commas(items[1..])
  }

  ghost predicate AllItemsOk(items: seq<string>, spec: FieldSpec) {
    forall i :: 0 <= i < |items| ==> ItemOk(items[i], spec) && ',' !in items[i]
  }

  lemma {:induction false} ListedIsOk(items: seq<string>, spec: FieldSpec)
    requires items != [] && AllItemsOk(items, spec)
    ensures FieldOk(Commas(items), spec)
  {
    CutAtFirst(items[0], ',', if |items| == 1 then "" else Commas(items[1..]));
    if |items| > 1 { ListedIsOk(items[1..], spec); }
  }

  lemma {:induction false} OkIsListed(field: string, spec: FieldSpec) returns (items: seq<string>)
    requires FieldOk(field, spec)
    ensures items != [] && field == Commas(items) && AllItemsOk(items, spec)
    decreases |field|
  {
    var (item, more) := CutAt(field, ',');
    items := [item];
    if more.Some? {
      var rest := OkIsListed(more.value, spec);
      items := [item] + rest;
      assert items[1..] == rest;
    }
  }

  /** The fields that are accepted are exactly the lists of such items. */
  lemma FieldOkIff(field: string, spec: FieldSpec)
    ensures FieldOk(field, spec) <==> exists items :: items != [] && field == Commas(items) && AllItemsOk(items, spec)
  {
    if FieldOk(field, spec) {
      var items := OkIsListed(field, spec);
    }
    if exists items :: items != [] && field == Commas(items) && AllItemsOk(items, spec) {
      var items :| items != [] && field == Commas(items) && AllItemsOk(items, spec);
      ListedIsOk(items, spec);
    }
  }

  lemma OneItemField(item: string, spec: FieldSpec)
    requires ',' !in item
    ensures FieldOk(item, spec) <==> ItemOk(item, spec)
  {
    CutAtFirst(item, ',', "");
  }

  // ---- The five ranges ----------------------------------------------------------------------

  predicate ShortNumber(d: string) {
    1 <= |d| <= 2 && AllDigits(d)
  }

  lemma NumberField(d: string, spec: FieldSpec)
    requires ShortNumber(d)
    ensures FieldOk(d, spec) <==> spec.min <= Number(d) <= spec.max
  {
    AtomChars(d);
    OneItemField(d, spec);
    CutAtFirst(d, '/', "");
    CutAtFirst(d, '-', "");
  }

  lemma StepField(d: string, spec: FieldSpec)
    requires ShortNumber(d)
    ensures FieldOk("*/" + d, spec) <==> 1 <= Number(d) <= spec.max
  {
    AtomChars(d);
    assert "*/" + d == "*" + ['/'] + d;
    OneItemField("*/" + d, spec);
    CutAtFirst("*", '/', d);
  }

  /** Minutes run to 59, hours to 23, days from 1 to 31, months from 1 to 12, and weekdays to 7. */
  lemma FieldRanges(d: string)
    requires ShortNumber(d)
    ensures FieldOk(d, FIELD_SPECS[0]) <==> Number(d) <= 59
    ensures FieldOk(d, FIELD_SPECS[1]) <==> Number(d) <= 23
    ensures FieldOk(d, FIELD_SPECS[2]) <==> 1 <= Number(d) <= 31
    ensures FieldOk(d, FIELD_SPECS[3]) <==> 1 <= Number(d) <= 12
    ensures FieldOk(d, FIELD_SPECS[4]) <==> Number(d) <= 7
  {
    NumberField(d, FIELD_SPECS[0]);
    NumberField(d, FIELD_SPECS[1]);
    NumberField(d, FIELD_SPECS[2]);
    NumberField(d, FIELD_SPECS[3]);
    NumberField(d, FIELD_SPECS[4]);
  }

  const MONTHS: seq<string> := ["jan", "feb", "mar", "apr", "may", "jun", "jul", "aug", "sep", "oct", "nov", "dec"]
  const WEEKDAYS: seq<string> := ["sun", "mon", "tue", "wed", "thu", "fri", "sat"]

  predicate LowerName(name: string) {
    |name| == 3 && forall i :: 0 <= i < 3 ==> 'a' <= name[i] <= 'z'
  }

  predicate DistinctNames(names: seq<string>) {
    forall i, j :: 0 <= i < j < |names| ==> names[i] != names[j]
  }

  /** Names stand for their place in the list, in any case of letters. */
  lemma NameValue(token: string, spec: FieldSpec, k: nat)
    requires k < |spec.names| && DistinctNames(spec.names) && LowerName(spec.names[k]) && LowerAll(token) == spec.names[k]
    ensures FieldValue(token, spec) == Some(k + spec.base)
  {
    assert LowerAll(token)[0] == Lower(token[0]);
    assert !IsDigit(token[0]);
    ValueIff(token, spec, k + spec.base);
  }

  /** The letters of a name in one number. */
  function Letters(name: string): int
    requires |name| == 3
  {
    name[0] as int * 65_536 + name[1] as int * 256 + name[2] as int
  }

  lemma DistinctLetters(names: seq<string>, letters: seq<int>)
    requires |letters| == |names| && forall i, j :: 0 <= i < j < |letters| ==> letters[i] != letters[j]
    requires forall i :: 0 <= i < |names| ==> |names[i]| == 3 && Letters(names[i]) == letters[i]
    ensures DistinctNames(names)
  {}

  lemma NameLists()
    ensures FIELD_SPECS[3].names == MONTHS && FIELD_SPECS[4].names == WEEKDAYS
    ensures forall k :: 0 <= k < 12 ==> LowerName(MONTHS[k])
    ensures forall k :: 0 <= k < 7 ==> LowerName(WEEKDAYS[k])
  {}

  lemma MonthsDiffer()
    ensures DistinctNames(MONTHS)
  {
    DistinctLetters(MONTHS, seq(12, i requires 0 <= i < 12 => Letters(MONTHS[i])));
  }

  lemma WeekdaysDiffer()
    ensures DistinctNames(WEEKDAYS)
  {
    DistinctLetters(WEEKDAYS, seq(7, i requires 0 <= i < 7 => Letters(WEEKDAYS[i])));
  }

  /** The three letters of a name, small or capital. */
  predicate SameName(token: string, name: string) {
    |token| == |name| == 3 && forall i :: 0 <= i < 3 ==> token[i] == name[i] || token[i] as int + 32 == name[i] as int
  }

  lemma NamedToken(token: string, spec: FieldSpec, k: nat)
    requires k < |spec.names| && DistinctNames(spec.names) && LowerName(spec.names[k]) && SameName(token, spec.names[k])
    ensures FieldOk(token, spec) && FieldValue(token, spec) == Some(k + spec.base)
  {
    var name := spec.names[k];
    assert forall i :: 0 <= i < 3 ==> IsLetter(token[i]) && Lower(token[i]) == name[i];
    assert LowerAll(token) == name;
    NameValue(token, spec, k);
    AtomChars(token);
    OneItemField(token, spec);
    CutAtFirst(token, '/', "");
    CutAtFirst(token, '-', "");
  }

  /** Months and weekdays go by their first three letters, from January as 1 and Sunday as 0. */
  lemma MonthsAndDays(token: string, k: nat)
    ensures k < 12 && SameName(token, MONTHS[k]) ==> FieldOk(token, FIELD_SPECS[3]) && FieldValue(token, FIELD_SPECS[3]) == Some(k + 1)
    ensures k < 7 && SameName(token, WEEKDAYS[k]) ==> FieldOk(token, FIELD_SPECS[4]) && FieldValue(token, FIELD_SPECS[4]) == Some(k)
  {
    NameLists();
    MonthsDiffer();
    WeekdaysDiffer();
    if k < 12 && SameName(token, MONTHS[k]) { NamedToken(token, FIELD_SPECS[3], k); }
    if k < 7 && SameName(token, WEEKDAYS[k]) { NamedToken(token, FIELD_SPECS[4], k); }
  }

  // ---- Whole schedules ------------------------------------------------------------------------

  predicate IsWord(s: string) {
    s != "" && forall i :: 0 <= i < |s| ==> !IsSpace(s[i])
  }

  /** Words one blank apart. */
  function Joined(words: seq<string>): string
    requires words != []
  {
    if |words| == 1 then words[0] else words[0] + [' '] + Joined(words[1..])
  }

  ghost predicate AllWords(words: seq<string>) {
    forall i :: 0 <= i < |words| ==> IsWord(words[i])
  }

  lemma {:induction false} WordOf(w: string, rest: string)
    requires IsWord(w) && (rest == "" || IsSpace(rest[0]))
    ensures Word(w + rest) == w && (w + rest)[|w|..] == rest
  {
    if |w| == 1 {
      assert (w + rest)[1..] == rest;
    } else {
      assert (w + rest)[1..] == w[1..] + rest;
      WordOf(w[1..], rest);
    }
  }

  lemma JoinedIsTrimmed(words: seq<string>)
    requires words != [] && AllWords(words)
    ensures Joined(words) != "" && Trimmed(Joined(words)) && Joined(words)[0] == words[0][0]
  {
    if |words| > 1 {
      JoinedIsTrimmed(words[1..]);
      var tail := Joined(words[1..]);
      assert Joined(words)[|Joined(words)| - 1] == tail[|tail| - 1];
    }
  }

  lemma BlankBefore(tail: string)
    requires tail != "" && !IsSpace(tail[0])
    ensures TrimStart([' '] + tail) == tail
  {
    var s := [' '] + tail;
    assert s[1..] == tail && Spaces(tail) == 0;
    TrimStartStep(s);
  }

  lemma {:induction false} WordsOfJoined(words: seq<string>)
    requires words != [] && AllWords(words)
    ensures Words(Joined(words)) == words
  {
    var w, s := words[0], Joined(words);
    if |words| == 1 {
      WordOf(w, "");
      assert w + "" == w;
      WordsStep(s, w, TrimStart(s[|w|..]));
    } else {
      var tail := Joined(words[1..]);
      JoinedIsTrimmed(words[1..]);
      assert s == w + ([' '] + tail);
      WordOf(w, [' '] + tail);
      BlankBefore(tail);
      WordsStep(s, w, tail);
      WordsOfJoined(words[1..]);
    }
  }

  /** Five fields, one blank apart, are a schedule exactly when each is a field of its range and the
      scheduling library agrees. */
  lemma FiveFieldsIff(fields: seq<string>, croner: Croner)
    requires |fields| == 5 && AllWords(fields) && fields[0][0] != '@'
    ensures ScheduleOk(Joined(fields), croner) <==>
      (forall i :: 0 <= i < 5 ==> FieldOk(fields[i], FIELD_SPECS[i])) && croner(Joined(fields))
  {
    WordsOfJoined(fields);
    JoinedIsTrimmed(fields);
    TrimOfTrimmed(Joined(fields));
    FiveFields();
  }

  /** No other number of fields is a schedule. */
  lemma OnlyFiveFields(fields: seq<string>, croner: Croner)
    requires fields != [] && |fields| != 5 && AllWords(fields) && fields[0][0] != '@'
    ensures !ScheduleOk(Joined(fields), croner)
  {
    WordsOfJoined(fields);
    JoinedIsTrimmed(fields);
    TrimOfTrimmed(Joined(fields));
    FiveFields();
  }

  lemma NicknameIff(name: string, croner: Croner)
    requires IsWord(name) && name[0] == '@'
    ensures ScheduleOk(name, croner) <==>
      name in {"@reboot", "@yearly", "@annually", "@monthly", "@weekly", "@daily", "@midnight", "@hourly"}
  {
    TrimOfTrimmed(name);
  }
}
