/** Which schedules are accepted: the nicknames, and five fields in the syntax that vixie cron
    and cronie share. The scheduling library's own opinion of a schedule is a parameter. */
module CronSchedule {
  import opened Options
  import opened Text

  type Croner = string -> bool

  const NICKNAMES: seq<string> :=
    ["@reboot", "@yearly", "@annually", "@monthly", "@weekly", "@daily", "@midnight", "@hourly"]

  datatype FieldSpec = FieldSpec(min: nat, max: nat, names: seq<string>, base: nat)

  const FIELD_SPECS: seq<FieldSpec> := [
    FieldSpec(0, 59, [], 0),
    FieldSpec(0, 23, [], 0),
    FieldSpec(1, 31, [], 0),
    FieldSpec(1, 12, ["jan", "feb", "mar", "apr", "may", "jun", "jul", "aug", "sep", "oct", "nov", "dec"], 1),
    FieldSpec(0, 7, ["sun", "mon", "tue", "wed", "thu", "fri", "sat"], 0)
  ]

  predicate IsLetter(c: char) {
    'a' <= c <= 'z' || 'A' <= c <= 'Z'
  }

  function Lower(c: char): char {
    if 'A' <= c <= 'Z' then (c as int + 32) as char else c
  }

  function LowerAll(s: string): string {
    seq(|s|, i requires 0 <= i < |s| => Lower(s[i]))
  }

  predicate AllDigits(s: string) {
    forall i :: 0 <= i < |s| ==> IsDigit(s[i])
  }

  predicate AllLetters(s: string) {
    forall i :: 0 <= i < |s| ==> IsLetter(s[i])
  }

  /** `s` up to the first `c`, and what follows it if there is one. */
  function CutAt(s: string, c: char): (r: (string, Option<string>))
    ensures c !in r.0
    ensures s == if r.1.Some? then r.0 + [c] + r.1.value else r.0
  {
    if s == "" then ("", None)
    else if s[0] == c then ("", Some(s[1..]))
    else
      var (before, after) := CutAt(s[1..], c);
      ([s[0]] + before, after)
  }

  /** One or two digits, or three letters. */
  predicate IsAtom(s: string) {
    (1 <= |s| <= 2 && AllDigits(s)) || (|s| == 3 && AllLetters(s))
  }

  function IndexOf(names: seq<string>, name: string): Option<nat> {
    if names == [] then None
    else if names[0] == name then Some(0)
    else
      var rest := IndexOf(names[1..], name);
      if rest.None? then None else Some(rest.value + 1)
  }

  function FieldValue(token: string, spec: FieldSpec): Option<nat> {
    if AllDigits(token) then
      var n := Number(token);
      if spec.min <= n <= spec.max then Some(n) else None
    else
      var i := IndexOf(spec.names, LowerAll(token));
      if i.None? then None else Some(i.value + spec.base)
  }

  /** `*`, `N`, `N-M`, `*` or `N-M` with a `/S`. */
  predicate ItemOk(item: string, spec: FieldSpec) {
    var (head, step) := CutAt(item, '/');
    var (lo, hi) := CutAt(head, '-');
    && (step.Some? ==> 1 <= |step.value| <= 2 && AllDigits(step.value))
    && (head == "*" || (IsAtom(lo) && (hi.Some? ==> IsAtom(hi.value))))
    && (step.Some? ==> (head == "*" || hi.Some?) && 1 <= Number(step.value) <= spec.max)
    && (head == "*" ||
        (FieldValue(lo, spec).Some? &&
         (hi.Some? ==> FieldValue(hi.value, spec).Some? && FieldValue(lo, spec).value <= FieldValue(hi.value, spec).value)))
  }

  predicate FieldOk(field: string, spec: FieldSpec)
    decreases |field|
  {
    var (item, more) := CutAt(field, ',');
    ItemOk(item, spec) && (more.Some? ==> FieldOk(more.value, spec))
  }

  /** The leading run of characters that are not whitespace. */
  function Word(s: string): (w: string)
    ensures |w| <= |s| && w == s[..|w|]
    ensures forall i :: 0 <= i < |w| ==> !IsSpace(w[i])
    ensures |w| < |s| ==> IsSpace(s[|w|])
  {
    if s == "" || IsSpace(s[0]) then "" else [s[0]] + Word(s[1..])
  }

  /** `split(/\s+/)` of a trimmed, non-empty string. */
  function Words(s: string): seq<string>
    decreases |s|
  {
    var w := Word(s);
    var rest := TrimStart(s[|w|..]);
    if rest == "" || |w| == |s| then [w] else [w] + Words(rest)
  }

  predicate ScheduleOk(schedule: string, croner: Croner) {
    var s := Trim(schedule);
    s != "" &&
    if s[0] == '@' then s in NICKNAMES
    else FieldsOk(Words(s)) && croner(s)
  }

  predicate FieldsOk(fields: seq<string>) {
    |fields| == |FIELD_SPECS| && forall i :: 0 <= i < |fields| ==> FieldOk(fields[i], FIELD_SPECS[i])
  }

  // ---- What accepted schedules cannot contain ------------------------------------------------

  /** The characters of the five-field syntax. */
  predicate IsFieldChar(c: char) {
    IsDigit(c) || IsLetter(c) || c == '*' || c == '/' || c == '-' || c == ','
  }

  predicate AllFieldChars(s: string) {
    forall i :: 0 <= i < |s| ==> IsFieldChar(s[i])
  }

  lemma ItemChars(item: string, spec: FieldSpec)
    requires ItemOk(item, spec)
    ensures item != "" && AllFieldChars(item)
  {
    var (head, step) := CutAt(item, '/');
    var (lo, hi) := CutAt(head, '-');
    assert AllFieldChars(head);
  }

  lemma {:induction false} FieldChars(field: string, spec: FieldSpec)
    requires FieldOk(field, spec)
    ensures field != "" && AllFieldChars(field)
    decreases |field|
  {
    var (item, more) := CutAt(field, ',');
    ItemChars(item, spec);
    if more.Some? { FieldChars(more.value, spec); }
  }

  lemma FieldsChars(fields: seq<string>, i: nat)
    requires FieldsOk(fields) && i < |fields|
    ensures fields[i] != "" && AllFieldChars(fields[i])
  {
    FieldChars(fields[i], FIELD_SPECS[i]);
  }

  lemma FirstTwoWords(s: string, words: seq<string>)
    requires words == Words(s) && |words| >= 2
    ensures var w := Word(s);
      && |w| < |s| && IsSpace(s[|w|]) && TrimStart(s[|w|..]) != ""
      && words[0] == w && words[1] == Word(TrimStart(s[|w|..]))
  {
    var w := Word(s);
    var rest := TrimStart(s[|w|..]);
    WordsStep(s, w, rest);
    WordsHead(rest);
    TwoWordsOf(words, w, rest, Words(rest), |s|);
  }

  lemma TwoWordsOf(words: seq<string>, w: string, rest: string, more: seq<string>, size: nat)
    requires |words| >= 2 && more != [] && words == if rest == "" || |w| == size then [w] else [w] + more
    ensures rest != "" && |w| != size && words[0] == w && words[1] == more[0]
  {}

  lemma WordsStep(s: string, w: string, rest: string)
    requires w == Word(s) && rest == TrimStart(s[|w|..])
    ensures Words(s) == if rest == "" || |w| == |s| then [w] else [w] + Words(rest)
  {}

  lemma WordsHead(s: string)
    ensures Words(s) != [] && Words(s)[0] == Word(s)
  {}


  lemma FiveFields()
    ensures |FIELD_SPECS| == 5
  {}

  /** A five-field schedule starts with a field, whitespace, and another field. */
  lemma FirstTwoFields(s: string, croner: Croner) returns (w: string, gap: string)
    requires Trimmed(s) && ScheduleOk(s, croner) && s[0] != '@'
    ensures s == w + gap && w != "" && AllFieldChars(w) && gap != "" && IsSpace(gap[0])
    ensures TrimStart(gap) != "" && IsFieldChar(TrimStart(gap)[0])
  {
    TrimOfTrimmed(s);
    FiveFields();
    TwoFields(Words(s));
    w, gap := SplitAtWord(s, Words(s));
  }

  lemma TwoFields(words: seq<string>)
    requires FieldsOk(words) && |words| >= 2
    ensures words[0] != "" && AllFieldChars(words[0]) && words[1] != "" && IsFieldChar(words[1][0])
  {
    FieldsChars(words, 0);
    FieldsChars(words, 1);
  }

  lemma SplitAtWord(s: string, words: seq<string>) returns (w: string, gap: string)
    requires words == Words(s) && |words| >= 2
    requires words[0] != "" && AllFieldChars(words[0]) && words[1] != "" && IsFieldChar(words[1][0])
    ensures s == w + gap && w != "" && AllFieldChars(w) && gap != "" && IsSpace(gap[0])
    ensures TrimStart(gap) != "" && IsFieldChar(TrimStart(gap)[0])
  {
    FirstTwoWords(s, words);
    w, gap := Word(s), s[|Word(s)|..];
    HeadOfWord(TrimStart(gap));
  }

  lemma HeadOfWord(s: string)
    ensures Word(s) != "" ==> Word(s)[0] == s[0]
  {}

  // ---- The validator as a value ----------------------------------------------------------------

  type Validator = string -> bool

  function Accepts(croner: Croner): Validator {
    s => ScheduleOk(s, croner)
  }

  /** A validator that accepts no more than the nicknames and the five-field syntax. */
  ghost predicate Strict(valid: Validator) {
    forall s :: valid(s) ==> ScheduleOk(s, _ => true)
  }

  lemma AcceptsIsStrict(croner: Croner)
    ensures Strict(Accepts(croner))
  {}
}
