/** One line of a crontab: an entry, a disabled entry, an environment setting, a comment, a
    blank line, or something cron would refuse. */
module CronLines {
  import opened Options
  import opened Text
  import opened CronSchedule

  const DISABLED_PREFIX := "#rackmap:disabled "

  /** A user's crontab, or one of the system files that name the user before the command. */
  datatype Kind = UserTab | SystemTab

  datatype Fields = Fields(schedule: string, user: Option<string>, command: string)

  function KindOf(f: Fields): Kind {
    if f.user.Some? then SystemTab else UserTab
  }

  // ---- Tokens -----------------------------------------------------------------------------

  function SkipBlanks(s: string): (r: string)
    ensures |r| <= |s| && r == s[|s| - |r|..]
    ensures r == "" || !IsBlank(r[0])
  {
    if s != "" && IsBlank(s[0]) then SkipBlanks(s[1..]) else s
  }

  /** The leading run of characters that are not blanks. */
  function Token(s: string): (t: string)
    ensures |t| <= |s| && t == s[..|t|]
    ensures s != "" && !IsBlank(s[0]) ==> t != ""
  {
    if s == "" || IsBlank(s[0]) then "" else [s[0]] + Token(s[1..])
  }

  /** The next token and what follows it. */
  function Next(s: string): (r: Option<(string, string)>)
    ensures r.Some? ==> r.value.0 != "" && |r.value.1| < |s|
  {
    var rest := SkipBlanks(s);
    if rest == "" then None else Some((Token(rest), rest[|Token(rest)|..]))
  }

  /** `n` tokens, each written after a space, and what follows them. */
  function Take(n: nat, s: string): Option<(string, string)> {
    if n == 0 then Some(("", s))
    else
      match Take(n - 1, s)
      case None => None
      case Some((done, rest)) =>
        match Next(rest)
        case None => None
        case Some((token, after)) => Some((done + " " + token, after))
  }

  predicate IsUserName(s: string) {
    && 1 <= |s| <= 32
    && IsNameStart(s[0])
    && (forall i :: 1 <= i < |s| - 1 ==> IsNameStart(s[i]) || s[i] == '-')
    && (|s| > 1 ==> IsNameStart(s[|s| - 1]) || s[|s| - 1] == '-' || s[|s| - 1] == '$')
  }

  predicate IsNameStart(c: char) {
    IsDigit(c) || IsLetter(c) || c == '_' || c == '.'
  }

  predicate StartsEntry(c: char) {
    IsDigit(c) || c == '*' || c == '@'
  }

  /** The schedule an entry starts with, and what follows it. */
  function ScheduleOf(text: string): Option<(string, string)> {
    match Next(text)
    case None => None
    case Some((first, rest)) =>
      if !StartsEntry(first[0]) then None
      else if first[0] == '@' then Some((first, rest))
      else
        match Take(4, rest)
        case None => None
        case Some((more, after)) => Some((first + more, after))
  }

  /** The user and the command after the schedule. */
  function UserAndCommand(rest: string, kind: Kind): Option<(Option<string>, string)> {
    if kind == UserTab then Some((None, SkipBlanks(rest)))
    else
      match Next(rest)
      case None => None
      case Some((user, after)) => if IsUserName(user) then Some((Some(user), SkipBlanks(after))) else None
  }

  function Completed(schedule: string, uc: Option<(Option<string>, string)>): Option<Fields> {
    match uc
    case None => None
    case Some((user, command)) => if Trim(command) == "" then None else Some(Fields(schedule, user, command))
  }

  function ParseEntry(text: string, kind: Kind, valid: Validator): Option<Fields> {
    match ScheduleOf(text)
    case None => None
    case Some((schedule, rest)) =>
      if !valid(schedule) then None else Completed(schedule, UserAndCommand(rest, kind))
  }

  // ---- Environment settings ---------------------------------------------------------------

  predicate IsNameChar(c: char) {
    !IsSpace(c) && c != '=' && c != '"' && c != '\''
  }

  function NameRun(s: string): (r: string)
    ensures |r| <= |s| && r == s[..|r|]
    ensures |r| < |s| ==> !IsNameChar(s[|r|])
  {
    if s == "" || !IsNameChar(s[0]) then "" else [s[0]] + NameRun(s[1..])
  }

  /** The name at the start of `s`, quoted or not, and what follows it. */
  function EnvName(s: string): (r: Option<(string, string)>)
    ensures r.Some? ==> |r.value.1| < |s|
  {
    if s == "" then None
    else if s[0] == '"' || s[0] == '\'' then
      var (name, after) := CutAt(s[1..], s[0]);
      if after.Some? then Some((name, after.value)) else None
    else
      var name := NameRun(s);
      if name == "" then None else Some((name, s[|name|..]))
  }

  /** What `.` does not match. */
  predicate IsLineEnd(c: char) {
    c == '\n' || c == '\r' || c == '\U{2028}' || c == '\U{2029}'
  }

  predicate OneLine(s: string) {
    forall i :: 0 <= i < |s| ==> !IsLineEnd(s[i])
  }

  /** `=` and a value to the end of the line, after whitespace. */
  function EnvValue(s: string): Option<string> {
    var rest := TrimStart(s);
    if rest != "" && rest[0] == '=' && OneLine(rest[1..]) then Some(rest[1..]) else None
  }

  /** `NAME=value`, `NAME = value`, `"NAME"=value`: the name and the value as written. */
  function EnvOf(raw: string): Option<(string, string)> {
    match EnvName(TrimStart(raw))
    case None => None
    case Some((name, after)) =>
      match EnvValue(after)
      case None => None
      case Some(value) => Some((name, value))
  }

  function Unquote(value: string): string {
    var t := Trim(value);
    if |t| >= 2 && t[0] == t[|t| - 1] && (t[0] == '"' || t[0] == '\'') then t[1..|t| - 1] else t
  }

  // ---- Lines --------------------------------------------------------------------------------

  /** What one line is, before any label above it is looked at. */
  datatype Content =
    | Job(fields: Fields, disabled: bool)
    | Setting(name: string, value: string)
    | Comment
    | Blank
    | Invalid

  /** The entry text of a line that may be a disabled entry. */
  function Enabled(raw: string): string {
    if StartsWith(raw, DISABLED_PREFIX) then raw[|DISABLED_PREFIX|..] else raw
  }

  predicate IsComment(raw: string) {
    TrimStart(raw) != "" && TrimStart(raw)[0] == '#'
  }

  /** What a line is: each question is asked only if the ones before it said no. */
  function Classify(blank: bool, off: bool, comment: bool, cr: bool, setting: Option<(string, string)>, entry: Option<Fields>): Content {
    if blank then Blank
    else if off then (if entry.Some? then Job(entry.value, true) else Comment)
    else if comment then Comment
    else if cr then Invalid
    else if setting.Some? then Setting(setting.value.0, Unquote(setting.value.1))
    else if entry.Some? then Job(entry.value, false)
    else Invalid
  }

  function ParseLine(raw: string, kind: Kind, valid: Validator): Content {
    Classify(Trim(raw) == "", StartsWith(raw, DISABLED_PREFIX), IsComment(raw), EndsWith(raw, "\r"), EnvOf(raw),
             ParseEntry(Enabled(raw), kind, valid))
  }

  function FormatFields(f: Fields): string {
    Trim(f.schedule) + " " + (if f.user.Some? then f.user.value + " " else "") + f.command
  }

  function FormatEntry(f: Fields, disabled: bool): string {
    if disabled then DISABLED_PREFIX + FormatFields(f) else FormatFields(f)
  }

  // ---- The loops -----------------------------------------------------------------------------

  lemma SkipStep(s: string, i: nat)
    requires i < |s| && IsBlank(s[i])
    ensures SkipBlanks(s[i..]) == SkipBlanks(s[i + 1..])
  {
    assert s[i..][1..] == s[i + 1..];
  }

  lemma SkipDone(s: string, i: nat)
    requires i <= |s| && (i < |s| ==> !IsBlank(s[i]))
    ensures SkipBlanks(s[i..]) == s[i..]
  {}

  lemma TokenStep(s: string, j: nat)
    requires j < |s|
    ensures Token(s[j..]) == if IsBlank(s[j]) then "" else [s[j]] + Token(s[j + 1..])
  {
    assert s[j..][1..] == s[j + 1..];
  }

  /** Skip blanks. */
  method SkipTo(s: string, pos: nat) returns (i: nat)
    requires pos <= |s|
    ensures pos <= i <= |s| && s[i..] == SkipBlanks(s[pos..])
  {
    i := pos;
    while i < |s| && IsBlank(s[i])
      invariant pos <= i <= |s| && SkipBlanks(s[pos..]) == SkipBlanks(s[i..])
    {
      SkipStep(s, i);
      i := i + 1;
    }
    SkipDone(s, i);
  }

  lemma RunStep(s: string, pos: nat, j: nat)
    requires pos <= j < |s| && !IsBlank(s[j])
    ensures s[pos..j] + Token(s[j..]) == s[pos..j + 1] + Token(s[j + 1..])
  {
    TokenStep(s, j);
    Regroup(s[pos..j], [s[j]], Token(s[j + 1..]));
    assert s[pos..j] + [s[j]] == s[pos..j + 1];
  }

  /** Run to the next blank. */
  method RunTo(s: string, pos: nat) returns (j: nat)
    requires pos <= |s|
    ensures pos <= j <= |s| && s[pos..j] == Token(s[pos..])
  {
    j := pos;
    while j < |s| && !IsBlank(s[j])
      invariant pos <= j <= |s| && Token(s[pos..]) == s[pos..j] + Token(s[j..])
    {
      RunStep(s, pos, j);
      j := j + 1;
    }
    if j < |s| { TokenStep(s, j); }
  }

  lemma NextIs(s: string, rest: string, token: string)
    requires rest == SkipBlanks(s) && rest != "" && token == Token(rest)
    ensures Next(s) == Some((token, rest[|token|..]))
  {}

  lemma NextFound(s: string, from: string, i: nat, rest: string, j: nat)
    requires i < j <= |s| && rest == s[i..] && rest == SkipBlanks(from) && s[i..j] == Token(rest)
    ensures Next(from) == Some((s[i..j], s[j..]))
  {
    NextIs(from, rest, s[i..j]);
    DropMore(s, i, rest, j);
  }

  lemma DropMore(s: string, i: nat, rest: string, j: nat)
    requires i <= j <= |s| && rest == s[i..]
    ensures rest[j - i..] == s[j..]
  {}

  /** The next token and where it ends. */
  method NextToken(s: string, pos: nat) returns (token: Option<(string, nat)>)
    requires pos <= |s|
    ensures token.None? <==> Next(s[pos..]).None?
    ensures token.Some? ==> pos <= token.value.1 <= |s| && Next(s[pos..]) == Some((token.value.0, s[token.value.1..]))
  {
    var i := SkipTo(s, pos);
    if i >= |s| { return None; }
    var j := RunTo(s, i);
    NextFound(s, s[pos..], i, s[i..], j);
    return Some((s[i..j], j));
  }

  /** Four more fields after the first, and where they end. */
  method MoreFields(text: string, start: nat) returns (r: Option<(string, nat)>)
    requires start <= |text|
    ensures r.None? <==> Take(4, text[start..]).None?
    ensures r.Some? ==> start <= r.value.1 <= |text| && Take(4, text[start..]) == Some((r.value.0, text[r.value.1..]))
  {
    var pos, parts, fields := start, 0, "";
    while parts < 4
      invariant parts <= 4 && start <= pos <= |text|
      invariant Take(parts, text[start..]) == Some((fields, text[pos..]))
    {
      var t := NextToken(text, pos);
      if t.None? {
        TakeFails(parts + 1, 4, text[start..]);
        return None;
      }
      fields := fields + " " + t.value.0;
      pos := t.value.1;
      parts := parts + 1;
    }
    return Some((fields, pos));
  }

  lemma {:induction false} TakeFails(n: nat, m: nat, s: string)
    requires n <= m && Take(n, s).None?
    ensures Take(m, s).None?
  {
    if n < m { TakeFails(n, m - 1, s); }
  }

  method ParseSchedule(text: string) returns (r: Option<(string, nat)>)
    ensures r.None? <==> ScheduleOf(text).None?
    ensures r.Some? ==> r.value.1 <= |text| && ScheduleOf(text) == Some((r.value.0, text[r.value.1..]))
  {
    assert text[0..] == text;
    var first := NextToken(text, 0);
    if first.None? || !StartsEntry(first.value.0[0]) { return None; }
    if first.value.0[0] == '@' { return first; }
    var more := MoreFields(text, first.value.1);
    if more.None? { return None; }
    return Some((first.value.0 + more.value.0, more.value.1));
  }

  method ParseUserAndCommand(text: string, start: nat, kind: Kind) returns (r: Option<(Option<string>, string)>)
    requires start <= |text|
    ensures r == UserAndCommand(text[start..], kind)
  {
    var pos := start;
    var user: Option<string> := None;
    if kind == SystemTab {
      var u := NextToken(text, pos);
      if u.None? || !IsUserName(u.value.0) { return None; }
      user := Some(u.value.0);
      pos := u.value.1;
    }
    var at := SkipTo(text, pos);
    return Some((user, text[at..]));
  }

  lemma ParseEntrySteps(text: string, kind: Kind, valid: Validator)
    ensures ParseEntry(text, kind, valid) ==
      (if ScheduleOf(text).None? || !valid(ScheduleOf(text).value.0) then None
       else Completed(ScheduleOf(text).value.0, UserAndCommand(ScheduleOf(text).value.1, kind)))
  {}

  method ParseEntryText(text: string, kind: Kind, valid: Validator) returns (r: Option<Fields>)
    ensures r == ParseEntry(text, kind, valid)
  {
    ParseEntrySteps(text, kind, valid);
    var s := ParseSchedule(text);
    if s.None? || !valid(s.value.0) { return None; }
    var uc := ParseUserAndCommand(text, s.value.1, kind);
    if uc.None? || Trim(uc.value.1) == "" { return None; }
    return Some(Fields(s.value.0, uc.value.0, uc.value.1));
  }
}
