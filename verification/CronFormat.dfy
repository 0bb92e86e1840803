/** An entry rendered from its fields, read back. */
module CronFormat {
  import opened Options
  import opened Text
  import opened CronSchedule
  import opened CronLines

  /** The schedule's tokens, one space between them, and no more. */
  predicate IsNormal(schedule: string) {
    schedule != "" && Trimmed(schedule) && ScheduleOf(schedule) == Some((schedule, ""))
  }

  predicate UserFits(user: Option<string>, kind: Kind) {
    if kind == UserTab then user.None? else user.Some? && IsUserName(user.value)
  }

  predicate IsCommand(command: string) {
    command != "" && !IsBlank(command[0]) && Trim(command) != ""
  }

  /** Fields as an editor accepts them. */
  predicate Plausible(f: Fields, kind: Kind, valid: Validator) {
    && IsNormal(f.schedule) && valid(f.schedule)
    && UserFits(f.user, kind)
    && IsCommand(f.command)
  }

  /** `@nickname =...`, which cron takes for an environment setting. */
  predicate ReadsAsSetting(f: Fields) {
    f.user.None? && f.schedule != "" && f.schedule[0] == '@' && EnvValue(f.command).Some?
  }

  predicate WellFormed(f: Fields, disabled: bool, kind: Kind, valid: Validator) {
    && Plausible(f, kind, valid)
    && (disabled || (!EndsWith(f.command, "\r") && !ReadsAsSetting(f)))
    && '\n' !in f.schedule && '\n' !in f.command
  }

  // ---- Tokens of a concatenation ---------------------------------------------------------

  predicate Ends(tail: string) {
    tail == "" || IsBlank(tail[0])
  }

  lemma {:induction false} SkipExtends(s: string, tail: string)
    requires SkipBlanks(s) != ""
    ensures SkipBlanks(s + tail) == SkipBlanks(s) + tail
  {
    var longer := s + tail;
    assert longer[0] == s[0];
    if IsBlank(s[0]) {
      assert longer[1..] == s[1..] + tail;
      SkipExtends(s[1..], tail);
    }
  }

  lemma {:induction false} TokenExtends(s: string, tail: string)
    requires Ends(tail)
    ensures Token(s + tail) == Token(s)
  {
    if s == "" {
      assert s + tail == tail;
    } else if !IsBlank(s[0]) {
      assert (s + tail)[1..] == s[1..] + tail;
      TokenExtends(s[1..], tail);
    }
  }

  lemma NextExtends(s: string, tail: string)
    requires Next(s).Some? && Ends(tail)
    ensures Next(s + tail) == Some((Next(s).value.0, Next(s).value.1 + tail))
  {
    var rest := SkipBlanks(s);
    SkipExtends(s, tail);
    TokenExtends(rest, tail);
    NextIs(s + tail, rest + tail, Token(rest));
    DropOfAppend(rest, tail, |Token(rest)|);
  }

  lemma DropOfAppend(s: string, tail: string, n: nat)
    requires n <= |s|
    ensures (s + tail)[n..] == s[n..] + tail
  {}

  lemma TakeStep(n: nat, s: string, done: string, rest: string)
    requires n > 0 && Take(n - 1, s) == Some((done, rest)) && Next(rest).Some?
    ensures Take(n, s) == Some((done + " " + Next(rest).value.0, Next(rest).value.1))
  {}

  lemma {:induction false} TakeExtends(n: nat, s: string, tail: string)
    requires Take(n, s).Some? && Ends(tail)
    ensures Take(n, s + tail) == Some((Take(n, s).value.0, Take(n, s).value.1 + tail))
  {
    if n > 0 {
      TakeExtends(n - 1, s, tail);
      var (done, rest) := Take(n - 1, s).value;
      NextExtends(rest, tail);
      TakeStep(n, s + tail, done, rest + tail);
    }
  }

  lemma ScheduleFromNext(s: string, first: string, rest: string)
    requires Next(s) == Some((first, rest))
    ensures ScheduleOf(s) ==
      (if !StartsEntry(first[0]) then None
       else if first[0] == '@' then Some((first, rest))
       else if Take(4, rest).None? then None
       else Some((first + Take(4, rest).value.0, Take(4, rest).value.1)))
  {}

  lemma ScheduleExtends(s: string, tail: string)
    requires ScheduleOf(s).Some? && Ends(tail)
    ensures ScheduleOf(s + tail) == Some((ScheduleOf(s).value.0, ScheduleOf(s).value.1 + tail))
  {
    NextExtends(s, tail);
    var (first, rest) := Next(s).value;
    ScheduleFromNext(s, first, rest);
    ScheduleFromNext(s + tail, first, rest + tail);
    if first[0] != '@' { TakeExtends(4, rest, tail); }
  }

  lemma {:induction false} TokenOfWord(word: string, tail: string)
    requires (forall i :: 0 <= i < |word| ==> !IsBlank(word[i])) && Ends(tail)
    ensures Token(word + tail) == word
  {
    if word == "" {
      assert word + tail == tail;
    } else {
      assert (word + tail)[1..] == word[1..] + tail;
      TokenOfWord(word[1..], tail);
    }
  }

  lemma SkipOne(s: string)
    requires s != "" && !IsBlank(s[0])
    ensures SkipBlanks(" " + s) == s
  {
    assert (" " + s)[1..] == s;
  }

  lemma NextOfWord(word: string, tail: string)
    requires word != "" && (forall i :: 0 <= i < |word| ==> !IsBlank(word[i])) && Ends(tail)
    ensures Next(" " + word + tail) == Some((word, tail))
  {
    var s := word + tail;
    assert " " + word + tail == " " + s;
    SkipOne(s);
    TokenOfWord(word, tail);
    assert s[|word|..] == tail;
    NextIs(" " + s, s, word);
  }

  lemma UserNameChars(user: string)
    requires IsUserName(user)
    ensures forall i :: 0 <= i < |user| ==> !IsBlank(user[i]) && !IsSpace(user[i]) && user[i] != '=' && user[i] != '\n'
  {}

  // ---- Reading the fields back ---------------------------------------------------------------

  function UserText(user: Option<string>): string {
    if user.Some? then user.value + " " else ""
  }

  lemma CommandReadBack(command: string)
    requires command != "" && !IsBlank(command[0])
    ensures UserAndCommand(" " + command, UserTab) == Some((None, command))
  {
    SkipOne(command);
  }

  lemma UserAndCommandReadBack(user: Option<string>, command: string, kind: Kind)
    requires UserFits(user, kind) && command != "" && !IsBlank(command[0])
    ensures UserAndCommand(" " + (UserText(user) + command), kind) == Some((user, command))
  {
    if kind == UserTab {
      assert UserText(user) + command == command;
      CommandReadBack(command);
    } else {
      assert " " + (UserText(user) + command) == " " + user.value + (" " + command);
      SkipOne(command);
      UserNameChars(user.value);
      NextOfWord(user.value, " " + command);
    }
  }

  lemma Rejoined(a: string, b: string, c: string)
    ensures a + " " + b + c == a + (" " + (b + c))
  {}

  lemma TextOf(f: Fields)
    requires Trimmed(f.schedule)
    ensures FormatFields(f) == f.schedule + Tail(f)
  {
    var trimmed := Trim(f.schedule);
    assert trimmed == f.schedule by { TrimOfTrimmed(f.schedule); }
    Rejoined(trimmed, UserText(f.user), f.command);
  }

  /** What follows the schedule. */
  function Tail(f: Fields): string {
    " " + (UserText(f.user) + f.command)
  }

  lemma ParseFromParts(text: string, schedule: string, rest: string, user: Option<string>, command: string, kind: Kind, valid: Validator)
    requires ScheduleOf(text) == Some((schedule, rest)) && valid(schedule)
    requires UserAndCommand(rest, kind) == Some((user, command)) && Trim(command) != ""
    ensures ParseEntry(text, kind, valid) == Some(Fields(schedule, user, command))
  {}

  lemma ScheduleReadBack(schedule: string, tail: string)
    requires ScheduleOf(schedule) == Some((schedule, "")) && Ends(tail)
    ensures ScheduleOf(schedule + tail) == Some((schedule, tail))
  {
    ScheduleExtends(schedule, tail);
    EmptyPlus(tail);
  }

  lemma EmptyPlus(s: string)
    ensures "" + s == s
  {}

  lemma FieldsReadBack(f: Fields, kind: Kind, valid: Validator)
    requires Plausible(f, kind, valid)
    ensures ParseEntry(FormatFields(f), kind, valid) == Some(f)
  {
    TextOf(f);
    ScheduleReadBack(f.schedule, Tail(f));
    UserAndCommandReadBack(f.user, f.command, kind);
    ParseFromParts(f.schedule + Tail(f), f.schedule, Tail(f), f.user, f.command, kind, valid);
  }

  lemma {:induction false} TrimEndKeepsHead(s: string)
    requires s != "" && !IsSpace(s[0])
    ensures TrimEnd(s) != ""
  {
    if IsSpace(s[|s| - 1]) { TrimEndKeepsHead(s[..|s| - 1]); }
  }

  lemma TrimKeepsHead(s: string)
    requires s != "" && !IsSpace(s[0])
    ensures Trim(s) != "" && TrimStart(s) == s
  {
    TrimEndKeepsHead(s);
  }

  // ---- When a rendered entry reads as a setting ----------------------------------------------

  lemma {:induction false} NameRunOf(word: string, tail: string)
    requires (forall i :: 0 <= i < |word| ==> IsNameChar(word[i])) && (tail == "" || !IsNameChar(tail[0]))
    ensures NameRun(word + tail) == word
  {
    if word == "" {
      assert word + tail == tail;
    } else {
      assert (word + tail)[1..] == word[1..] + tail;
      NameRunOf(word[1..], tail);
    }
  }

  lemma {:induction false} TrimStartExtends(s: string, tail: string)
    requires TrimStart(s) != ""
    ensures TrimStart(s + tail) == TrimStart(s) + tail
  {
    var longer := s + tail;
    assert longer[0] == s[0];
    if IsSpace(s[0]) {
      assert longer[1..] == s[1..] + tail;
      TrimStartExtends(s[1..], tail);
    }
  }

  /** A name, then something that is not a name character. */
  lemma EnvOfWord(s: string, word: string, tail: string)
    requires s == word + tail
    requires word != "" && (forall i :: 0 <= i < |word| ==> IsNameChar(word[i])) && (tail == "" || !IsNameChar(tail[0]))
    ensures EnvOf(s).Some? <==> EnvValue(tail).Some?
  {
    EnvNameOfWord(s, word, tail);
    EnvFromName(s, word, tail);
  }

  lemma EnvNameOfWord(s: string, word: string, tail: string)
    requires s == word + tail
    requires word != "" && (forall i :: 0 <= i < |word| ==> IsNameChar(word[i])) && (tail == "" || !IsNameChar(tail[0]))
    ensures TrimStart(s) == s && EnvName(s) == Some((word, tail))
  {
    assert s[0] == word[0];
    NameRunOf(word, tail);
    assert s[|word|..] == tail;
  }

  lemma EnvFromName(s: string, name: string, after: string)
    requires TrimStart(s) == s && EnvName(s) == Some((name, after))
    ensures EnvOf(s).Some? <==> EnvValue(after).Some?
  {}

  lemma NicknameChars(s: string)
    requires s in NICKNAMES
    ensures s != "" && forall i :: 0 <= i < |s| ==> IsNameChar(s[i])
  {
    var k :| 0 <= k < |NICKNAMES| && NICKNAMES[k] == s;
    if k == 0 { assert s == "@reboot"; }
    else if k == 1 { assert s == "@yearly"; }
    else if k == 2 { assert s == "@annually"; }
    else if k == 3 { assert s == "@monthly"; }
    else if k == 4 { assert s == "@weekly"; }
    else if k == 5 { assert s == "@daily"; }
    else if k == 6 { assert s == "@midnight"; }
    else { assert s == "@hourly"; }
  }

  lemma EnvAfterSpace(s: string)
    ensures EnvValue(" " + s) == EnvValue(s)
  {
    assert (" " + s)[1..] == s;
  }

  lemma NoSettingAfterUser(user: string, rest: string)
    requires IsUserName(user)
    ensures EnvValue(" " + (user + rest)).None?
  {
    EnvAfterSpace(user + rest);
    UserNameChars(user);
    assert (user + rest)[0] == user[0];
  }

  lemma TailSetting(f: Fields, kind: Kind)
    requires UserFits(f.user, kind)
    ensures EnvValue(Tail(f)).Some? <==> f.user.None? && EnvValue(f.command).Some?
  {
    if f.user.Some? {
      assert UserText(f.user) + f.command == f.user.value + (" " + f.command);
      NoSettingAfterUser(f.user.value, " " + f.command);
    } else {
      assert UserText(f.user) + f.command == f.command;
      EnvAfterSpace(f.command);
    }
  }

  lemma NicknameSetting(f: Fields, kind: Kind)
    requires f.schedule in NICKNAMES && UserFits(f.user, kind)
    ensures EnvOf(f.schedule + Tail(f)).Some? <==> f.user.None? && EnvValue(f.command).Some?
  {
    TailSetting(f, kind);
    WordThenTail(f.schedule, Tail(f));
  }

  lemma WordThenTail(schedule: string, tail: string)
    requires schedule in NICKNAMES && tail != "" && tail[0] == ' '
    ensures EnvOf(schedule + tail).Some? <==> EnvValue(tail).Some?
  {
    NicknameChars(schedule);
    EnvOfWord(schedule + tail, schedule, tail);
  }

  lemma FieldCharsAreNameChars(w: string)
    requires AllFieldChars(w)
    ensures forall i :: 0 <= i < |w| ==> IsNameChar(w[i])
  {}

  lemma NoSettingInFields(s: string, w: string, gap: string, tail: string)
    requires s == w + (gap + tail)
    requires w != "" && AllFieldChars(w) && gap != "" && IsSpace(gap[0])
    requires TrimStart(gap) != "" && IsFieldChar(TrimStart(gap)[0])
    ensures EnvOf(s).None?
  {
    FieldCharsAreNameChars(w);
    assert (gap + tail)[0] == gap[0];
    EnvOfWord(s, w, gap + tail);
    NoValueAfterGap(gap, tail);
  }

  lemma NoValueAfterGap(gap: string, tail: string)
    requires TrimStart(gap) != "" && TrimStart(gap)[0] != '='
    ensures EnvValue(gap + tail).None?
  {
    TrimStartExtends(gap, tail);
    assert TrimStart(gap + tail)[0] == TrimStart(gap)[0];
  }

  lemma RegroupFields(s: string, schedule: string, tail: string, w: string, gap: string)
    requires s == schedule + tail && schedule == w + gap
    ensures s == w + (gap + tail)
  {}

  lemma FiveFieldSetting(s: string, schedule: string, tail: string, croner: Croner)
    requires s == schedule + tail
    requires Trimmed(schedule) && ScheduleOk(schedule, croner) && schedule[0] != '@'
    ensures EnvOf(s).None?
  {
    var w, gap := FirstTwoFields(schedule, croner);
    RegroupFields(s, schedule, tail, w, gap);
    NoSettingInFields(s, w, gap, tail);
  }

  lemma NicknameOk(schedule: string, croner: Croner)
    requires Trimmed(schedule) && ScheduleOk(schedule, croner)
    ensures schedule != "" && (schedule[0] == '@' ==> schedule in NICKNAMES)
  {
    TrimOfTrimmed(schedule);
  }

  lemma SettingIff(f: Fields, kind: Kind, croner: Croner)
    requires Trimmed(f.schedule) && ScheduleOk(f.schedule, croner) && UserFits(f.user, kind)
    ensures EnvOf(f.schedule + Tail(f)).Some? <==> ReadsAsSetting(f)
  {
    NicknameOk(f.schedule, croner);
    if f.schedule[0] == '@' {
      NicknameSetting(f, kind);
    } else {
      FiveFieldSetting(f.schedule + Tail(f), f.schedule, Tail(f), croner);
    }
  }

  // ---- The round trip of one entry --------------------------------------------------------------

  lemma NormalStartsEntry(schedule: string)
    requires schedule != "" && ScheduleOf(schedule) == Some((schedule, ""))
    ensures StartsEntry(schedule[0])
  {}

  lemma EnabledLine(schedule: string, tail: string)
    requires schedule != "" && StartsEntry(schedule[0])
    ensures var text := schedule + tail;
      && Trim(text) != "" && !StartsWith(text, DISABLED_PREFIX)
      && TrimStart(text) == text && text != "" && text[0] != '#'
  {
    var text := schedule + tail;
    assert text[0] == schedule[0];
    TrimKeepsHead(text);
    assert DISABLED_PREFIX[0] == '#';
  }

  lemma EndsAlike(f: Fields)
    requires f.command != ""
    ensures EndsWith(f.schedule + Tail(f), "\r") <==> EndsWith(f.command, "\r")
  {
    var text := f.schedule + Tail(f);
    assert text[|text| - 1] == f.command[|f.command| - 1];
  }

  lemma ClassifiedEntry(blank: bool, off: bool, comment: bool, cr: bool, setting: Option<(string, string)>, entry: Option<Fields>)
    requires !blank && !off && !comment && entry.Some?
    ensures Classify(blank, off, comment, cr, setting, entry) == Job(entry.value, false) <==> !cr && setting.None?
  {}

  lemma DisabledLine(text: string)
    ensures var line := DISABLED_PREFIX + text;
      Trim(line) != "" && StartsWith(line, DISABLED_PREFIX) && line[|DISABLED_PREFIX|..] == text
  {
    var line := DISABLED_PREFIX + text;
    assert line[0] == '#';
    TrimKeepsHead(line);
  }

  /** A plausible entry that is rendered reads back as itself exactly when it is disabled, or
      neither ends in a carriage return nor reads as an environment setting. */
  lemma EntryReadsBackIff(f: Fields, disabled: bool, kind: Kind, valid: Validator)
    requires Strict(valid) && Plausible(f, kind, valid)
    ensures ParseLine(FormatEntry(f, disabled), kind, valid) == Job(f, disabled)
      <==> disabled || (!EndsWith(f.command, "\r") && !ReadsAsSetting(f))
  {
    FieldsReadBack(f, kind, valid);
    if disabled {
      DisabledLine(FormatFields(f));
    } else {
      TextOf(f);
      NormalStartsEntry(f.schedule);
      EnabledLine(f.schedule, Tail(f));
      EndsAlike(f);
      SettingIff(f, kind, _ => true);
      var text := f.schedule + Tail(f);
      ClassifiedEntry(Trim(text) == "", StartsWith(text, DISABLED_PREFIX), IsComment(text), EndsWith(text, "\r"), EnvOf(text),
                      ParseEntry(Enabled(text), kind, valid));
    }
  }

  // ---- What a parsed entry's fields are like ------------------------------------------------------

  lemma {:induction false} TokenHasNoBlank(s: string)
    ensures forall i :: 0 <= i < |Token(s)| ==> !IsBlank(Token(s)[i])
  {
    if s != "" && !IsBlank(s[0]) { TokenHasNoBlank(s[1..]); }
  }

  lemma {:induction false} TokenEnds(s: string)
    ensures Ends(s[|Token(s)|..])
  {
    if s != "" && !IsBlank(s[0]) {
      TokenEnds(s[1..]);
      assert s[|Token(s)|..] == s[1..][|Token(s[1..])|..];
    }
  }

  lemma TokenSplits(s: string)
    ensures s == Token(s) + s[|Token(s)|..]
  {}

  predicate IsWord(s: string) {
    s != "" && forall i :: 0 <= i < |s| ==> !IsBlank(s[i])
  }

  lemma WordSplits(s: string, rest: string)
    requires rest == SkipBlanks(s) && rest != ""
    ensures IsWord(Token(rest)) && Ends(rest[|Token(rest)|..]) && rest == Token(rest) + rest[|Token(rest)|..]
  {
    TokenHasNoBlank(rest);
    TokenEnds(rest);
    TokenSplits(rest);
  }

  lemma NextToken(s: string)
    requires Next(s).Some?
    ensures var (token, rest) := Next(s).value;
      IsWord(token) && Ends(rest) && SkipBlanks(s) == token + rest
  {
    WordSplits(s, SkipBlanks(s));
  }

  lemma WordAfterSpace(token: string)
    requires IsWord(token)
    ensures Next(" " + token) == Some((token, ""))
  {
    NextOfWord(token, "");
    PlusEmpty(" " + token);
  }

  lemma TakeOneMore(n: nat, whole: string, done: string, tail: string, token: string)
    requires n > 0 && Take(n - 1, done) == Some((done, "")) && Next(tail) == Some((token, "")) && Ends(tail)
    requires whole == done + tail && whole == done + " " + token
    ensures Take(n, whole) == Some((whole, ""))
  {
    TakeThenTail(n - 1, whole, done, tail);
    TakeStepTo(n, whole, done, tail, token, "");
  }

  lemma TakeStepTo(n: nat, s: string, done: string, rest: string, token: string, after: string)
    requires n > 0 && Take(n - 1, s) == Some((done, rest)) && Next(rest) == Some((token, after))
    ensures Take(n, s) == Some((done + " " + token, after))
  {}

  lemma SpaceRegrouped(done: string, token: string)
    ensures done + " " + token == done + (" " + token)
  {}

  lemma TakeThenTail(n: nat, whole: string, done: string, tail: string)
    requires Take(n, done) == Some((done, "")) && Ends(tail) && whole == done + tail
    ensures Take(n, whole) == Some((done, tail))
  {
    TakeExtends(n, done, tail);
    EmptyPlus(tail);
  }

  /** The tokens taken, taken again. */
  lemma {:induction false} TakenAgain(n: nat, s: string)
    requires Take(n, s).Some?
    ensures Take(n, Take(n, s).value.0) == Some((Take(n, s).value.0, ""))
  {
    if n > 0 {
      var (done, rest) := Take(n - 1, s).value;
      TakenAgain(n - 1, s);
      NextToken(rest);
      TakenOnceMore(n, s, done, rest);
    }
  }

  lemma TakenOnceMore(n: nat, s: string, done: string, rest: string)
    requires n > 0 && Take(n - 1, s) == Some((done, rest)) && Next(rest).Some? && IsWord(Next(rest).value.0)
    requires Take(n - 1, done) == Some((done, ""))
    ensures Take(n, Take(n, s).value.0) == Some((Take(n, s).value.0, ""))
  {
    var token := Next(rest).value.0;
    TakeStep(n, s, done, rest);
    SpaceRegrouped(done, token);
    WordAfterSpace(token);
    TakeOneMore(n, done + (" " + token), done, " " + token, token);
  }

  lemma PlusEmpty(s: string)
    ensures s + "" == s
  {}

  lemma {:induction false} TakeStartsBlank(n: nat, s: string)
    requires Take(n, s).Some?
    ensures Ends(Take(n, s).value.0) && (n == 0 ==> Take(n, s).value.0 == "")
  {
    if n > 0 { TakeStartsBlank(n - 1, s); }
  }

  lemma NextOfToken(word: string, tail: string)
    requires IsWord(word) && Ends(tail)
    ensures Next(word + tail) == Some((word, tail))
  {
    var s := word + tail;
    assert s[0] == word[0];
    TokenOfWord(word, tail);
    assert s[|word|..] == tail;
    NextIs(s, s, word);
  }

  /** A schedule that was parsed is made of its tokens, one space apart. */
  lemma ParsedScheduleIsNormal(text: string)
    requires ScheduleOf(text).Some?
    ensures var s := ScheduleOf(text).value.0;
      s != "" && StartsEntry(s[0]) && ScheduleOf(s) == Some((s, ""))
  {
    var (first, rest) := Next(text).value;
    NextToken(text);
    ScheduleFromNext(text, first, rest);
    if first[0] == '@' {
      NextOfToken(first, "");
      PlusEmpty(first);
      ScheduleFromNext(first, first, "");
    } else {
      var more := Take(4, rest).value.0;
      TakenAgain(4, rest);
      TakeStartsBlank(4, rest);
      NextOfToken(first, more);
      ScheduleFromNext(first + more, first, more);
    }
  }

  // ---- What trimming does to a schedule ---------------------------------------------------

  function CountBlanks(s: string): nat {
    if s == "" then 0 else CountBlanks(s[..|s| - 1]) + (if s[|s| - 1] == ' ' then 1 else 0)
  }

  lemma {:induction false} CountAppend(a: string, b: string)
    ensures CountBlanks(a + b) == CountBlanks(a) + CountBlanks(b)
  {
    if b == "" {
      assert a + b == a;
    } else {
      assert (a + b)[..|a + b| - 1] == a + b[..|b| - 1];
      CountAppend(a, b[..|b| - 1]);
    }
  }

  lemma {:induction false} NoneCounted(s: string)
    ensures CountBlanks(s) == 0 <==> ' ' !in s
  {
    if s != "" {
      NoneCounted(s[..|s| - 1]);
      assert s == s[..|s| - 1] + [s[|s| - 1]];
    }
  }

  lemma WordHasNone(word: string)
    requires IsWord(word)
    ensures CountBlanks(word) == 0
  {
    NoneCounted(word);
  }

  /** `n` words, each after a blank. */
  ghost predicate Spaced(n: nat, fields: string) {
    if n == 0 then fields == ""
    else exists k :: 0 <= k < |fields| && fields[k] == ' ' && IsWord(fields[k + 1..]) && Spaced(n - 1, fields[..k])
  }

  lemma SpacedMore(n: nat, done: string, token: string, fields: string)
    requires n > 0 && Spaced(n - 1, done) && IsWord(token) && fields == done + " " + token
    ensures Spaced(n, fields)
  {
    var k := |done|;
    assert fields[k] == ' ' && fields[k + 1..] == token && fields[..k] == done;
  }

  lemma SpacedParts(n: nat, fields: string) returns (done: string, token: string)
    requires n > 0 && Spaced(n, fields)
    ensures Spaced(n - 1, done) && IsWord(token) && fields == done + " " + token
  {
    var k :| 0 <= k < |fields| && fields[k] == ' ' && IsWord(fields[k + 1..]) && Spaced(n - 1, fields[..k]);
    done, token := fields[..k], fields[k + 1..];
  }

  lemma TakeParts(n: nat, s: string, fields: string, rest: string) returns (before: string, left: string, token: string)
    requires n > 0 && Take(n, s) == Some((fields, rest))
    ensures Take(n - 1, s) == Some((before, left)) && Next(left) == Some((token, rest)) && fields == before + " " + token
  {
    before, left := Take(n - 1, s).value.0, Take(n - 1, s).value.1;
    token := Next(left).value.0;
  }

  /** That is what `Take` takes, */
  lemma {:induction false} TakeIsSpaced(n: nat, s: string)
    requires Take(n, s).Some?
    ensures Spaced(n, Take(n, s).value.0)
  {
    if n > 0 {
      TakeIsSpaced(n - 1, s);
      TakeMoreSpaced(n, s, Take(n, s).value.0, Take(n, s).value.1, Take(n - 1, s).value.0, Take(n - 1, s).value.1);
    }
  }

  lemma TakeMoreSpaced(n: nat, s: string, fields: string, rest: string, done: string, left: string)
    requires n > 0 && Take(n, s) == Some((fields, rest)) && Take(n - 1, s) == Some((done, left)) && Spaced(n - 1, done)
    ensures Spaced(n, fields)
  {
    var before, left', token := TakeParts(n, s, fields, rest);
    NextToken(left');
    SpacedMore(n, before, token, fields);
  }

  /** and it takes all of it. */
  lemma {:induction false} SpacedIsTaken(n: nat, fields: string)
    requires Spaced(n, fields)
    ensures Take(n, fields) == Some((fields, ""))
  {
    if n > 0 {
      var done, token := SpacedParts(n, fields);
      SpacedIsTaken(n - 1, done);
      Retaken(n, done, token, fields);
    }
  }

  lemma {:induction false} SpacedBlanks(n: nat, fields: string)
    requires Spaced(n, fields)
    ensures CountBlanks(fields) == n
  {
    if n > 0 {
      var done, token := SpacedParts(n, fields);
      SpacedBlanks(n - 1, done);
      OneMoreBlank(done, token, fields);
    }
  }

  lemma OneMoreBlank(done: string, token: string, fields: string)
    requires IsWord(token) && fields == done + " " + token
    ensures CountBlanks(fields) == CountBlanks(done) + 1
  {
    CountAppend(done + " ", token);
    CountAppend(done, " ");
    WordHasNone(token);
    assert " "[..0] == "";
  }

  /** How many words follow the first one of a schedule. */
  function MoreWords(first: string): nat
    requires first != ""
  {
    if first[0] == '@' then 0 else 4
  }

  /** A schedule is one word, a nickname, or a word and four more after blanks. */
  ghost predicate IsSchedule(s: string, first: string, more: string) {
    IsWord(first) && StartsEntry(first[0]) && s == first + more && Spaced(MoreWords(first), more)
  }

  lemma ScheduleParts(s: string) returns (first: string, more: string)
    requires ScheduleOf(s) == Some((s, ""))
    ensures IsSchedule(s, first, more)
  {
    first := Next(s).value.0;
    var rest := Next(s).value.1;
    NextToken(s);
    ScheduleFromNext(s, first, rest);
    if first[0] == '@' {
      more := "";
    } else {
      more := Take(4, rest).value.0;
      TakeIsSpaced(4, rest);
    }
  }

  lemma PartsAreSchedule(s: string, first: string, more: string)
    requires IsSchedule(s, first, more)
    ensures ScheduleOf(s) == Some((s, ""))
  {
    if first[0] == '@' {
      NextOfToken(first, "");
      PlusEmpty(first);
      ScheduleFromNext(s, first, "");
    } else {
      SpacedIsTaken(4, more);
      TakeStartsBlank(4, more);
      NextOfToken(first, more);
      ScheduleFromNext(s, first, more);
    }
  }

  lemma ScheduleBlanks(s: string, first: string, more: string)
    requires IsSchedule(s, first, more)
    ensures s != "" && s[0] == first[0] && CountBlanks(s) == MoreWords(s)
  {
    WordHasNone(first);
    SpacedBlanks(MoreWords(first), more);
    CountAppend(first, more);
  }

  /** What trimming takes off the end of a schedule. */
  function Removed(s: string): string {
    s[|s| - SpacesAtEnd(s)..]
  }

  lemma NotAllSpaces(s: string)
    requires s != "" && !IsSpace(s[0])
    ensures SpacesAtEnd(s) < |s| && !IsSpace(s[|s| - 1 - SpacesAtEnd(s)])
  {
    SpacesAtEndEnd(s);
    AllSpaces(s, SpacesAtEnd(s));
  }

  lemma TrimAtEnd(s: string, t: string, n: nat)
    requires s != "" && !IsSpace(s[0]) && n == SpacesAtEnd(s) && n < |s| && t == s[..|s| - n]
    ensures Trim(s) == t
  {
    assert Spaces(s) == 0 && s[0..] == s;
    assert TrimStart(s) == s;
  }

  lemma TrimmedOff(s: string)
    requires s != "" && StartsEntry(s[0])
    ensures s == Trim(s) + Removed(s) && Trim(s) != "" && Trim(s)[0] == s[0] && Trimmed(Trim(s))
  {
    var n := SpacesAtEnd(s);
    NotAllSpaces(s);
    TrimAtEnd(s, s[..|s| - n], n);
  }

  lemma {:induction false} AllSpaces(s: string, n: nat)
    requires n == SpacesAtEnd(s)
    ensures forall i :: |s| - n <= i < |s| ==> IsSpace(s[i])
  {
    if n > 0 { AllSpaces(s[..|s| - 1], n - 1); }
  }

  lemma Retaken(n: nat, done: string, token: string, whole: string)
    requires n > 0 && Take(n - 1, done) == Some((done, "")) && IsWord(token) && whole == done + " " + token
    ensures Take(n, whole) == Some((whole, ""))
  {
    SpaceRegrouped(done, token);
    WordAfterSpace(token);
    TakeOneMore(n, whole, done, " " + token, token);
  }

  /** Whitespace at the end that reaches beyond the last word takes the blank before it. */
  lemma BlankRemoved(before: string, word: string, s: string, n: nat)
    requires s == before + " " + word && n == SpacesAtEnd(s) && n >= |word|
    ensures ' ' in s[|s| - n..]
  {
    var k := |s| - |word| - 1;
    SpacesAtEndEnd(s);
    assert s[k] == ' ' && n != |word|;
    assert s[|s| - n..][n - |word| - 1] == s[k];
  }

  lemma ScheduleHasBlanks(s: string)
    requires ScheduleOf(s) == Some((s, ""))
    ensures s != "" && StartsEntry(s[0]) && CountBlanks(s) == MoreWords(s)
  {
    var first, more := ScheduleParts(s);
    ScheduleBlanks(s, first, more);
  }

  lemma SameBlanks(s: string, t: string, r: string)
    requires ScheduleOf(s) == Some((s, "")) && ScheduleOf(t) == Some((t, "")) && s == t + r
    ensures ' ' !in r
  {
    ScheduleHasBlanks(s);
    ScheduleHasBlanks(t);
    CountAppend(t, r);
    NoneCounted(r);
  }

  /** A parsed schedule is one still when trimmed, exactly when what is trimmed off has no blank, which
      is when its last token is not whitespace only. */
  lemma TrimKeepsScheduleIff(s: string)
    requires ScheduleOf(s) == Some((s, ""))
    ensures IsNormal(Trim(s)) <==> ' ' !in Removed(s)
  {
    ScheduleHasBlanks(s);
    TrimmedOff(s);
    if IsNormal(Trim(s)) { SameBlanks(s, Trim(s), Removed(s)); }
    if ' ' !in Removed(s) { TrimsToSchedule(s, Trim(s), SpacesAtEnd(s)); }
  }

  lemma TrimsToSchedule(s: string, t: string, n: nat)
    requires ScheduleOf(s) == Some((s, "")) && n == SpacesAtEnd(s) && s == t + s[|s| - n..] && ' ' !in s[|s| - n..]
    requires Trimmed(t) && t != ""
    ensures IsNormal(t)
  {
    var first, more := ScheduleParts(s);
    PartsTrim(s, t, n, first, more);
    TrimmedIsSchedule(t);
  }

  lemma TrimmedIsSchedule(t: string)
    requires Trimmed(t) && t != "" && exists first, more :: IsSchedule(t, first, more)
    ensures IsNormal(t)
  {
    var first, more :| IsSchedule(t, first, more);
    PartsAreSchedule(t, first, more);
  }

  /** A schedule without whitespace at its end, if its last word is more than that. */
  lemma PartsTrim(s: string, t: string, n: nat, first: string, more: string)
    requires IsSchedule(s, first, more) && n == SpacesAtEnd(s) && s == t + s[|s| - n..] && t != "" && ' ' !in s[|s| - n..]
    ensures exists first, more :: IsSchedule(t, first, more)
  {
    if first[0] == '@' {
      NicknameTrims(first, t, s[|s| - n..]);
    } else {
      var done, last := SpacedParts(MoreWords(first), more);
      ThreeParts(s, first, more, done, last);
      LastTrims(s, t, n, first, done, last, MoreWords(first));
    }
  }

  lemma NicknameTrims(s: string, t: string, r: string)
    requires IsWord(s) && StartsEntry(s[0]) && s[0] == '@' && s == t + r && t != ""
    ensures exists first, more :: IsSchedule(t, first, more)
  {
    assert t == s[..|t|];
    StartOfWord(s, t);
    PlusEmpty(t);
    assert IsSchedule(t, t, "");
  }

  lemma LastTrims(s: string, t: string, n: nat, first: string, done: string, last: string, count: nat)
    requires IsWord(first) && StartsEntry(first[0]) && first[0] != '@' && s == (first + done) + " " + last
    requires count == MoreWords(first) && count > 0 && Spaced(count - 1, done) && IsWord(last)
    requires n == SpacesAtEnd(s) && ' ' !in s[|s| - n..] && s == t + s[|s| - n..]
    ensures exists first, more :: IsSchedule(t, first, more)
  {
    var kept := LastKept(s, t, n, first + done, last);
    WordsRejoined(t, first, done, kept, done + " " + kept, count);
  }

  lemma LastKept(s: string, t: string, n: nat, before: string, last: string) returns (kept: string)
    requires s == before + " " + last && IsWord(last)
    requires n == SpacesAtEnd(s) && ' ' !in s[|s| - n..] && s == t + s[|s| - n..]
    ensures IsWord(kept) && t == before + " " + kept
  {
    if n >= |last| { BlankRemoved(before, last, s, n); }
    kept := last[..|last| - n];
    CutInLast(s, t, n, before, last, kept);
    StartOfWord(last, kept);
  }

  lemma WordsRejoined(t: string, first: string, done: string, kept: string, more: string, count: nat)
    requires IsWord(first) && StartsEntry(first[0]) && IsWord(kept) && t == (first + done) + " " + kept && more == done + " " + kept
    requires count == MoreWords(first) && count > 0 && Spaced(count - 1, done)
    ensures exists first, more :: IsSchedule(t, first, more)
  {
    SpacedMore(count, done, kept, more);
    assert t == first + more;
    assert IsSchedule(t, first, more);
  }

  lemma StartOfWord(s: string, t: string)
    requires IsWord(s) && t != "" && |t| <= |s| && t == s[..|t|]
    ensures IsWord(t) && t[0] == s[0]
  {
    assert forall i :: 0 <= i < |t| ==> t[i] == s[i];
  }

  lemma ThreeParts(s: string, first: string, more: string, done: string, last: string)
    requires s == first + more && more == done + " " + last
    ensures s == (first + done) + " " + last
  {}

  lemma CutInLast(s: string, t: string, n: nat, before: string, last: string, kept: string)
    requires s == before + " " + last && n <= |last| && s == t + s[|s| - n..] && kept == last[..|last| - n]
    ensures t == before + " " + kept
  {
    assert t == s[..|s| - n];
  }

  lemma CommandOfParsed(rest: string, kind: Kind)
    requires UserAndCommand(rest, kind).Some?
    ensures var (user, command) := UserAndCommand(rest, kind).value;
      UserFits(user, kind) && (command != "" ==> !IsBlank(command[0]))
  {}

  lemma ParsedFields(text: string, kind: Kind, valid: Validator)
    requires ParseEntry(text, kind, valid).Some?
    ensures var f := ParseEntry(text, kind, valid).value;
      && ScheduleOf(text).Some? && f.schedule == ScheduleOf(text).value.0 && valid(f.schedule)
      && UserAndCommand(ScheduleOf(text).value.1, kind) == Some((f.user, f.command))
      && UserFits(f.user, kind) && IsCommand(f.command)
  {
    ParseEntrySteps(text, kind, valid);
    CommandOfParsed(ScheduleOf(text).value.1, kind);
    TrimOfNothing();
  }

  lemma TrimOfNothing()
    ensures Trim("") == ""
  {}

  // ---- An entry that was not a setting is not rendered as one ---------------------------------------

  lemma {:induction false} TrimSkipsBlanks(s: string)
    requires SkipBlanks(s) != "" && !IsSpace(SkipBlanks(s)[0])
    ensures TrimStart(s) == SkipBlanks(s)
  {
    if IsBlank(s[0]) {
      TrimStartStep(s);
      TrimSkipsBlanks(s[1..]);
    }
  }

  lemma {:induction false} TrimAfterBlanks(s: string)
    ensures TrimStart(SkipBlanks(s)) == TrimStart(s)
  {
    if s != "" && IsBlank(s[0]) {
      TrimStartStep(s);
      TrimAfterBlanks(s[1..]);
    }
  }

  lemma {:induction false} TrimAfterSpaces(spaces: string, s: string)
    requires forall i :: 0 <= i < |spaces| ==> IsSpace(spaces[i])
    ensures TrimStart(spaces + s) == TrimStart(s)
  {
    if spaces == "" {
      EmptyPlus(s);
    } else {
      assert (spaces + s)[1..] == spaces[1..] + s;
      TrimAfterSpaces(spaces[1..], s);
    }
  }

  lemma {:induction false} TrimEndSplits(s: string)
    ensures |TrimEnd(s)| <= |s| && s == TrimEnd(s) + s[|TrimEnd(s)|..]
    ensures forall i :: |TrimEnd(s)| <= i < |s| ==> IsSpace(s[i])
  {
    if s != "" && IsSpace(s[|s| - 1]) {
      var init := s[..|s| - 1];
      TrimEndSplits(init);
      assert forall i :: 0 <= i < |init| ==> init[i] == s[i];
    }
  }

  lemma SettingAfterNickname(raw: string, s: string, nick: string, tail: string)
    requires s == SkipBlanks(raw) && s == nick + tail && nick != "" && (forall i :: 0 <= i < |nick| ==> IsNameChar(nick[i]))
    requires tail == "" || !IsNameChar(tail[0])
    ensures EnvOf(raw).Some? <==> EnvValue(tail).Some?
  {
    assert s[0] == nick[0];
    TrimSkipsBlanks(raw);
    EnvOfWord(s, nick, tail);
    EnvOfTrimmed(raw, s);
  }

  lemma SettingAfterSpaces(spaces: string, rest: string)
    requires forall i :: 0 <= i < |spaces| ==> IsSpace(spaces[i])
    ensures EnvValue(spaces + rest) == EnvValue(SkipBlanks(rest))
  {
    TrimAfterSpaces(spaces, rest);
    TrimAfterBlanks(rest);
  }

  lemma RegroupText(s: string, a: string, b: string, c: string)
    requires s == (a + b) + c
    ensures s == a + (b + c)
  {}

  lemma EnvOfTrimmed(raw: string, s: string)
    requires TrimStart(raw) == s && TrimStart(s) == s
    ensures EnvOf(raw) == EnvOf(s)
  {
    assert EnvName(TrimStart(raw)) == EnvName(TrimStart(s));
  }

  lemma NicknameOfSchedule(schedule: string, valid: Validator)
    requires Strict(valid) && valid(schedule) && schedule != "" && schedule[0] == '@'
    ensures TrimEnd(schedule) in NICKNAMES && Trim(schedule) == TrimEnd(schedule)
  {
    assert TrimStart(schedule) == schedule;
    TrimEndKeepsHead(schedule);
    assert TrimEnd(schedule)[0] == '@';
    assert ScheduleOk(schedule, _ => true);
  }

  lemma UserTabRest(rest: string)
    ensures UserAndCommand(rest, UserTab) == Some((None, SkipBlanks(rest)))
  {}

  lemma ScheduleStartsWithFirst(first: string, more: string)
    requires first != ""
    ensures (first + more)[0] == first[0]
  {}

  lemma ScheduleOfNickname(text: string)
    requires ScheduleOf(text).Some? && ScheduleOf(text).value.0 != "" && ScheduleOf(text).value.0[0] == '@'
    ensures ScheduleOf(text) == Next(text)
  {
    var (first, rest) := Next(text).value;
    ScheduleFromNext(text, first, rest);
    if Take(4, rest).Some? { ScheduleStartsWithFirst(first, Take(4, rest).value.0); }
  }

  lemma NicknameIsNoSetting(raw: string, schedule: string, rest: string, valid: Validator)
    requires Strict(valid) && valid(schedule) && schedule != "" && schedule[0] == '@'
    requires SkipBlanks(raw) == schedule + rest && Ends(rest) && EnvOf(raw).None?
    ensures EnvValue(SkipBlanks(rest)).None?
  {
    var nick := TrimEnd(schedule);
    NicknameOfSchedule(schedule, valid);
    TrimEndSplits(schedule);
    var spaces := schedule[|nick|..];
    var s := SkipBlanks(raw);
    RegroupText(s, nick, spaces, rest);
    NicknameChars(nick);
    SettingAfterNickname(raw, s, nick, spaces + rest);
    SettingAfterSpaces(spaces, rest);
  }

  /** An enabled entry is not rendered as a setting: its line was not one. */
  lemma EntryIsNoSetting(raw: string, f: Fields, kind: Kind, valid: Validator)
    requires Strict(valid) && ParseEntry(raw, kind, valid) == Some(f) && EnvOf(raw).None?
    ensures !ReadsAsSetting(f)
  {
    ParsedFields(raw, kind, valid);
    if f.user.None? && f.schedule != "" && f.schedule[0] == '@' {
      ScheduleOfNickname(raw);
      NextToken(raw);
      var rest := Next(raw).value.1;
      UserTabRest(rest);
      NicknameIsNoSetting(raw, f.schedule, rest, valid);
    }
  }
}
