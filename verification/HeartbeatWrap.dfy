/** Wrapping a crontab command so that every run reports to a heartbeat, and undoing it. Only the
    command field is looked at. */
module HeartbeatWrap {
  import opened Options
  import opened Text
  import CronSchedule

  // ---- The pieces of the wrapper ------------------------------------------------------------

  /** The fixed text of a wrapped command, in the order it appears: what opens a ping address and
      leads to its token, what ends the address of the start ping and follows it, what runs the
      quoted command and keeps its exit code, what ends the address of the final ping and
      follows it. */
  datatype Template = Template(
    open: string, ping: string,
    startEnd: string, afterStart: string,
    shell: string, rc: string,
    rcEnd: string, exit: string)

  const CURL := "curl -fsS -m 10 " + "--retry 3 -o /dev/null " + "\"$u\""
  const WGET := "wget -q -T 10 " + "-O /dev/null " + "\"$u\""
  const SEND := "(" + CURL + " || " + WGET + ") >/dev/null 2>&1"

  const TEMPLATE := Template(
    "u=\"", "/api/v1/ping/",
    "/start", "; " + SEND + "; ",
    "\"${SHELL:-/bin/sh}\" -c '", "'; rc=$?; ",
    "/$rc", "; " + SEND + "; exit $rc")

  /** What the proofs need of the fixed text. */
  ghost predicate Sound(t: Template) {
    && t.open != "" && t.shell != "" && t.open[0] != t.shell[0]
    && !IsSpace(t.open[0]) && t.open[0] != '=' && !IsSpace(t.shell[0]) && t.shell[0] != '='
    && Plain(t.open) && Plain(t.ping) && Plain(t.startEnd) && Plain(t.afterStart)
    && Plain(t.shell) && Plain(t.rc) && Plain(t.rcEnd) && Plain(t.exit)
    && '"' !in t.ping && '"' !in t.startEnd && '"' !in t.rcEnd
    && t.shell[|t.shell| - 1] == '\'' && |t.rc| >= 2 && t.rc[0] == '\'' && t.rc[1] == ';'
    && t.exit != ""
  }

  /** No percent sign, no backslash, no line break, no NUL. */
  predicate Plain(s: string) {
    forall i :: 0 <= i < |s| ==> PlainChar(s[i])
  }

  predicate PlainChar(c: char) {
    c != '%' && c != '\\' && !Refused(c)
  }

  predicate Refused(c: char) {
    c == '\r' || c == '\n' || c == '\0'
  }

  // ---- Ping addresses and tokens --------------------------------------------------------------

  predicate IsHostChar(c: char) {
    IsDigit(c) || CronSchedule.IsLetter(c) || c == '.' || c == '-'
  }

  predicate IsPathChar(c: char) {
    IsHostChar(c) || c == '_' || c == '~' || c == '/'
  }

  predicate IsTokenChar(c: char) {
    IsDigit(c) || CronSchedule.IsLetter(c) || c == '_' || c == '-'
  }

  function HostRun(s: string): (n: nat)
    ensures n <= |s|
  {
    if s == "" || !IsHostChar(s[0]) then 0 else 1 + HostRun(s[1..])
  }

  function DigitRun(s: string): (n: nat)
    ensures n <= |s|
  {
    if s == "" || !IsDigit(s[0]) then 0 else 1 + DigitRun(s[1..])
  }

  function AfterScheme(s: string): Option<string> {
    if StartsWith(s, "https://") then Some(s[8..])
    else if StartsWith(s, "http://") then Some(s[7..])
    else None
  }

  predicate PathOk(s: string) {
    s == "" || (s[0] == '/' && forall i :: 1 <= i < |s| ==> IsPathChar(s[i]))
  }

  predicate PortAndPathOk(s: string) {
    if s != "" && s[0] == ':' then DigitRun(s[1..]) > 0 && PathOk(s[1 + DigitRun(s[1..])..]) else PathOk(s)
  }

  /** A plain http(s) address: host, optional port, optional path. */
  predicate BaseOk(s: string) {
    AfterScheme(s).Some? &&
    var rest := AfterScheme(s).value;
    HostRun(rest) > 0 && PortAndPathOk(rest[HostRun(rest)..])
  }

  predicate TokenOk(s: string) {
    |s| == 43 && forall i :: 0 <= i < |s| ==> IsTokenChar(s[i])
  }

  function DropSlashes(s: string): string {
    if s != "" && s[|s| - 1] == '/' then DropSlashes(s[..|s| - 1]) else s
  }

  function NormalizePingBase(s: string): Option<string> {
    var base := DropSlashes(Trim(s));
    if BaseOk(base) then Some(base) else None
  }

  // ---- Splitting at `%` ------------------------------------------------------------------------

  /** The command up to its first `%`, and the rest from that `%` on; any character after a
      backslash is skipped. */
  function SplitRaw(s: string): (string, string) {
    if s == "" then ("", "")
    else if s[0] == '\\' && |s| >= 2 then
      var (cmd, stdin) := SplitRaw(s[2..]);
      (s[..2] + cmd, stdin)
    else if s[0] == '%' then ("", s)
    else
      var (cmd, stdin) := SplitRaw(s[1..]);
      ([s[0]] + cmd, stdin)
  }

  lemma {:induction false} SplitRawParts(s: string)
    ensures SplitRaw(s).0 + SplitRaw(s).1 == s
    ensures SplitRaw(s).1 == "" || SplitRaw(s).1[0] == '%'
  {
    if s == "" {
    } else if s[0] == '\\' && |s| >= 2 {
      SplitRawParts(s[2..]);
      assert s == s[..2] + s[2..];
    } else if s[0] != '%' {
      SplitRawParts(s[1..]);
      assert s == [s[0]] + s[1..];
    }
  }

  method SplitCronCommandRaw(command: string) returns (cmdPart: string, stdinPart: string)
    ensures (cmdPart, stdinPart) == SplitRaw(command)
  {
    var i := 0;
    assert command[0..] == command && command[..0] + SplitRaw(command).0 == SplitRaw(command).0;
    while i < |command|
      invariant 0 <= i <= |command|
      invariant SplitRaw(command) == (command[..i] + SplitRaw(command[i..]).0, SplitRaw(command[i..]).1)
    {
      SplitStep(command, i);
      if command[i] == '\\' && i + 1 < |command| {
        i := i + 2;
      } else if command[i] == '%' {
        return command[..i], command[i..];
      } else {
        i := i + 1;
      }
    }
    assert command[..i] + "" == command;
    return command, "";
  }

  lemma SplitStep(s: string, i: nat)
    requires i < |s|
    ensures
      if s[i] == '\\' && i + 1 < |s| then
        s[..i] + SplitRaw(s[i..]).0 == s[..i + 2] + SplitRaw(s[i + 2..]).0 && SplitRaw(s[i..]).1 == SplitRaw(s[i + 2..]).1
      else if s[i] == '%' then s[..i] + SplitRaw(s[i..]).0 == s[..i] && SplitRaw(s[i..]).1 == s[i..]
      else s[..i] + SplitRaw(s[i..]).0 == s[..i + 1] + SplitRaw(s[i + 1..]).0 && SplitRaw(s[i..]).1 == SplitRaw(s[i + 1..]).1
  {
    if s[i] == '\\' && i + 1 < |s| {
      assert s[i..][2..] == s[i + 2..] && s[i..][..2] == s[i..i + 2];
      Regroup(s[..i], s[i..i + 2], SplitRaw(s[i + 2..]).0);
      assert s[..i] + s[i..i + 2] == s[..i + 2];
    } else if s[i] != '%' {
      assert s[i..][1..] == s[i + 1..];
      Regroup(s[..i], [s[i]], SplitRaw(s[i + 1..]).0);
      assert s[..i] + [s[i]] == s[..i + 1];
    }
  }

  // ---- Quoting ----------------------------------------------------------------------------------

  const QUOTED_QUOTE := "'\\''"

  /** The text between the quotes: each quote ends the quoting, is escaped, and starts it again. */
  function Escape(s: string): string {
    if s == "" then "" else (if s[0] == '\'' then QUOTED_QUOTE else [s[0]]) + Escape(s[1..])
  }

  /** The inverse: what was quoted, and the rest from the quote that closes it. */
  function ReadQuoted(s: string): Option<(string, string)>
    decreases |s|
  {
    if s == "" then None
    else if s[0] == '\'' && !StartsWith(s, QUOTED_QUOTE) then Some(("", s))
    else
      match ReadQuoted(if s[0] == '\'' then s[4..] else s[1..])
      case None => None
      case Some((quoted, rest)) => Some(([s[0]] + quoted, rest))
  }

  predicate Closes(rest: string) {
    rest != "" && rest[0] == '\'' && !StartsWith(rest, QUOTED_QUOTE)
  }

  lemma EscapeStep(s: string, rest: string)
    requires s != ""
    ensures Escape(s) + rest == (if s[0] == '\'' then QUOTED_QUOTE else [s[0]]) + (Escape(s[1..]) + rest)
  {}

  lemma {:induction false} ReadQuotedOfEscape(s: string, rest: string)
    requires Closes(rest)
    ensures ReadQuoted(Escape(s) + rest) == Some((s, rest))
    decreases |s|
  {
    if s == "" {
      assert Escape(s) + rest == rest;
    } else {
      ReadQuotedOfEscape(s[1..], rest);
      EscapeStep(s, rest);
      var text := Escape(s) + rest;
      assert text[(if s[0] == '\'' then 4 else 1)..] == Escape(s[1..]) + rest;
      assert text[0] == s[0];
      assert [s[0]] + s[1..] == s;
    }
  }

  lemma {:induction false} ReadQuotedIsEscape(text: string, s: string, rest: string)
    requires ReadQuoted(text) == Some((s, rest))
    ensures text == Escape(s) + rest && Closes(rest)
    decreases |text|
  {
    if text[0] == '\'' && !StartsWith(text, QUOTED_QUOTE) {
      assert text == "" + text;
    } else {
      var n := if text[0] == '\'' then 4 else 1;
      assert s[0] == text[0];
      ReadQuotedIsEscape(text[n..], s[1..], rest);
      EscapeStep(s, rest);
      assert text == text[..n] + text[n..];
    }
  }

  // ---- The wrapped form ---------------------------------------------------------------------------

  /** What a wrapped command is made of. */
  datatype Wrapped = Wrapped(cmdPart: string, stdinPart: string, base: string, token: string, measure: bool)

  /** An address, the quote that ends it, and what follows. */
  function Url(t: Template, base: string, token: string, end: string, rest: string): string {
    (base + t.ping + token + end) + ("\"" + rest)
  }

  function Body(t: Template, w: Wrapped): string {
    t.shell + (Escape(w.cmdPart) + (t.rc + (t.open + Url(t, w.base, w.token, t.rcEnd, t.exit + w.stdinPart))))
  }

  function Compose(t: Template, w: Wrapped): string {
    if w.measure then t.open + Url(t, w.base, w.token, t.startEnd, t.afterStart + Body(t, w)) else Body(t, w)
  }

  predicate StdinOk(stdinPart: string) {
    stdinPart == "" || stdinPart[0] == '%'
  }

  predicate Shaped(w: Wrapped) {
    w.cmdPart != "" && StdinOk(w.stdinPart) && BaseOk(w.base) && TokenOk(w.token)
  }

  // ---- Recognising it -------------------------------------------------------------------------------

  function Strip(prefix: string, s: string): Option<string> {
    if StartsWith(s, prefix) then Some(s[|prefix|..]) else None
  }

  function StripEnd(suffix: string, s: string): Option<string> {
    if EndsWith(s, suffix) then Some(s[..|s| - |suffix|]) else None
  }

  /** Base, path, token and end of an address, without the quote. */
  function ReadAddress(t: Template, end: string, address: string): Option<(string, string)> {
    match StripEnd(end, address)
    case None => None
    case Some(v) =>
      if |v| < 43 || !TokenOk(v[|v| - 43..]) then None
      else
        match StripEnd(t.ping, v[..|v| - 43])
        case None => None
        case Some(base) => if BaseOk(base) then Some((base, v[|v| - 43..])) else None
  }

  /** An address up to the next quote, and what follows the quote. */
  function ReadUrl(t: Template, end: string, s: string): Option<(string, string, string)> {
    var (address, after) := CronSchedule.CutAt(s, '"');
    if after.None? || ReadAddress(t, end, address).None? then None
    else Some((ReadAddress(t, end, address).value.0, ReadAddress(t, end, address).value.1, after.value))
  }

  /** `exit $rc` and the stdin part. */
  function ReadEnd(t: Template, s: string): Option<string> {
    match Strip(t.exit, s)
    case None => None
    case Some(stdin) => if StdinOk(stdin) then Some(stdin) else None
  }

  function ReadPing(t: Template, s: string): Option<(string, string, string)> {
    match Strip(t.open, s)
    case None => None
    case Some(rest) =>
      match ReadUrl(t, t.rcEnd, rest)
      case None => None
      case Some((base, token, after)) =>
        match ReadEnd(t, after)
        case None => None
        case Some(stdin) => Some((base, token, stdin))
  }

  function ReadCommand(t: Template, s: string): Option<(string, string)> {
    match Strip(t.shell, s)
    case None => None
    case Some(rest) =>
      match ReadQuoted(rest)
      case None => None
      case Some((cmd, closing)) =>
        match Strip(t.rc, closing)
        case None => None
        case Some(after) => if cmd == "" then None else Some((cmd, after))
  }

  function ReadBody(t: Template, s: string, measure: bool): Option<Wrapped> {
    match ReadCommand(t, s)
    case None => None
    case Some((cmd, rest)) =>
      match ReadPing(t, rest)
      case None => None
      case Some((base, token, stdin)) => Some(Wrapped(cmd, stdin, base, token, measure))
  }

  function ReadStart(t: Template, s: string): Option<(string, string, string)> {
    match ReadUrl(t, t.startEnd, s)
    case None => None
    case Some((base, token, rest)) =>
      match Strip(t.afterStart, rest)
      case None => None
      case Some(body) => Some((base, token, body))
  }

  /** None when the command is not in the wrapped format. */
  function Unwrap(t: Template, s: string): Option<Wrapped> {
    match Strip(t.open, s)
    case None => ReadBody(t, s, false)
    case Some(rest) =>
      match ReadStart(t, rest)
      case None => None
      case Some((base, token, body)) =>
        match ReadBody(t, body, true)
        case None => None
        case Some(w) => if w.base == base && w.token == token then Some(w) else None
  }

  // ---- One reading only -------------------------------------------------------------------------------

  lemma StripIff(prefix: string, s: string, rest: string)
    ensures Strip(prefix, s) == Some(rest) <==> s == prefix + rest
  {}

  lemma StripEndIff(suffix: string, s: string, rest: string)
    ensures StripEnd(suffix, s) == Some(rest) <==> s == rest + suffix
  {}

  lemma {:induction false} CutOfAppend(s: string, rest: string, c: char)
    requires c !in s
    ensures CronSchedule.CutAt(s + ([c] + rest), c) == (s, Some(rest))
  {
    if s == "" {
      assert s + ([c] + rest) == [c] + rest;
    } else {
      var whole := s + ([c] + rest);
      assert s[0] != c && c !in s[1..];
      assert whole[0] == s[0] && whole[1..] == s[1..] + ([c] + rest);
      CutOfAppend(s[1..], rest, c);
      assert [s[0]] + s[1..] == s;
    }
  }

  lemma CutIff(s: string, address: string, rest: string)
    ensures CronSchedule.CutAt(s, '"') == (address, Some(rest)) <==> '"' !in address && s == address + ("\"" + rest)
  {
    if '"' !in address && s == address + ("\"" + rest) { CutOfAppend(address, rest, '"'); }
    if CronSchedule.CutAt(s, '"') == (address, Some(rest)) { assert s == address + ['"'] + rest == address + ("\"" + rest); }
  }

  lemma TokenSplit(v: string, head: string, token: string)
    requires |token| == 43
    ensures |v| >= 43 && v[|v| - 43..] == token && v[..|v| - 43] == head <==> v == head + token
  {}

  lemma AddressIff(t: Template, end: string, address: string, base: string, token: string)
    ensures ReadAddress(t, end, address) == Some((base, token)) <==>
      BaseOk(base) && TokenOk(token) && address == base + t.ping + token + end
  {
    if ReadAddress(t, end, address) == Some((base, token)) {
      var v := StripEnd(end, address).value;
      StripEndIff(end, address, v);
      TokenSplit(v, v[..|v| - 43], token);
      StripEndIff(t.ping, v[..|v| - 43], base);
    }
    if BaseOk(base) && TokenOk(token) && address == base + t.ping + token + end {
      StripEndIff(end, address, base + t.ping + token);
      TokenSplit(base + t.ping + token, base + t.ping, token);
      StripEndIff(t.ping, base + t.ping, base);
    }
  }

  /** The characters of an address. */
  predicate IsBaseChar(c: char) {
    IsPathChar(c) || c == ':'
  }

  lemma {:induction false} HostRunChars(s: string)
    ensures forall i :: 0 <= i < HostRun(s) ==> IsHostChar(s[i])
  {
    if s != "" && IsHostChar(s[0]) {
      HostRunChars(s[1..]);
      assert forall i :: 1 <= i < HostRun(s) ==> s[i] == s[1..][i - 1];
    }
  }

  lemma {:induction false} DigitRunChars(s: string)
    ensures forall i :: 0 <= i < DigitRun(s) ==> IsDigit(s[i])
  {
    if s != "" && IsDigit(s[0]) {
      DigitRunChars(s[1..]);
      assert forall i :: 1 <= i < DigitRun(s) ==> s[i] == s[1..][i - 1];
    }
  }

  predicate AllBaseChars(s: string) {
    forall i :: 0 <= i < |s| ==> IsBaseChar(s[i])
  }

  lemma AllBaseAppend(a: string, b: string)
    requires AllBaseChars(a) && AllBaseChars(b)
    ensures AllBaseChars(a + b)
  {}

  lemma PortAndPathChars(s: string)
    requires PortAndPathOk(s)
    ensures AllBaseChars(s)
  {
    if s != "" && s[0] == ':' {
      var n := DigitRun(s[1..]);
      DigitRunChars(s[1..]);
      assert forall i :: 1 <= i < n + 1 ==> s[i] == s[1..][i - 1];
      assert AllBaseChars(s[..1 + n]);
      AllBaseAppend(s[..1 + n], s[1 + n..]);
      assert s == s[..1 + n] + s[1 + n..];
    }
  }

  lemma SchemeChars(s: string)
    requires AfterScheme(s).Some?
    ensures exists scheme :: AllBaseChars(scheme) && s == scheme + AfterScheme(s).value
  {
    var scheme := if StartsWith(s, "https://") then "https://" else "http://";
    assert AllBaseChars(scheme) && s == scheme + AfterScheme(s).value;
  }

  lemma BaseChars(s: string)
    requires BaseOk(s)
    ensures AllBaseChars(s)
  {
    SchemeChars(s);
    var rest := AfterScheme(s).value;
    var scheme :| AllBaseChars(scheme) && s == scheme + rest;
    HostRunChars(rest);
    PortAndPathChars(rest[HostRun(rest)..]);
    assert AllBaseChars(rest[..HostRun(rest)]);
    assert rest == rest[..HostRun(rest)] + rest[HostRun(rest)..];
    AllBaseAppend(rest[..HostRun(rest)], rest[HostRun(rest)..]);
    AllBaseAppend(scheme, rest);
  }

  lemma BaseHasNoQuote(base: string)
    requires BaseOk(base)
    ensures '"' !in base && Plain(base)
  {
    BaseChars(base);
  }

  lemma TokenHasNoQuote(token: string)
    requires TokenOk(token)
    ensures '"' !in token && Plain(token)
  {}

  lemma AddressHasNoQuote(t: Template, base: string, token: string, end: string)
    requires Sound(t) && BaseOk(base) && TokenOk(token) && '"' !in end
    ensures '"' !in base + t.ping + token + end
  {
    BaseHasNoQuote(base);
    TokenHasNoQuote(token);
  }

  lemma UrlOf(t: Template, s: string, base: string, token: string, end: string, rest: string)
    requires Sound(t) && '"' !in end && BaseOk(base) && TokenOk(token) && s == Url(t, base, token, end, rest)
    ensures ReadUrl(t, end, s) == Some((base, token, rest))
  {
    var address := base + t.ping + token + end;
    AddressHasNoQuote(t, base, token, end);
    CutIff(s, address, rest);
    AddressIff(t, end, address, base, token);
  }

  lemma UrlIs(t: Template, s: string, base: string, token: string, end: string, rest: string)
    requires ReadUrl(t, end, s) == Some((base, token, rest))
    ensures BaseOk(base) && TokenOk(token) && s == Url(t, base, token, end, rest)
  {
    var (address, after) := CronSchedule.CutAt(s, '"');
    CutIff(s, address, rest);
    AddressIff(t, end, address, base, token);
  }

  lemma PingOf(t: Template, s: string, base: string, token: string, stdin: string)
    requires Sound(t) && BaseOk(base) && TokenOk(token) && StdinOk(stdin)
    requires s == t.open + Url(t, base, token, t.rcEnd, t.exit + stdin)
    ensures ReadPing(t, s) == Some((base, token, stdin))
  {
    var url := Url(t, base, token, t.rcEnd, t.exit + stdin);
    StripIff(t.open, s, url);
    UrlOf(t, url, base, token, t.rcEnd, t.exit + stdin);
    StripIff(t.exit, t.exit + stdin, stdin);
  }

  lemma PingIs(t: Template, s: string, base: string, token: string, stdin: string)
    requires ReadPing(t, s) == Some((base, token, stdin))
    ensures BaseOk(base) && TokenOk(token) && StdinOk(stdin) && s == t.open + Url(t, base, token, t.rcEnd, t.exit + stdin)
  {
    var url := Strip(t.open, s).value;
    var after := ReadUrl(t, t.rcEnd, url).value.2;
    StripIff(t.open, s, url);
    UrlIs(t, url, base, token, t.rcEnd, after);
    StripIff(t.exit, after, stdin);
  }

  lemma CommandOf(t: Template, s: string, cmd: string, rest: string)
    requires Sound(t) && cmd != "" && s == t.shell + (Escape(cmd) + (t.rc + rest))
    ensures ReadCommand(t, s) == Some((cmd, rest))
  {
    var closing := t.rc + rest;
    assert closing[0] == t.rc[0] && closing[1] == t.rc[1] && QUOTED_QUOTE[1] == '\\';
    assert Closes(closing);
    StripIff(t.shell, s, Escape(cmd) + closing);
    ReadQuotedOfEscape(cmd, closing);
    StripIff(t.rc, closing, rest);
  }

  lemma CommandIs(t: Template, s: string, cmd: string, rest: string)
    requires ReadCommand(t, s) == Some((cmd, rest))
    ensures cmd != "" && s == t.shell + (Escape(cmd) + (t.rc + rest))
  {
    var quoted := Strip(t.shell, s).value;
    var closing := ReadQuoted(quoted).value.1;
    StripIff(t.shell, s, quoted);
    ReadQuotedIsEscape(quoted, cmd, closing);
    StripIff(t.rc, closing, rest);
  }

  lemma BodyIff(t: Template, s: string, w: Wrapped)
    requires Sound(t)
    ensures ReadBody(t, s, w.measure) == Some(w) <==> Shaped(w) && s == Body(t, w)
  {
    var ping := t.open + Url(t, w.base, w.token, t.rcEnd, t.exit + w.stdinPart);
    if ReadBody(t, s, w.measure) == Some(w) {
      var rest := ReadCommand(t, s).value.1;
      CommandIs(t, s, w.cmdPart, rest);
      PingIs(t, rest, w.base, w.token, w.stdinPart);
    }
    if Shaped(w) && s == Body(t, w) {
      CommandOf(t, s, w.cmdPart, ping);
      PingOf(t, ping, w.base, w.token, w.stdinPart);
    }
  }

  lemma StartOf(t: Template, s: string, base: string, token: string, body: string)
    requires Sound(t) && BaseOk(base) && TokenOk(token) && s == Url(t, base, token, t.startEnd, t.afterStart + body)
    ensures ReadStart(t, s) == Some((base, token, body))
  {
    UrlOf(t, s, base, token, t.startEnd, t.afterStart + body);
    StripIff(t.afterStart, t.afterStart + body, body);
  }

  lemma StartIs(t: Template, s: string, base: string, token: string, body: string)
    requires ReadStart(t, s) == Some((base, token, body))
    ensures s == Url(t, base, token, t.startEnd, t.afterStart + body)
  {
    var rest := ReadUrl(t, t.startEnd, s).value.2;
    UrlIs(t, s, base, token, t.startEnd, rest);
    StripIff(t.afterStart, rest, body);
  }

  lemma ReadBodyMeasure(t: Template, s: string, measure: bool)
    ensures ReadBody(t, s, measure).Some? ==> ReadBody(t, s, measure).value.measure == measure
  {}

  lemma BodyIsNotOpen(t: Template, w: Wrapped)
    requires Sound(t)
    ensures Strip(t.open, Body(t, w)) == None
  {
    assert Body(t, w)[0] == t.shell[0];
  }

  /** A command is recognised as wrapped around these parts exactly when it is the wrapper
      around them: the wrapped form can be read in one way only. */
  lemma UnwrapIff(t: Template, s: string, w: Wrapped)
    requires Sound(t)
    ensures Unwrap(t, s) == Some(w) <==> Shaped(w) && s == Compose(t, w)
  {
    if Unwrap(t, s) == Some(w) { UnwrapIsShaped(t, s, w); }
    if Shaped(w) && s == Compose(t, w) { UnwrapOfShaped(t, s, w); }
  }

  lemma UnwrapIsShaped(t: Template, s: string, w: Wrapped)
    requires Sound(t) && Unwrap(t, s) == Some(w)
    ensures Shaped(w) && s == Compose(t, w)
  {
    if Strip(t.open, s).None? {
      ReadBodyMeasure(t, s, false);
      BodyIff(t, s, w);
    } else {
      var rest := Strip(t.open, s).value;
      var (base, token, body) := ReadStart(t, rest).value;
      StripIff(t.open, s, rest);
      StartIs(t, rest, base, token, body);
      ReadBodyMeasure(t, body, true);
      BodyIff(t, body, w);
    }
  }

  lemma UnwrapOfShaped(t: Template, s: string, w: Wrapped)
    requires Sound(t) && Shaped(w) && s == Compose(t, w)
    ensures Unwrap(t, s) == Some(w)
  {
    if w.measure {
      var body := Body(t, w);
      var rest := Url(t, w.base, w.token, t.startEnd, t.afterStart + body);
      StripIff(t.open, s, rest);
      StartOf(t, rest, w.base, w.token, body);
      BodyIff(t, body, w);
    } else {
      BodyIsNotOpen(t, w);
      BodyIff(t, s, w);
    }
  }

  // ---- Wrapping ---------------------------------------------------------------------------------------

  datatype WrapError = InvalidBase | InvalidToken | InvalidCommand | AlreadyWrapped | LineTooLong

  datatype WrapResult = Ok(command: string) | Rejected(error: WrapError)

  const MAX_CRON_LINE: nat := 990

  /** The length of a string in UTF-16 code units. */
  function JsLength(s: string): nat {
    if s == "" then 0 else (if s[0] as int >= 0x1_0000 then 2 else 1) + JsLength(s[1..])
  }

  predicate NoneRefused(s: string) {
    forall i :: 0 <= i < |s| ==> !Refused(s[i])
  }

  function Parts(command: string, base: string, token: string, measure: bool): Wrapped {
    Wrapped(SplitRaw(command).0, SplitRaw(command).1, base, token, measure)
  }

  function Wrap(t: Template, command: string, pingBase: string, token: string, measure: bool, linePrefixLength: nat): WrapResult {
    var base := NormalizePingBase(pingBase);
    if base.None? then Rejected(InvalidBase)
    else if !TokenOk(token) then Rejected(InvalidToken)
    else if !NoneRefused(command) then Rejected(InvalidCommand)
    else if Unwrap(t, command).Some? then Rejected(AlreadyWrapped)
    else if Trim(SplitRaw(command).0) == "" then Rejected(InvalidCommand)
    else
      var wrapped := Compose(t, Parts(command, base.value, token, measure));
      if linePrefixLength + JsLength(wrapped) > MAX_CRON_LINE then Rejected(LineTooLong) else Ok(wrapped)
  }

  /** The command field that was wrapped. */
  function Original(w: Wrapped): string {
    w.cmdPart + w.stdinPart
  }

  lemma WrapParts(t: Template, command: string, pingBase: string, token: string, measure: bool, linePrefixLength: nat)
    requires Wrap(t, command, pingBase, token, measure, linePrefixLength).Ok?
    ensures NormalizePingBase(pingBase).Some? && NoneRefused(command)
    ensures var w := Parts(command, NormalizePingBase(pingBase).value, token, measure);
      Wrap(t, command, pingBase, token, measure, linePrefixLength).command == Compose(t, w) && Shaped(w) && Original(w) == command
  {
    SplitRawParts(command);
    TrimOfEmpty();
  }

  lemma TrimOfEmpty()
    ensures Trim("") == ""
  {}

  /** Unwrapping gives back exactly the command, the normalized address, the token and whether
      the duration is measured. */
  lemma WrapUnwraps(t: Template, command: string, pingBase: string, token: string, measure: bool, linePrefixLength: nat)
    requires Sound(t) && Wrap(t, command, pingBase, token, measure, linePrefixLength).Ok?
    ensures var w := Unwrap(t, Wrap(t, command, pingBase, token, measure, linePrefixLength).command);
      && w.Some? && Original(w.value) == command
      && Some(w.value.base) == NormalizePingBase(pingBase) && w.value.token == token && w.value.measure == measure
  {
    WrapParts(t, command, pingBase, token, measure, linePrefixLength);
    var w := Parts(command, NormalizePingBase(pingBase).value, token, measure);
    UnwrapIff(t, Compose(t, w), w);
  }

  lemma {:induction false} EscapeRefusesNothing(s: string)
    requires NoneRefused(s)
    ensures NoneRefused(Escape(s))
  {
    if s != "" { EscapeRefusesNothing(s[1..]); }
  }

  lemma BodyRefusesNothing(t: Template, w: Wrapped)
    requires Sound(t) && Shaped(w) && NoneRefused(w.cmdPart) && NoneRefused(w.stdinPart)
    ensures NoneRefused(Body(t, w))
  {
    EscapeRefusesNothing(w.cmdPart);
    UrlRefusesNothing(t, w.base, w.token, t.rcEnd, t.exit + w.stdinPart);
  }

  lemma UrlRefusesNothing(t: Template, base: string, token: string, end: string, rest: string)
    requires Sound(t) && BaseOk(base) && TokenOk(token) && Plain(end) && NoneRefused(rest)
    ensures NoneRefused(Url(t, base, token, end, rest))
  {
    BaseHasNoQuote(base);
    TokenHasNoQuote(token);
  }

  lemma ComposeRefusesNothing(t: Template, w: Wrapped)
    requires Sound(t) && Shaped(w) && NoneRefused(w.cmdPart) && NoneRefused(w.stdinPart)
    ensures NoneRefused(Compose(t, w))
  {
    BodyRefusesNothing(t, w);
    UrlRefusesNothing(t, w.base, w.token, t.startEnd, t.afterStart + Body(t, w));
  }

  lemma PartsRefuseNothing(a: string, b: string)
    requires NoneRefused(a + b)
    ensures NoneRefused(a) && NoneRefused(b)
  {
    assert forall i :: 0 <= i < |a| ==> a[i] == (a + b)[i];
    assert forall i :: 0 <= i < |b| ==> b[i] == (a + b)[|a| + i];
  }

  lemma WrappedRefusesNothing(t: Template, command: string, pingBase: string, token: string, measure: bool, prefix: nat)
    requires Sound(t) && Wrap(t, command, pingBase, token, measure, prefix).Ok?
    ensures NoneRefused(Wrap(t, command, pingBase, token, measure, prefix).command)
  {
    WrapParts(t, command, pingBase, token, measure, prefix);
    var w := Parts(command, NormalizePingBase(pingBase).value, token, measure);
    PartsRefuseNothing(w.cmdPart, w.stdinPart);
    ComposeRefusesNothing(t, w);
  }

  lemma WrappedIsRejected(t: Template, command: string, pingBase: string, token: string, measure: bool, prefix: nat)
    requires Unwrap(t, command).Some? && NoneRefused(command)
    ensures var again := Wrap(t, command, pingBase, token, measure, prefix);
      again.Rejected? && (NormalizePingBase(pingBase).Some? && TokenOk(token) ==> again.error == AlreadyWrapped)
  {}

  /** A wrapped command is not wrapped again: with a good address and token it is rejected because
      it is wrapped already. */
  lemma WrapIsRejectedTheSecondTime(
    t: Template, command: string, pingBase: string, token: string, measure: bool, prefix: nat,
    pingBase': string, token': string, measure': bool, prefix': nat)
    requires Sound(t) && Wrap(t, command, pingBase, token, measure, prefix).Ok?
    ensures var again := Wrap(t, Wrap(t, command, pingBase, token, measure, prefix).command, pingBase', token', measure', prefix');
      again.Rejected? && (NormalizePingBase(pingBase').Some? && TokenOk(token') ==> again.error == AlreadyWrapped)
  {
    var out := Wrap(t, command, pingBase, token, measure, prefix).command;
    assert Unwrap(t, out).Some? by { WrapUnwraps(t, command, pingBase, token, measure, prefix); }
    assert NoneRefused(out) by { WrappedRefusesNothing(t, command, pingBase, token, measure, prefix); }
    WrappedIsRejected(t, out, pingBase', token', measure', prefix');
  }

  // ---- What cron hands to the shell -------------------------------------------------------------------

  /** Scanning for an unescaped `%`, starting after a backslash or not: None if there is one,
      otherwise whether the text ends after a backslash. */
  function Scan(s: string, esc: bool): Option<bool> {
    if s == "" then Some(esc)
    else if esc then Scan(s[1..], false)
    else if s[0] == '%' then None
    else Scan(s[1..], s[0] == '\\')
  }

  lemma {:induction false} ScanAppend(a: string, b: string, esc: bool)
    ensures Scan(a + b, esc) == if Scan(a, esc).Some? then Scan(b, Scan(a, esc).value) else None
  {
    if a == "" {
      assert a + b == b;
    } else {
      assert (a + b)[0] == a[0] && (a + b)[1..] == a[1..] + b;
      ScanAppend(a[1..], b, if esc then false else a[0] == '\\');
    }
  }

  lemma {:induction false} ScanEscape(s: string, esc: bool)
    ensures Scan(Escape(s), esc) == Scan(s, esc)
  {
    if s != "" {
      var head := if s[0] == '\'' then QUOTED_QUOTE else [s[0]];
      ScanAppend(head, Escape(s[1..]), esc);
      if s[0] == '\'' {
        ScanQuotedQuote(esc);
        ScanEscape(s[1..], false);
      } else {
        ScanOne(s[0], esc);
        ScanEscape(s[1..], if esc then false else s[0] == '\\');
      }
    }
  }

  lemma ScanOne(c: char, esc: bool)
    ensures Scan([c], esc) == if !esc && c == '%' then None else Some(!esc && c == '\\')
  {
    assert [c][1..] == "";
  }

  lemma ScanQuotedQuote(esc: bool)
    ensures Scan(QUOTED_QUOTE, esc) == Some(false)
  {
    var q := QUOTED_QUOTE;
    assert q == ['\''] + (['\\'] + (['\''] + ['\'']));
    ScanAppend(['\''], ['\\'] + (['\''] + ['\'']), esc);
    ScanAppend(['\\'], ['\''] + ['\''], false);
    ScanAppend(['\''], ['\''], true);
    ScanOne('\'', esc);
    ScanOne('\\', false);
    ScanOne('\'', true);
    ScanOne('\'', false);
  }

  lemma {:induction false} ScanPlain(s: string, esc: bool)
    requires Plain(s)
    ensures Scan(s, esc) == Some(if s == "" then esc else false)
  {
    if s != "" { ScanPlain(s[1..], false); }
  }

  lemma {:induction false} SplitRawScans(s: string)
    ensures Scan(SplitRaw(s).0, false).Some?
    ensures SplitRaw(s).1 != "" ==> Scan(SplitRaw(s).0, false) == Some(false)
    decreases |s|
  {
    if s == "" {
    } else if s[0] == '\\' && |s| >= 2 {
      SplitRawScans(s[2..]);
      var cmd := SplitRaw(s).0;
      ScanAppend(s[..2], SplitRaw(s[2..]).0, false);
      assert s[..2][1..] == [s[1]];
      ScanOne(s[1], true);
    } else if s[0] != '%' {
      SplitRawScans(s[1..]);
      ScanAppend([s[0]], SplitRaw(s[1..]).0, false);
      ScanOne(s[0], false);
      if s[0] == '\\' { assert s[1..] == ""; }
    }
  }

  lemma {:induction false} ScanSplits(s: string, stdin: string)
    requires Scan(s, false).Some? && StdinOk(stdin) && (stdin != "" ==> Scan(s, false) == Some(false))
    ensures SplitRaw(s + stdin) == (s, stdin)
    decreases |s|
  {
    if s == "" {
      assert s + stdin == stdin;
    } else {
      var whole := s + stdin;
      if s[0] == '\\' && |whole| >= 2 {
        if |s| > 1 {
          assert s[1..][1..] == s[2..];
          ScanSplits(s[2..], stdin);
          assert whole[2..] == s[2..] + stdin && whole[..2] == s[..2];
          assert s[..2] + s[2..] == s;
        }
      } else {
        assert whole[1..] == s[1..] + stdin;
        if s[0] != '\\' {
          ScanSplits(s[1..], stdin);
          assert [s[0]] + s[1..] == s;
        } else {
          assert whole == s && s == [s[0]] && SplitRaw("") == ("", "");
        }
      }
    }
  }

  /** The wrapper around the command part alone. */
  function WithoutStdin(w: Wrapped): Wrapped {
    w.(stdinPart := "")
  }

  lemma BodyEndsWithStdin(t: Template, w: Wrapped)
    ensures Body(t, w) == Body(t, WithoutStdin(w)) + w.stdinPart
  {
    assert t.exit + "" == t.exit;
  }

  lemma ComposeEndsWithStdin(t: Template, w: Wrapped)
    ensures Compose(t, w) == Compose(t, WithoutStdin(w)) + w.stdinPart
  {
    BodyEndsWithStdin(t, w);
  }

  lemma PlainAppend(a: string, b: string)
    requires Plain(a) && Plain(b)
    ensures Plain(a + b)
  {}

  /** Everything after the quoted command. */
  function AfterCommand(t: Template, w: Wrapped): string {
    t.rc + (t.open + Url(t, w.base, w.token, t.rcEnd, t.exit))
  }

  /** Everything before the quoted command. */
  function BeforeCommand(t: Template, w: Wrapped): string {
    (if w.measure then t.open + Url(t, w.base, w.token, t.startEnd, t.afterStart) else "") + t.shell
  }

  lemma UrlIsPlain(t: Template, base: string, token: string, end: string, rest: string)
    requires Sound(t) && BaseOk(base) && TokenOk(token) && Plain(end) && Plain(rest)
    ensures Plain(Url(t, base, token, end, rest))
  {
    BaseHasNoQuote(base);
    TokenHasNoQuote(token);
  }

  lemma WrapperIsPlain(t: Template, w: Wrapped)
    requires Sound(t) && Shaped(w)
    ensures Plain(BeforeCommand(t, w)) && Plain(AfterCommand(t, w)) && AfterCommand(t, w) != "" && BeforeCommand(t, w) != ""
  {
    UrlIsPlain(t, w.base, w.token, t.startEnd, t.afterStart);
    UrlIsPlain(t, w.base, w.token, t.rcEnd, t.exit);
  }

  lemma RestAppend(t: Template, base: string, token: string, end: string, a: string, b: string)
    ensures Url(t, base, token, end, a + b) == Url(t, base, token, end, a) + b
  {}

  lemma ComposeParts(t: Template, w: Wrapped)
    ensures Compose(t, WithoutStdin(w)) == BeforeCommand(t, w) + (Escape(w.cmdPart) + AfterCommand(t, w))
  {
    var middle := Escape(w.cmdPart) + AfterCommand(t, w);
    assert t.exit + "" == t.exit;
    assert Body(t, WithoutStdin(w)) == t.shell + middle;
    if w.measure {
      Regroup(t.afterStart, t.shell, middle);
      RestAppend(t, w.base, w.token, t.startEnd, t.afterStart, t.shell + middle);
      var url := Url(t, w.base, w.token, t.startEnd, t.afterStart);
      Regroup(t.open, url, t.shell + middle);
      Regroup(t.open + url, t.shell, middle);
    } else {
      assert "" + t.shell == t.shell;
    }
  }

  lemma ScanOfWrapper(before: string, cmd: string, after: string)
    requires Plain(before) && Plain(after) && after != "" && before != "" && Scan(cmd, false).Some?
    ensures Scan(before + (Escape(cmd) + after), false) == Some(false)
  {
    ScanAppend(before, Escape(cmd) + after, false);
    ScanPlain(before, false);
    ScanAppend(Escape(cmd), after, false);
    ScanEscape(cmd, false);
    ScanPlain(after, Scan(cmd, false).value);
  }

  /** The first unescaped `%` of the wrapped command starts exactly the original stdin part. */
  lemma WrappedSplitsAtStdin(t: Template, command: string, base: string, token: string, measure: bool)
    requires Sound(t) && Shaped(Parts(command, base, token, measure))
    ensures var w := Parts(command, base, token, measure);
      SplitRaw(Compose(t, w)) == (Compose(t, WithoutStdin(w)), w.stdinPart)
  {
    var w := Parts(command, base, token, measure);
    SplitRawScans(command);
    WrapperIsPlain(t, w);
    ComposeParts(t, w);
    ComposeEndsWithStdin(t, w);
    ScanOfWrapper(BeforeCommand(t, w), w.cmdPart, AfterCommand(t, w));
    ScanSplits(Compose(t, WithoutStdin(w)), w.stdinPart);
  }

  // ---- What the shell makes of the quoted command -------------------------------------------------------

  /** One word as the POSIX shell reads it (section 2.2 of XCU chapter 2 in POSIX.1-2017), inside
      single quotes or not: what it stands for, and the text after it. A blank or a semicolon
      ends it. None if a quote is left open. */
  function ReadWord(s: string, quoted: bool): Option<(string, string)>
    decreases |s|
  {
    if quoted then
      if s == "" then None
      else if s[0] == '\'' then ReadWord(s[1..], false)
      else Prepend(s[0], ReadWord(s[1..], true))
    else if s == "" || s[0] == ' ' || s[0] == ';' then Some(("", s))
    else if s[0] == '\'' then ReadWord(s[1..], true)
    else if s[0] == '\\' && |s| >= 2 then Prepend(s[1], ReadWord(s[2..], false))
    else Prepend(s[0], ReadWord(s[1..], false))
  }

  function Prepend(c: char, r: Option<(string, string)>): Option<(string, string)> {
    match r case None => None case Some((word, rest)) => Some(([c] + word, rest))
  }

  lemma WordOfQuotedQuote(rest: string)
    ensures ReadWord(QUOTED_QUOTE + rest, true) == Prepend('\'', ReadWord(rest, true))
  {
    var s := QUOTED_QUOTE + rest;
    assert s[1..][0] == '\\' && s[1..][1] == '\'' && s[1..][2..][0] == '\'';
    assert s[1..][2..][1..] == rest;
    assert ReadWord(s, true) == ReadWord(s[1..], false) == Prepend('\'', ReadWord(s[1..][2..], false));
    assert ReadWord(s[1..][2..], false) == ReadWord(rest, true);
  }

  /** Single-quoted by `Escape`, any text is read as itself. */
  lemma {:induction false} WordOfEscape(s: string, rest: string)
    requires rest != "" && rest[0] == ';'
    ensures ReadWord(Escape(s) + ("'" + rest), true) == Some((s, rest))
  {
    var close := "'" + rest;
    if s == "" {
      assert Escape(s) + close == close && close[1..] == rest;
    } else {
      EscapeStep(s, close);
      WordOfEscape(s[1..], rest);
      var more := Escape(s[1..]) + close;
      if s[0] == '\'' {
        WordOfQuotedQuote(more);
      } else {
        assert ([s[0]] + more)[1..] == more;
      }
      assert [s[0]] + s[1..] == s;
    }
  }

  /** The argument of `-c`, after the shell has removed the quotes, is the command part, and the
      word ends where the wrapper goes on. */
  lemma ShellRunsTheCommand(t: Template, w: Wrapped)
    requires Sound(t) && Shaped(w)
    ensures ReadWord("'" + (Escape(w.cmdPart) + AfterCommand(t, w)), false) == Some((w.cmdPart, AfterCommand(t, w)[1..]))
  {
    var after := AfterCommand(t, w);
    assert after == "'" + after[1..] && after[1..][0] == ';';
    WordOfEscape(w.cmdPart, after[1..]);
    assert ("'" + (Escape(w.cmdPart) + after))[1..] == Escape(w.cmdPart) + ("'" + after[1..]);
  }

  // ---- cron's own rule -----------------------------------------------------------------------------------

  /** What cron runs and what it feeds it. */
  datatype Job = Job(command: string, stdin: Option<string>)

  predicate EscapesPercent(s: string) {
    |s| >= 2 && s[0] == '\\' && s[1] == '%'
  }

  /** The command up to the first `%` that has no backslash before it, with `\%` read as `%`. */
  function CronCommand(s: string): string {
    if s == "" || s[0] == '%' then ""
    else if EscapesPercent(s) then "%" + CronCommand(s[2..])
    else [s[0]] + CronCommand(s[1..])
  }

  /** What follows that `%`. */
  function CronRest(s: string): Option<string> {
    if s == "" then None
    else if s[0] == '%' then Some(s[1..])
    else if EscapesPercent(s) then CronRest(s[2..])
    else CronRest(s[1..])
  }

  /** Input text: each further `%` is a newline. */
  function CronInput(s: string): string {
    if s == "" then ""
    else if EscapesPercent(s) then "%" + CronInput(s[2..])
    else (if s[0] == '%' then "\n" else [s[0]]) + CronInput(s[1..])
  }

  function CronJob(s: string): Job {
    Job(CronCommand(s), if CronRest(s).Some? then Some(CronInput(CronRest(s).value) + "\n") else None)
  }

  /** What has been read, and what is still to be read, make up the job. */
  ghost predicate Reads(whole: string, cmd: string, stdin: Option<string>, rest: string) {
    if stdin.None? then CronCommand(whole) == cmd + CronCommand(rest) && CronRest(whole) == CronRest(rest)
    else CronCommand(whole) == cmd && CronRest(whole).Some? && CronInput(CronRest(whole).value) == stdin.value + CronInput(rest)
  }

  lemma ReadsStep(whole: string, cmd: string, stdin: Option<string>, rest: string)
    requires rest != "" && Reads(whole, cmd, stdin, rest)
    ensures EscapesPercent(rest) && stdin.None? ==> Reads(whole, cmd + "%", stdin, rest[2..])
    ensures EscapesPercent(rest) && stdin.Some? ==> Reads(whole, cmd, Some(stdin.value + "%"), rest[2..])
    ensures rest[0] == '%' && stdin.None? ==> Reads(whole, cmd, Some(""), rest[1..])
    ensures rest[0] == '%' && stdin.Some? ==> Reads(whole, cmd, Some(stdin.value + "\n"), rest[1..])
    ensures !EscapesPercent(rest) && rest[0] != '%' && stdin.None? ==> Reads(whole, cmd + [rest[0]], stdin, rest[1..])
    ensures !EscapesPercent(rest) && rest[0] != '%' && stdin.Some? ==> Reads(whole, cmd, Some(stdin.value + [rest[0]]), rest[1..])
  {
    if stdin.None? {
      if EscapesPercent(rest) { Regroup(cmd, "%", CronCommand(rest[2..])); }
      else if rest[0] != '%' { Regroup(cmd, [rest[0]], CronCommand(rest[1..])); }
      else { assert "" + CronInput(rest[1..]) == CronInput(rest[1..]) && cmd + "" == cmd; }
    } else {
      if EscapesPercent(rest) { Regroup(stdin.value, "%", CronInput(rest[2..])); }
      else if rest[0] == '%' { Regroup(stdin.value, "\n", CronInput(rest[1..])); }
      else { Regroup(stdin.value, [rest[0]], CronInput(rest[1..])); }
    }
  }

  method SplitCronCommand(command: string) returns (job: Job)
    ensures job == CronJob(command)
  {
    var cmd := "";
    var stdin: Option<string> := None;
    var i := 0;
    assert command[0..] == command && "" + CronCommand(command) == CronCommand(command);
    while i < |command|
      invariant 0 <= i <= |command|
      invariant Reads(command, cmd, stdin, command[i..])
    {
      var rest := command[i..];
      ReadsStep(command, cmd, stdin, rest);
      if command[i] == '\\' && i + 1 < |command| && command[i + 1] == '%' {
        assert EscapesPercent(rest) && rest[2..] == command[i + 2..];
        if stdin.None? { cmd := cmd + "%"; } else { stdin := Some(stdin.value + "%"); }
        i := i + 2;
      } else {
        assert !EscapesPercent(rest) && rest[1..] == command[i + 1..];
        if command[i] == '%' {
          stdin := if stdin.None? then Some("") else Some(stdin.value + "\n");
        } else if stdin.None? {
          cmd := cmd + [command[i]];
        } else {
          stdin := Some(stdin.value + [command[i]]);
        }
        i := i + 1;
      }
    }
    assert command[i..] == "" && cmd + "" == cmd;
    if stdin.None? { return Job(cmd, None); }
    assert stdin.value + "" == stdin.value;
    return Job(cmd, Some(stdin.value + "\n"));
  }

  // ---- When wrapping preserves what cron runs ---------------------------------------------------------------

  /** No character that ends the first text escapes the first `%` of the second. */
  predicate Apart(a: string, b: string) {
    a != "" && b != "" && b[0] == '%' ==> a[|a| - 1] != '\\'
  }

  lemma {:induction false} CronAppend(a: string, b: string)
    requires CronRest(a).None? && Apart(a, b)
    ensures CronCommand(a + b) == CronCommand(a) + CronCommand(b) && CronRest(a + b) == CronRest(b)
    decreases |a|
  {
    if a == "" {
      assert a + b == b && "" + CronCommand(b) == CronCommand(b);
    } else {
      var whole := a + b;
      if EscapesPercent(a) {
        assert whole[2..] == a[2..] + b;
        assert whole[0] == a[0] && whole[1] == a[1];
        CronAppend(a[2..], b);
        Regroup("%", CronCommand(a[2..]), CronCommand(b));
      } else {
        assert whole[1..] == a[1..] + b && whole[0] == a[0];
        if |a| == 1 && b != "" { assert whole[1] == b[0]; }
        CronAppend(a[1..], b);
        Regroup([a[0]], CronCommand(a[1..]), CronCommand(b));
      }
    }
  }

  lemma {:induction false} CronOfPlain(s: string)
    requires Plain(s)
    ensures CronCommand(s) == s && CronRest(s).None?
  {
    if s != "" {
      CronOfPlain(s[1..]);
      assert [s[0]] + s[1..] == s;
    }
  }

  /** Where the raw split sees no `%`, cron sees none. */
  lemma {:induction false} ScannedIsCommand(s: string, esc: bool)
    requires Scan(s, esc).Some? && !(esc && s != "" && s[0] == '%')
    ensures CronRest(s).None?
    decreases |s|
  {
    if s != "" {
      if EscapesPercent(s) {
        assert s[1..][0] == '%' && s[1..][1..] == s[2..];
        ScannedIsCommand(s[2..], false);
      } else {
        if |s| > 1 { assert s[1..][0] == s[1]; }
        ScannedIsCommand(s[1..], if esc then false else s[0] == '\\');
      }
    }
  }

  lemma CronOfQuotedQuote()
    ensures CronCommand(QUOTED_QUOTE) == QUOTED_QUOTE && CronRest(QUOTED_QUOTE).None?
  {
    var q := QUOTED_QUOTE;
    assert q[1..] == "\\''" && q[1..][1..] == "''" && q[1..][1..][1..] == "'" && q[1..][1..][1..][1..] == "";
    assert CronCommand("'") == "'" + "";
    assert CronCommand("''") == "'" + "'";
  }

  /** Quoting commutes with cron's reading of the command. */
  lemma {:induction false} CronOfEscape(s: string)
    requires CronRest(s).None?
    ensures CronCommand(Escape(s)) == Escape(CronCommand(s)) && CronRest(Escape(s)).None?
    decreases |s|
  {
    if s != "" {
      if EscapesPercent(s) {
        CronOfEscape(s[2..]);
        assert s[1..][0] == '%' && s[1..][1..] == s[2..];
        var e := Escape(s);
        assert Escape(s[1..]) == "%" + Escape(s[1..][1..]);
        assert e == "\\" + ("%" + Escape(s[2..]));
        assert e[2..] == Escape(s[2..]) && EscapesPercent(e);
        var c := "%" + CronCommand(s[2..]);
        assert c[1..] == CronCommand(s[2..]);
      } else {
        CronOfEscape(s[1..]);
        var head := if s[0] == '\'' then QUOTED_QUOTE else [s[0]];
        var c := [s[0]] + CronCommand(s[1..]);
        assert c[1..] == CronCommand(s[1..]);
        if s[0] == '\'' { CronOfQuotedQuote(); } else { CronOfOne(s[0]); }
        if Escape(s[1..]) != "" { EscapeHead(s[1..]); }
        CronAppend(head, Escape(s[1..]));
      }
    }
  }

  lemma CronOfOne(c: char)
    requires c != '%'
    ensures CronCommand([c]) == [c] && CronRest([c]).None?
  {
    assert [c][1..] == "";
  }

  lemma EscapeHead(s: string)
    requires s != ""
    ensures Escape(s) != "" && Escape(s)[0] == s[0]
  {}

  /** The stdin part starts where cron, too, sees the command end. */
  predicate SplitsAlike(w: Wrapped) {
    w.stdinPart == "" || w.cmdPart == "" || w.cmdPart[|w.cmdPart| - 1] != '\\'
  }

  lemma CronOfWrapper(t: Template, w: Wrapped)
    requires Sound(t) && Shaped(w) && Scan(w.cmdPart, false).Some?
    ensures var all := Compose(t, WithoutStdin(w));
      && CronCommand(all) == Compose(t, WithoutStdin(w.(cmdPart := CronCommand(w.cmdPart))))
      && CronRest(all).None? && all != "" && all[|all| - 1] != '\\'
  {
    var before, after := BeforeCommand(t, w), AfterCommand(t, w);
    var e := Escape(w.cmdPart);
    WrapperIsPlain(t, w);
    ComposeParts(t, w);
    ComposeParts(t, w.(cmdPart := CronCommand(w.cmdPart)));
    ScannedIsCommand(w.cmdPart, false);
    CronOfEscape(w.cmdPart);
    CronOfPlain(before);
    CronOfPlain(after);
    assert after[0] == '\'';
    CronAppend(e, after);
    CronAppend(before, e + after);
    var all := before + (e + after);
    assert all[|all| - 1] == after[|after| - 1];
  }

  lemma CronOfWrapped(t: Template, w: Wrapped)
    requires Sound(t) && Shaped(w) && Scan(w.cmdPart, false).Some?
    ensures CronJob(Compose(t, w)) ==
      Job(Compose(t, WithoutStdin(w.(cmdPart := CronCommand(w.cmdPart)))),
          if w.stdinPart == "" then None else Some(CronInput(w.stdinPart[1..]) + "\n"))
  {
    CronOfWrapper(t, w);
    ComposeEndsWithStdin(t, w);
    var all := Compose(t, WithoutStdin(w));
    CronAppend(all, w.stdinPart);
    assert CronCommand(w.stdinPart) == "" && CronCommand(all) + "" == CronCommand(all);
  }

  lemma {:induction false} RestIsShorter(s: string)
    requires CronRest(s).Some?
    ensures |CronInput(s)| > |CronInput(CronRest(s).value)|
    decreases |s|
  {
    if s[0] != '%' {
      RestIsShorter(if EscapesPercent(s) then s[2..] else s[1..]);
    }
  }

  lemma {:induction false} EscapedPercentIsSkipped(cmd: string, stdin: string)
    requires CronRest(cmd).None? && cmd != "" && cmd[|cmd| - 1] == '\\' && stdin != "" && stdin[0] == '%'
    ensures CronRest(cmd + stdin) == CronRest(stdin[1..])
    decreases |cmd|
  {
    var whole := cmd + stdin;
    if |cmd| == 1 {
      assert EscapesPercent(whole) && whole[2..] == stdin[1..];
    } else if EscapesPercent(cmd) {
      assert whole[2..] == cmd[2..] + stdin && EscapesPercent(whole);
      EscapedPercentIsSkipped(cmd[2..], stdin);
    } else {
      assert whole[1..] == cmd[1..] + stdin && whole[0] == cmd[0] && whole[1] == cmd[1];
      EscapedPercentIsSkipped(cmd[1..], stdin);
    }
  }

  /** What cron should run for a wrapped command: the wrapper around the command it ran before,
      fed what it was fed before. */
  ghost predicate Preserves(t: Template, w: Wrapped) {
    CronJob(Compose(t, w)) ==
      Job(Compose(t, WithoutStdin(w.(cmdPart := CronCommand(Original(w))))), CronJob(Original(w)).stdin)
  }

  /** Wrapping preserves what cron runs exactly when no backslash stands before the `%` at which
      the wrapper split the command. */
  lemma WrappingPreservesIff(t: Template, command: string, base: string, token: string, measure: bool)
    requires Sound(t) && Shaped(Parts(command, base, token, measure))
    ensures Preserves(t, Parts(command, base, token, measure)) <==> SplitsAlike(Parts(command, base, token, measure))
  {
    var w := Parts(command, base, token, measure);
    SplitRawParts(command);
    SplitRawScans(command);
    ScannedIsCommand(w.cmdPart, false);
    CronOfWrapped(t, w);
    if SplitsAlike(w) {
      CronAppend(w.cmdPart, w.stdinPart);
      assert CronCommand(w.stdinPart) == "" && CronCommand(w.cmdPart) + "" == CronCommand(w.cmdPart);
    } else {
      EscapedPercentIsSkipped(w.cmdPart, w.stdinPart);
      var rest := CronRest(w.stdinPart[1..]);
      var fed := CronInput(w.stdinPart[1..]) + "\n";
      if rest.Some? {
        RestIsShorter(w.stdinPart[1..]);
        assert |fed| > |CronInput(rest.value) + "\n"|;
      }
      assert CronJob(Compose(t, w)).stdin == Some(fed) && CronJob(Original(w)).stdin != Some(fed);
    }
  }

  /** Two backslashes before a `%`: the wrapper splits there, cron does not. */
  lemma DoubledBackslashIsMisread(t: Template, word: string, input: string, base: string, token: string, measure: bool)
    requires Sound(t) && BaseOk(base) && TokenOk(token) && word != "" && Plain(word)
    ensures var w := Parts(word + "\\\\" + ("%" + input), base, token, measure);
      Shaped(w) && !Preserves(t, w)
  {
    var cmd, stdin := word + "\\\\", "%" + input;
    ScanAppend(word, "\\\\", false);
    ScanPlain(word, false);
    assert "\\\\"[1..] == "\\";
    ScanOne('\\', true);
    ScanSplits(cmd, stdin);
    WrappingPreservesIff(t, cmd + stdin, base, token, measure);
  }

  // ---- The fixed text itself -----------------------------------------------------------------------------------

  lemma PlainThree(a: string, b: string, c: string)
    requires Plain(a) && Plain(b) && Plain(c)
    ensures Plain(a + b + c)
  {}

  lemma SendIsPlain()
    ensures Plain(SEND)
  {
    PlainThree("curl -fsS -m 10 ", "--retry 3 -o /dev/null ", "\"$u\"");
    PlainThree("wget -q -T 10 ", "-O /dev/null ", "\"$u\"");
    PlainThree("(", CURL, " || ");
    PlainThree("(" + CURL + " || ", WGET, ") >/dev/null 2>&1");
  }

  lemma PiecesArePlain()
    ensures Plain(TEMPLATE.afterStart) && Plain(TEMPLATE.exit)
  {
    SendIsPlain();
    PlainAppend("; ", SEND);
    PlainAppend("; " + SEND, "; ");
    PlainAppend("; " + SEND, "; exit $rc");
  }

  lemma ShortPieces()
    ensures Plain("u=\"") && Plain("/api/v1/ping/") && Plain("/start") && Plain("\"${SHELL:-/bin/sh}\" -c '") && Plain("'; rc=$?; ") && Plain("/$rc")
    ensures '"' !in "/api/v1/ping/" && '"' !in "/start" && '"' !in "/$rc"
  {}

  lemma TemplateIsSound()
    ensures Sound(TEMPLATE)
  {
    PiecesArePlain();
    ShortPieces();
    var t := TEMPLATE;
    assert t.open[0] == 'u' && t.shell[0] == '"';
    assert t.shell[|t.shell| - 1] == '\'' && t.rc[0] == '\'' && t.rc[1] == ';';
  }
}
