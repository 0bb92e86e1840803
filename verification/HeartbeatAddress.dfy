/** Which ping addresses are accepted, and why a command is refused a wrapper. */
module HeartbeatAddress {
  import opened Options
  import opened Text
  import opened HeartbeatWrap

  // ---- Addresses --------------------------------------------------------------------------

  predicate LetterOrDigit(c: char) {
    'a' <= c <= 'z' || 'A' <= c <= 'Z' || '0' <= c <= '9'
  }

  ghost predicate IsHost(s: string) {
    s != "" && forall i :: 0 <= i < |s| ==> LetterOrDigit(s[i]) || s[i] == '.' || s[i] == '-'
  }

  ghost predicate IsPort(s: string) {
    s == "" || (|s| > 1 && s[0] == ':' && forall i :: 1 <= i < |s| ==> '0' <= s[i] <= '9')
  }

  ghost predicate IsPath(s: string) {
    s == "" || (s[0] == '/' && forall i :: 1 <= i < |s| ==>
      LetterOrDigit(s[i]) || s[i] == '.' || s[i] == '-' || s[i] == '_' || s[i] == '~' || s[i] == '/')
  }

  /** Scheme, host, port and path. */
  ghost predicate SpellsBase(s: string, scheme: string, host: string, port: string, path: string) {
    && s == scheme + (host + (port + path))
    && (scheme == "http://" || scheme == "https://")
    && IsHost(host) && IsPort(port) && IsPath(path)
  }

  lemma {:induction false} HostRunOf(host: string, tail: string)
    requires IsHost(host) && (tail == "" || !IsHostChar(tail[0]))
    ensures HostRun(host + tail) == |host|
  {
    var s := host + tail;
    assert s[0] == host[0] && s[1..] == host[1..] + tail;
    if |host| == 1 {
      assert s[1..] == tail;
    } else {
      HostRunOf(host[1..], tail);
    }
  }

  lemma {:induction false} DigitRunOf(digits: string, tail: string)
    requires (forall i :: 0 <= i < |digits| ==> '0' <= digits[i] <= '9') && (tail == "" || !IsDigit(tail[0]))
    ensures DigitRun(digits + tail) == |digits|
  {
    if digits == "" {
      assert digits + tail == tail;
    } else {
      var s := digits + tail;
      assert s[0] == digits[0] && s[1..] == digits[1..] + tail;
      DigitRunOf(digits[1..], tail);
    }
  }

  lemma {:induction false} HostRunIsHost(s: string)
    ensures forall i :: 0 <= i < HostRun(s) ==> IsHostChar(s[i])
  {
    if s != "" && IsHostChar(s[0]) {
      HostRunIsHost(s[1..]);
      assert forall i :: 0 < i < HostRun(s) ==> s[i] == s[1..][i - 1];
    }
  }

  lemma {:induction false} DigitRunIsDigits(s: string)
    ensures forall i :: 0 <= i < DigitRun(s) ==> IsDigit(s[i])
  {
    if s != "" && IsDigit(s[0]) {
      DigitRunIsDigits(s[1..]);
      assert forall i :: 0 < i < DigitRun(s) ==> s[i] == s[1..][i - 1];
    }
  }

  lemma PathIff(s: string)
    ensures PathOk(s) <==> IsPath(s)
  {}

  lemma TailOk(port: string, path: string)
    requires IsPort(port) && IsPath(path)
    ensures PortAndPathOk(port + path)
    ensures port + path == "" || !IsHostChar((port + path)[0])
  {
    var s := port + path;
    PathIff(path);
    if port == "" {
      assert s == path;
    } else {
      var digits := port[1..];
      assert s[0] == ':' && s[1..] == digits + path;
      DigitRunOf(digits, path);
      assert s[1 + |digits|..] == path;
    }
  }

  lemma TailParts(s: string) returns (port: string, path: string)
    requires PortAndPathOk(s)
    ensures s == port + path && IsPort(port) && IsPath(path)
  {
    if s != "" && s[0] == ':' {
      var n := DigitRun(s[1..]);
      DigitRunIsDigits(s[1..]);
      port, path := s[..1 + n], s[1 + n..];
      assert forall i :: 1 <= i <= n ==> s[i] == s[1..][i - 1];
      PathIff(path);
    } else {
      port, path := "", s;
      PathIff(s);
    }
  }

  lemma HttpsHasAnS(s: string)
    ensures StartsWith(s, "https://") ==> s[4] == 's'
  {
    if StartsWith(s, "https://") { assert s[..8][4] == "https://"[4]; }
  }

  lemma SchemeOf(scheme: string, rest: string)
    requires scheme == "http://" || scheme == "https://"
    ensures AfterScheme(scheme + rest) == Some(rest)
  {
    var s := scheme + rest;
    if scheme == "http://" {
      HttpsHasAnS(s);
      assert s[4] == ':';
      assert StartsWith(s, "http://") && s[7..] == rest;
    } else {
      assert StartsWith(s, "https://") && s[8..] == rest;
    }
  }

  lemma SpelledIsBase(s: string, scheme: string, host: string, port: string, path: string)
    requires SpellsBase(s, scheme, host, port, path)
    ensures BaseOk(s)
  {
    var rest := host + (port + path);
    SchemeOf(scheme, rest);
    TailOk(port, path);
    HostRunOf(host, port + path);
    assert rest[|host|..] == port + path;
  }

  lemma BaseIsSpelled(s: string) returns (scheme: string, host: string, port: string, path: string)
    requires BaseOk(s)
    ensures SpellsBase(s, scheme, host, port, path)
  {
    scheme := if StartsWith(s, "https://") then "https://" else "http://";
    var rest := AfterScheme(s).value;
    assert s == scheme + rest;
    HostRunIsHost(rest);
    host := rest[..HostRun(rest)];
    port, path := TailParts(rest[HostRun(rest)..]);
    assert rest == host + rest[HostRun(rest)..];
  }

  /** The addresses that are accepted are exactly those spelled so: no query, no credentials, no other
      characters. */
  lemma BaseIff(s: string)
    ensures BaseOk(s) <==> exists scheme, host, port, path :: SpellsBase(s, scheme, host, port, path)
  {
    if BaseOk(s) {
      var scheme, host, port, path := BaseIsSpelled(s);
    }
    if exists scheme, host, port, path :: SpellsBase(s, scheme, host, port, path) {
      var scheme, host, port, path :| SpellsBase(s, scheme, host, port, path);
      SpelledIsBase(s, scheme, host, port, path);
    }
  }

  ghost predicate AllSlashes(s: string) {
    forall i :: 0 <= i < |s| ==> s[i] == '/'
  }

  ghost predicate BareOf(s: string, base: string) {
    |base| <= |s| && s[..|base|] == base && AllSlashes(s[|base|..]) && (base != "" ==> base[|base| - 1] != '/')
  }

  lemma EndsInSlash(s: string, base: string)
    requires BareOf(s, base) && |base| < |s|
    ensures s[|s| - 1] == '/'
  {
    assert s[|base|..][|s| - |base| - 1] == s[|s| - 1];
  }

  lemma {:induction false} DropSlashesIff(s: string, base: string)
    ensures DropSlashes(s) == base <==> BareOf(s, base)
  {
    if s != "" && s[|s| - 1] == '/' {
      var init := s[..|s| - 1];
      DropSlashesIff(init, base);
      if BareOf(s, base) {
        assert |base| < |s|;
        assert init[..|base|] == base && init[|base|..] == s[|base|..][..|init| - |base|];
      }
      if BareOf(init, base) {
        assert s[|base|..] == init[|base|..] + "/";
      }
    } else {
      if BareOf(s, base) && |base| < |s| { EndsInSlash(s, base); }
      assert s[..|s|] == s;
    }
  }

  /** An address is normalized by trimming it and dropping the slashes at its end, and accepted exactly when
      that leaves an address. */
  lemma NormalizedIff(s: string, base: string)
    ensures NormalizePingBase(s) == Some(base) <==> BareOf(Trim(s), base) && BaseOk(base)
  {
    DropSlashesIff(Trim(s), base);
  }

  // ---- Tokens and commands --------------------------------------------------------------------

  /** Why a command is not wrapped, one reason at a time: the address is none; the token is not 43 letters,
      digits, dashes and underscores; the command holds a line break or a NUL; it is wrapped already; there is
      nothing before its first percent sign; or the line would have more than 990 units. Otherwise it is. */
  lemma WrapSays(t: Template, command: string, pingBase: string, token: string, measure: bool, linePrefixLength: nat)
    ensures var r := Wrap(t, command, pingBase, token, measure, linePrefixLength);
      var base := exists b :: BareOf(Trim(pingBase), b) && BaseOk(b);
      var fit := |token| == 43 && forall i :: 0 <= i < 43 ==> LetterOrDigit(token[i]) || token[i] == '-' || token[i] == '_';
      var clean := '\r' !in command && '\n' !in command && '\0' !in command;
      var wrapped := Unwrap(t, command).Some?;
      var blank := Trim(SplitRaw(command).0) == "";
      && (r == Rejected(InvalidBase) <==> !base)
      && (r == Rejected(InvalidToken) <==> base && !fit)
      && (r == Rejected(InvalidCommand) <==> base && fit && (!clean || (!wrapped && blank)))
      && (r == Rejected(AlreadyWrapped) <==> base && fit && clean && wrapped)
      && (r.Ok? || r == Rejected(LineTooLong) <==> base && fit && clean && !wrapped && !blank)
      && (r.Ok? ==> linePrefixLength + JsLength(r.command) <= 990)
      && (r == Rejected(LineTooLong) ==>
            linePrefixLength + JsLength(Compose(t, Parts(command, NormalizePingBase(pingBase).value, token, measure))) > 990)
  {
    BaseExists(pingBase);
    TokenIff(token);
    CleanIff(command);
  }

  lemma BaseExists(pingBase: string)
    ensures NormalizePingBase(pingBase).Some? <==> exists b :: BareOf(Trim(pingBase), b) && BaseOk(b)
  {
    if NormalizePingBase(pingBase).Some? {
      NormalizedIff(pingBase, NormalizePingBase(pingBase).value);
    }
    if exists b :: BareOf(Trim(pingBase), b) && BaseOk(b) {
      var b :| BareOf(Trim(pingBase), b) && BaseOk(b);
      NormalizedIff(pingBase, b);
    }
  }

  lemma TokenIff(token: string)
    ensures TokenOk(token) <==>
      |token| == 43 && forall i :: 0 <= i < 43 ==> LetterOrDigit(token[i]) || token[i] == '-' || token[i] == '_'
  {}

  lemma CleanIff(command: string)
    ensures NoneRefused(command) <==> '\r' !in command && '\n' !in command && '\0' !in command
  {}
}
