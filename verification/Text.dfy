/** Text helpers shared by the crontab modules: JavaScript whitespace, `trim`,
    `split("\n")` and the joins that undo them. Lines and commands are `string`s. */
module Text {
  /** What `\s` matches and `trim()` removes in JavaScript. */
  predicate IsSpace(c: char) {
    c == ' ' || '\t' <= c <= '\r' || c == '\U{00A0}' || c == '\U{1680}' || '\U{2000}' <= c <= '\U{200A}'
    || c == '\U{2028}' || c == '\U{2029}' || c == '\U{202F}' || c == '\U{205F}' || c == '\U{3000}' || c == '\U{FEFF}'
  }

  /** The blanks cron's own tokeniser skips. */
  predicate IsBlank(c: char) {
    c == ' ' || c == '\t'
  }

  predicate IsDigit(c: char) {
    '0' <= c <= '9'
  }

  function DigitValue(c: char): nat {
    if IsDigit(c) then c as int - '0' as int else 0
  }

  /** A run of decimal digits as a number. */
  function Number(digits: string): nat {
    if digits == "" then 0 else Number(digits[..|digits| - 1]) * 10 + DigitValue(digits[|digits| - 1])
  }

  function Spaces(s: string): (n: nat)
    ensures n <= |s|
  {
    if s == "" || !IsSpace(s[0]) then 0 else 1 + Spaces(s[1..])
  }

  function SpacesAtEnd(s: string): (n: nat)
    ensures n <= |s|
  {
    if s == "" || !IsSpace(s[|s| - 1]) then 0 else 1 + SpacesAtEnd(s[..|s| - 1])
  }

  function TrimStart(s: string): string {
    s[Spaces(s)..]
  }

  function TrimEnd(s: string): string {
    s[..|s| - SpacesAtEnd(s)]
  }

  function Trim(s: string): string {
    TrimEnd(TrimStart(s))
  }

  /** A string that `trim` leaves alone. */
  predicate Trimmed(s: string) {
    s == "" || (!IsSpace(s[0]) && !IsSpace(s[|s| - 1]))
  }

  lemma TrimStartStep(s: string)
    requires s != "" && IsSpace(s[0])
    ensures TrimStart(s) == TrimStart(s[1..])
  {
    assert s[1..][Spaces(s[1..])..] == s[1 + Spaces(s[1..])..];
  }

  lemma TrimOfTrimmed(s: string)
    requires Trimmed(s)
    ensures Trim(s) == s
  {}

  lemma {:induction false} SpacesEnd(s: string)
    ensures Spaces(s) < |s| ==> !IsSpace(s[Spaces(s)])
  {
    if s != "" && IsSpace(s[0]) { SpacesEnd(s[1..]); }
  }

  lemma {:induction false} SpacesAtEndEnd(s: string)
    ensures SpacesAtEnd(s) < |s| ==> !IsSpace(s[|s| - 1 - SpacesAtEnd(s)])
  {
    if s != "" && IsSpace(s[|s| - 1]) { SpacesAtEndEnd(s[..|s| - 1]); }
  }

  lemma TrimIsTrimmed(s: string)
    ensures Trimmed(Trim(s))
    ensures Trim(Trim(s)) == Trim(s)
  {
    var t := TrimStart(s);
    SpacesEnd(s);
    SpacesAtEndEnd(t);
    TrimOfTrimmed(Trim(s));
  }

  lemma Regroup<T>(a: seq<T>, b: seq<T>, c: seq<T>)
    ensures a + (b + c) == (a + b) + c
  {}

  function StartsWith(s: string, prefix: string): bool {
    |prefix| <= |s| && s[..|prefix|] == prefix
  }

  function EndsWith(s: string, suffix: string): bool {
    |suffix| <= |s| && s[|s| - |suffix|..] == suffix
  }

  /** `split("\n")`: always at least one piece. */
  function SplitAtNewlines(text: string): (lines: seq<string>)
    ensures |lines| >= 1
    ensures forall i :: 0 <= i < |lines| ==> '\n' !in lines[i]
  {
    if text == "" then [""]
    else
      var rest := SplitAtNewlines(text[1..]);
      if text[0] == '\n' then [""] + rest else [[text[0]] + rest[0]] + rest[1..]
  }

  /** Lines of a file: one trailing newline ends the last line instead of starting another. */
  function SplitLines(text: string): (lines: seq<string>)
    ensures forall i :: 0 <= i < |lines| ==> '\n' !in lines[i]
  {
    if text == "" then []
    else
      var lines := SplitAtNewlines(text);
      if lines[|lines| - 1] == "" then lines[..|lines| - 1] else lines
  }

  /** Every line followed by a newline. */
  function JoinLines(lines: seq<string>): string {
    if lines == [] then "" else lines[0] + "\n" + JoinLines(lines[1..])
  }

  lemma {:induction false} SplitAtNewlinesOfLine(line: string, rest: string)
    requires '\n' !in line
    ensures SplitAtNewlines(line + "\n" + rest) == [line] + SplitAtNewlines(rest)
  {
    var text := line + "\n" + rest;
    if line == "" {
      assert text[1..] == rest;
    } else {
      assert text[1..] == line[1..] + "\n" + rest;
      SplitAtNewlinesOfLine(line[1..], rest);
      assert [line[0]] + line[1..] == line;
    }
  }

  lemma {:induction false} SplitAtNewlinesOfJoin(lines: seq<string>)
    requires forall i :: 0 <= i < |lines| ==> '\n' !in lines[i]
    ensures SplitAtNewlines(JoinLines(lines)) == lines + [""]
  {
    if lines != [] {
      SplitAtNewlinesOfJoin(lines[1..]);
      SplitAtNewlinesOfLine(lines[0], JoinLines(lines[1..]));
    }
  }

  /** Reading back what was written gives the same lines. */
  lemma SplitOfJoin(lines: seq<string>)
    requires forall i :: 0 <= i < |lines| ==> '\n' !in lines[i]
    ensures SplitLines(JoinLines(lines)) == lines
  {
    SplitAtNewlinesOfJoin(lines);
    if lines != [] {
      assert JoinLines(lines)[|lines[0]|] == '\n';
    }
  }

  lemma {:induction false} JoinOfSplitAtNewlines(text: string)
    ensures JoinLines(SplitAtNewlines(text)) == text + "\n"
  {
    if text != "" {
      JoinOfSplitAtNewlines(text[1..]);
      var rest := SplitAtNewlines(text[1..]);
      var lines := SplitAtNewlines(text);
      if text[0] == '\n' {
        assert lines[1..] == rest;
        assert JoinLines(lines) == "\n" + JoinLines(rest);
      } else {
        assert lines[1..] == rest[1..];
        assert JoinLines(lines) == [text[0]] + JoinLines(rest);
      }
      assert text == [text[0]] + text[1..];
    }
  }

  lemma {:induction false} JoinAppend(lines: seq<string>, last: string)
    ensures JoinLines(lines + [last]) == JoinLines(lines) + last + "\n"
  {
    if lines == [] {
      assert lines + [last] == [last];
    } else {
      JoinAppend(lines[1..], last);
      assert (lines + [last])[1..] == lines[1..] + [last];
    }
  }

  /** Writing back what was read: the file itself, with a final newline if it lacked one. */
  lemma JoinOfSplit(text: string)
    ensures JoinLines(SplitLines(text)) == if text == "" || EndsWith(text, "\n") then text else text + "\n"
  {
    if text != "" {
      JoinOfSplitAtNewlines(text);
      var lines := SplitAtNewlines(text);
      var init, last := lines[..|lines| - 1], lines[|lines| - 1];
      assert lines == init + [last];
      JoinAppend(init, last);
      var whole := text + "\n";
      assert whole == JoinLines(init) + last + "\n";
      assert text == whole[..|whole| - 1] == JoinLines(init) + last;
      if last == "" {
        assert text == JoinLines(init);
        JoinEndsWithNewline(init);
      } else {
        assert text[|text| - 1] == last[|last| - 1];
        assert last[|last| - 1] in last;
      }
    }
  }

  lemma {:induction false} JoinEndsWithNewline(lines: seq<string>)
    requires lines != []
    ensures EndsWith(JoinLines(lines), "\n")
  {
    var init := lines[..|lines| - 1];
    assert lines == init + [lines[|lines| - 1]];
    JoinAppend(init, lines[|lines| - 1]);
  }
}
