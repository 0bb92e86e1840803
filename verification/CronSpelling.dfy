/** How environment settings, user names and label lines are spelled, and what a rendered setting reads as. */
module CronSpelling {
  import opened Options
  import opened Text
  import opened CronSchedule
  import opened CronLabels
  import opened CronLines
  import opened CronFormat
  import opened CronFields
  import opened CrontabText

  // ---- Which lines are settings ---------------------------------------------------------------------

  predicate AllSpace(s: string) {
    forall i :: 0 <= i < |s| ==> IsSpace(s[i])
  }

  predicate PlainName(name: string) {
    name != "" && forall i :: 0 <= i < |name| ==> !IsSpace(name[i]) && name[i] != '=' && name[i] != '"' && name[i] != '\''
  }

  /** A name as it is, or between two quotes of one kind that it does not hold. */
  predicate SpellsName(spelled: string, name: string) {
    || (spelled == name && PlainName(name))
    || (spelled == ['"'] + name + ['"'] && '"' !in name)
    || (spelled == ['\''] + name + ['\''] && '\'' !in name)
  }

  /** Whitespace, a name, whitespace, an equals sign, and the value, to the end of the line. */
  predicate SpellsSetting(raw: string, before: string, spelled: string, between: string, name: string, value: string) {
    && raw == before + (spelled + (between + (['='] + value)))
    && AllSpace(before) && SpellsName(spelled, name) && AllSpace(between)
    && '\n' !in value && '\r' !in value && '\U{2028}' !in value && '\U{2029}' !in value
  }

  lemma {:induction false} TrimBefore(space: string, rest: string)
    requires AllSpace(space) && (rest == "" || !IsSpace(rest[0]))
    ensures TrimStart(space + rest) == rest
  {
    if space == "" {
      assert space + rest == rest;
      assert Spaces(rest) == 0;
    } else {
      var s := space + rest;
      assert s[0] == space[0] && s[1..] == space[1..] + rest;
      TrimStartStep(s);
      TrimBefore(space[1..], rest);
    }
  }

  lemma {:induction false} SpacesAreSpace(s: string)
    ensures AllSpace(s[..Spaces(s)]) && s == s[..Spaces(s)] + TrimStart(s)
    ensures TrimStart(s) == "" || !IsSpace(TrimStart(s)[0])
  {
    SpacesEnd(s);
    AllSpaces(s);
  }

  lemma {:induction false} AllSpaces(s: string)
    ensures forall i :: 0 <= i < Spaces(s) ==> IsSpace(s[i])
  {
    if s != "" && IsSpace(s[0]) {
      AllSpaces(s[1..]);
      assert forall i :: 0 < i < Spaces(s) ==> s[i] == s[1..][i - 1];
    }
  }

  lemma OneLineIff(value: string)
    ensures OneLine(value) <==> '\n' !in value && '\r' !in value && '\U{2028}' !in value && '\U{2029}' !in value
  {}

  lemma ValueIff(between: string, value: string, tail: string)
    requires AllSpace(between) && tail == between + (['='] + value)
    ensures EnvValue(tail) == if OneLine(value) then Some(value) else None
  {
    TrimBefore(between, ['='] + value);
    assert (['='] + value)[1..] == value;
  }

  lemma ValueOf(tail: string, value: string) returns (between: string)
    requires EnvValue(tail) == Some(value)
    ensures AllSpace(between) && tail == between + (['='] + value) && OneLine(value)
  {
    between := tail[..Spaces(tail)];
    SpacesAreSpace(tail);
    assert TrimStart(tail) == ['='] + value;
  }

  lemma NameIff(spelled: string, name: string, tail: string, s: string)
    requires SpellsName(spelled, name) && s == spelled + tail && tail != "" && (IsSpace(tail[0]) || tail[0] == '=')
    ensures EnvName(s) == Some((name, tail)) && s != "" && !IsSpace(s[0])
  {
    if spelled == name && PlainName(name) {
      EnvNameOfWord(s, name, tail);
    } else {
      var q := spelled[0];
      assert s[0] == q && s[1..] == name + [q] + tail;
      CutAtFirst(name, q, tail);
    }
  }

  lemma NameOf(s: string, name: string, tail: string) returns (spelled: string)
    requires EnvName(s) == Some((name, tail))
    ensures SpellsName(spelled, name) && s == spelled + tail
  {
    if s[0] == '"' || s[0] == '\'' {
      spelled := [s[0]] + name + [s[0]];
      assert s == [s[0]] + s[1..];
      assert s[1..] == name + [s[0]] + tail;
    } else {
      spelled := name;
      NameRunChars(s);
      assert s == name + tail;
    }
  }

  lemma {:induction false} NameRunChars(s: string)
    ensures forall i :: 0 <= i < |NameRun(s)| ==> IsNameChar(NameRun(s)[i])
  {
    if s != "" && IsNameChar(s[0]) { NameRunChars(s[1..]); }
  }

  lemma SpelledIsSetting(raw: string, before: string, spelled: string, between: string, name: string, value: string)
    requires SpellsSetting(raw, before, spelled, between, name, value)
    ensures EnvOf(raw) == Some((name, value))
  {
    var tail := between + (['='] + value);
    assert tail[0] == if between == "" then '=' else between[0];
    NameIff(spelled, name, tail, spelled + tail);
    TrimBefore(before, spelled + tail);
    OneLineIff(value);
    ValueIff(between, value, tail);
  }

  lemma SettingIsSpelled(raw: string, name: string, value: string) returns (before: string, spelled: string, between: string)
    requires EnvOf(raw) == Some((name, value))
    ensures SpellsSetting(raw, before, spelled, between, name, value)
  {
    before := raw[..Spaces(raw)];
    SpacesAreSpace(raw);
    var tail := EnvName(TrimStart(raw)).value.1;
    spelled := NameOf(TrimStart(raw), name, tail);
    between := ValueOf(tail, value);
    OneLineIff(value);
  }

  /** The lines that are settings are exactly those spelled so. */
  lemma SettingIff(raw: string, name: string, value: string)
    ensures EnvOf(raw) == Some((name, value)) <==>
      exists before, spelled, between :: SpellsSetting(raw, before, spelled, between, name, value)
  {
    if EnvOf(raw) == Some((name, value)) {
      var before, spelled, between := SettingIsSpelled(raw, name, value);
    }
    if exists before, spelled, between :: SpellsSetting(raw, before, spelled, between, name, value) {
      var before, spelled, between :| SpellsSetting(raw, before, spelled, between, name, value);
      SpelledIsSetting(raw, before, spelled, between, name, value);
    }
  }

  // ---- User names -------------------------------------------------------------------------------------

  /** Letters, digits, underscores and dots. */
  predicate NameChar(c: char) {
    'a' <= c <= 'z' || 'A' <= c <= 'Z' || '0' <= c <= '9' || c == '_' || c == '.'
  }

  /** One of these, then these and dashes, and at the end possibly a dollar sign. */
  ghost predicate SpellsUser(s: string, first: char, middle: string, last: string) {
    && s == [first] + middle + last && NameChar(first)
    && (forall c :: c in middle ==> NameChar(c) || c == '-')
    && (|last| == 0 || (|last| == 1 && (NameChar(last[0]) || last[0] == '-' || last[0] == '$')))
    && |middle| + |last| <= 31 && (|middle| > 0 ==> |last| == 1)
  }

  /** User names are spelled so, with thirty-two characters at most. */
  lemma UserNameIff(s: string)
    ensures IsUserName(s) <==>
      exists first, middle, last :: SpellsUser(s, first, middle, last)
  {
    if IsUserName(s) {
      var middle := if |s| > 1 then s[1..|s| - 1] else "";
      var last := if |s| > 1 then s[|s| - 1..] else "";
      assert s == [s[0]] + middle + last;
      forall c | c in middle
        ensures NameChar(c) || c == '-'
      {
        var i :| 0 <= i < |middle| && middle[i] == c;
        assert middle[i] == s[i + 1];
      }
      assert SpellsUser(s, s[0], middle, last);
    }
    if exists first, middle, last :: SpellsUser(s, first, middle, last) {
      var first, middle, last :| SpellsUser(s, first, middle, last);
      forall i | 1 <= i < |s| - 1
        ensures IsNameStart(s[i]) || s[i] == '-'
      {
        assert s[i] == middle[i - 1] && middle[i - 1] in middle;
      }
    }
  }

  // ---- Settings that are rendered -------------------------------------------------------------------

  /** The value stands between two quotes of one kind. */
  predicate IsQuoted(value: string) {
    |value| >= 2 && value[0] == value[|value| - 1] && (value[0] == '"' || value[0] == '\'')
  }

  /** What is written after the name and the equals sign. */
  function WrittenValue(value: string): string {
    if value != "" && Trimmed(value) then value else "\"" + value + "\""
  }

  lemma RenderedIs(name: string, value: string)
    ensures FormatSetting(name, value) == name + ("=" + WrittenValue(value))
  {
    assert name + "=\"" + value + "\"" == name + ("=" + ("\"" + value + "\""));
    assert name + "=" + value == name + ("=" + value);
  }

  lemma ValueReads(name: string, written: string, s: string)
    requires PlainName(name) && OneLine(written) && s == name + ("=" + written)
    ensures EnvOf(s) == Some((name, written))
  {
    var tail := "=" + written;
    assert tail[0] == '=' && tail[1..] == written;
    EnvNameOfWord(s, name, tail);
    assert TrimStart(tail) == tail;
  }

  lemma ValueUnquotes(value: string)
    ensures Unquote(WrittenValue(value)) == value <==> !IsQuoted(value)
  {
    var w := WrittenValue(value);
    if value != "" && Trimmed(value) {
      TrimOfTrimmed(value);
      if IsQuoted(value) { assert |value[1..|value| - 1]| < |value|; }
    } else {
      assert w[0] == '"' && w[|w| - 1] == '"' && w[1..|w| - 1] == value;
      TrimOfTrimmed(w);
    }
  }

  /** A setting that is rendered reads back with its name and value exactly when its value does not itself
      stand in quotes. */
  lemma SettingReadsBackIff(name: string, value: string)
    requires PlainName(name) && OneLine(value)
    ensures EnvOf(FormatSetting(name, value)).Some?
    ensures var (n, v) := EnvOf(FormatSetting(name, value)).value;
      n == name && (Unquote(v) == value <==> !IsQuoted(value))
  {
    RenderedIs(name, value);
    forall i | 0 <= i < |WrittenValue(value)|
      ensures !IsLineEnd(WrittenValue(value)[i])
    {
      if !(value != "" && Trimmed(value)) && 0 < i <= |value| { assert WrittenValue(value)[i] == value[i - 1]; }
    }
    ValueReads(name, WrittenValue(value), FormatSetting(name, value));
    ValueUnquotes(value);
  }

  /** Reading `raw` gives that name and that value. */
  predicate Says(raw: string, name: string, value: string) {
    EnvOf(raw).Some? && EnvOf(raw).value.0 == name && Unquote(EnvOf(raw).value.1) == value
  }

  /** A setting is written as its line was if that still says it, and otherwise so that it reads back exactly
      when its value does not itself stand in quotes. */
  lemma WrittenSettingIff(raw: string, name: string, value: string)
    requires PlainName(name) && OneLine(value)
    ensures Says(raw, name, value) ==> SettingText(raw, name, value) == raw
    ensures Says(SettingText(raw, name, value), name, value) <==> Says(raw, name, value) || !IsQuoted(value)
  {
    SettingReadsBackIff(name, value);
  }

  // ---- Label lines --------------------------------------------------------------------------------------

  /** A heartbeat's id at the end of a label: `hb=` and one to ten digits, at its start or after whitespace. */
  predicate SpellsId(text: string, body: string, digits: string) {
    && text == body + ("hb=" + digits)
    && 1 <= |digits| <= 10 && AllDigits(digits)
    && (body == "" || IsSpace(body[|body| - 1]))
  }

  /** What stands before the id. */
  function LabelPart(body: string): string {
    Trim(if body == "" then "" else body[..|body| - 1])
  }

  lemma TrailingDigitsOf(head: string, digits: string)
    requires AllDigits(digits) && head != "" && !IsDigit(head[|head| - 1])
    ensures TrailingDigits(head + digits) == |digits|
  {
    var s := head + digits;
    var n := TrailingDigits(s);
    DigitsEnd(s, |digits|, n);
  }

  /** How many digits a string ends with is determined. */
  lemma DigitsEnd(s: string, m: nat, n: nat)
    requires m < |s| && n <= |s|
    requires (forall i :: |s| - m <= i < |s| ==> IsDigit(s[i])) && !IsDigit(s[|s| - 1 - m])
    requires (forall i :: |s| - n <= i < |s| ==> IsDigit(s[i])) && (n < |s| ==> !IsDigit(s[|s| - 1 - n]))
    ensures m == n
  {}

  lemma SpelledId(text: string, body: string, digits: string)
    requires SpellsId(text, body, digits)
    ensures HbSuffix(text) == Some((if body == "" then 0 else |body| - 1, digits))
  {
    var head := body + "hb=";
    assert text == head + digits && head[|head| - 1] == '=';
    TrailingDigitsOf(head, digits);
    assert text[|body|..|body| + 3] == "hb=" && text[|text| - |digits|..] == digits;
  }

  lemma ThreeParts(text: string, at: nat)
    requires at + 3 <= |text|
    ensures text == text[..at] + (text[at..at + 3] + text[at + 3..])
  {}

  lemma SuffixFits(text: string, n: nat)
    requires n == TrailingDigits(text) && HbSuffix(text).Some?
    ensures 1 <= n <= 10 && n + 3 <= |text|
  {}

  lemma SuffixMeans(text: string, n: nat, at: nat, mid: string, digits: string)
    requires n == TrailingDigits(text) && 1 <= n <= 10 && at + 3 + n == |text|
    requires mid == text[at..at + 3] && digits == text[at + 3..]
    ensures HbSuffix(text) ==
      if mid != HB then None
      else if at == 0 then Some((0, digits))
      else if IsSpace(text[at - 1]) then Some((at - 1, digits))
      else None
  {
    assert |text| - n == at + 3 && |text| - n - 3 == at;
  }

  lemma IdIsSpelled(text: string) returns (body: string)
    requires HbSuffix(text).Some?
    ensures SpellsId(text, body, HbSuffix(text).value.1) && HbSuffix(text).value.0 == if body == "" then 0 else |body| - 1
  {
    var n := TrailingDigits(text);
    SuffixFits(text, n);
    var at := |text| - n - 3;
    var mid, digits := text[at..at + 3], text[at + 3..];
    body := text[..at];
    SuffixMeans(text, n, at, mid, digits);
    ThreeParts(text, at);
    DigitsAtEnd(text, n, digits);
    IdParts(text, body, mid, digits, at);
  }

  lemma IdParts(text: string, body: string, mid: string, digits: string, at: nat)
    requires at <= |text| && body == text[..at] && text == body + (mid + digits) && mid == HB
    requires 1 <= |digits| <= 10 && AllDigits(digits) && (at == 0 || IsSpace(text[at - 1]))
    ensures SpellsId(text, body, digits)
  {}

  lemma DigitsAtEnd(text: string, n: nat, digits: string)
    requires n == TrailingDigits(text) && digits == text[|text| - n..]
    ensures AllDigits(digits) && |digits| == n
  {}

  /** A label line is the prefix alone, or the prefix, a space and a text; it says the text, trimmed, as a label,
      or, where that ends in an id, what stands before as a label, and the id. */
  lemma LabelLineSays(raw: string)
    ensures ParseLabelLine(raw).Some? <==> raw == LABEL_PREFIX || StartsWith(raw, LABEL_PREFIX + " ")
    ensures ParseLabelLine(raw).Some? ==>
      var m, text := ParseLabelLine(raw).value, Trim(raw[|LABEL_PREFIX|..]);
      && (forall body, digits :: SpellsId(text, body, digits) ==> m == Mark(NonEmpty(LabelPart(body)), Some(Number(digits))))
      && ((forall body, digits :: !SpellsId(text, body, digits)) ==> m == Mark(NonEmpty(text), None))
  {
    PrefixAndSpace(raw);
    if ParseLabelLine(raw).Some? {
      var text := Trim(raw[|LABEL_PREFIX|..]);
      forall body, digits | SpellsId(text, body, digits)
        ensures ParseText(text) == Mark(NonEmpty(LabelPart(body)), Some(Number(digits)))
      {
        SpelledId(text, body, digits);
        assert text[..if body == "" then 0 else |body| - 1] == if body == "" then "" else body[..|body| - 1];
      }
      if HbSuffix(text).Some? {
        var body := IdIsSpelled(text);
      }
    }
  }

  lemma PrefixAndSpace(raw: string)
    ensures StartsWith(raw, LABEL_PREFIX + " ") <==>
      StartsWith(raw, LABEL_PREFIX) && |raw| > |LABEL_PREFIX| && raw[|LABEL_PREFIX|] == ' '
    ensures raw == LABEL_PREFIX <==> StartsWith(raw, LABEL_PREFIX) && |raw| == |LABEL_PREFIX|
  {
    var longer := LABEL_PREFIX + " ";
    if StartsWith(raw, longer) {
      assert raw[..|longer|][..|LABEL_PREFIX|] == raw[..|LABEL_PREFIX|] && longer[..|LABEL_PREFIX|] == LABEL_PREFIX;
      assert raw[..|longer|][|LABEL_PREFIX|] == raw[|LABEL_PREFIX|];
    }
    if StartsWith(raw, LABEL_PREFIX) && |raw| > |LABEL_PREFIX| && raw[|LABEL_PREFIX|] == ' ' {
      assert raw[..|longer|] == raw[..|LABEL_PREFIX|] + [raw[|LABEL_PREFIX|]];
    }
  }

  lemma {:induction false} SkipDigitsOf(digits: string, rest: string)
    requires AllDigits(digits) && (rest == "" || !IsDigit(rest[0]))
    ensures SkipDigits(digits + rest) == rest
  {
    if digits == "" {
      assert digits + rest == rest;
    } else {
      assert (digits + rest)[1..] == digits[1..] + rest;
      SkipDigitsOf(digits[1..], rest);
    }
  }

  /** Cleaning a label puts one space in the place of an id, all its digits included, at its start or after
      whitespace. */
  lemma IdIsDropped(digits: string, rest: string, c: char, atStart: bool)
    requires AllDigits(digits) && (rest == "" || !IsDigit(rest[0])) && IsSpace(c)
    ensures DropHb("hb=" + digits + rest, true) == " " + DropHb(rest, false)
    ensures DropHb([c] + ("hb=" + digits + rest), atStart) == " " + DropHb(rest, false)
  {
    var s := "hb=" + digits + rest;
    SkipDigitsOf(digits, rest);
    assert s[..3] == "hb=" && s[3..] == digits + rest;
    var spaced := [c] + s;
    assert spaced[1..] == s && spaced[4..] == digits + rest && spaced[0] == c;
    assert "hb="[0] == 'h';
    SpaceIsNoHb(spaced);
  }

  lemma SpaceIsNoHb(s: string)
    requires s != "" && IsSpace(s[0])
    ensures !StartsWith(s, HB)
  {
    assert HB[0] == 'h';
    if 3 <= |s| { assert s[..3][0] == s[0]; }
  }
}
