/** The comment line above a crontab entry that names it and links its heartbeat:
    `# rackmap: <label> hb=<id>`. */
module CronLabels {
  import opened Options
  import opened Text

  const LABEL_PREFIX := "# rackmap:"
  const HB := "hb="

  /** What a label line says; also what an entry is to be labelled with. */
  datatype Mark = Mark(name: Option<string>, heartbeatId: Option<nat>)

  const NO_MARK := Mark(None, None)

  /** Ids of up to ten digits are read back. */
  const ID_LIMIT: nat := 10_000_000_000

  // ---- Numbers ----------------------------------------------------------------------------

  function Digit(n: nat): char
    requires n < 10
  {
    (n + '0' as int) as char
  }

  function Decimal(n: nat): (r: string)
    ensures r != "" && forall i :: 0 <= i < |r| ==> IsDigit(r[i])
  {
    if n < 10 then [Digit(n)] else Decimal(n / 10) + [Digit(n % 10)]
  }

  lemma {:induction false} NumberOfDecimal(n: nat)
    ensures Number(Decimal(n)) == n
  {
    if n >= 10 {
      NumberOfDecimal(n / 10);
      assert Decimal(n)[..|Decimal(n)| - 1] == Decimal(n / 10);
    } else {
      assert Decimal(n)[..0] == "";
    }
  }

  function Power10(k: nat): nat {
    if k == 0 then 1 else 10 * Power10(k - 1)
  }

  lemma {:induction false} DecimalWidth(n: nat, k: nat)
    requires k >= 1 && n < Power10(k)
    ensures |Decimal(n)| <= k
  {
    if n >= 10 { DecimalWidth(n / 10, k - 1); }
  }

  lemma IdWidth(n: nat)
    requires n < ID_LIMIT
    ensures |Decimal(n)| <= 10
  {
    assert Power10(5) == 100_000;
    assert Power10(10) == ID_LIMIT;
    DecimalWidth(n, 10);
  }

  // ---- Reading a label line -----------------------------------------------------------------

  /** How many digits `s` ends with. */
  function TrailingDigits(s: string): (n: nat)
    ensures n <= |s|
    ensures forall i :: |s| - n <= i < |s| ==> IsDigit(s[i])
    ensures n < |s| ==> !IsDigit(s[|s| - 1 - n])
  {
    if s == "" || !IsDigit(s[|s| - 1]) then 0 else 1 + TrailingDigits(s[..|s| - 1])
  }

  /** `hb=` and one to ten digits end `text`, at its start or after whitespace: where the match
      begins, and the digits. */
  function HbSuffix(text: string): Option<(nat, string)> {
    var n := TrailingDigits(text);
    if !(1 <= n <= 10) || n + 3 > |text| then None
    else
      var at := |text| - n - 3;
      if text[at..at + 3] != HB then None
      else if at == 0 then Some((0, text[|text| - n..]))
      else if IsSpace(text[at - 1]) then Some((at - 1, text[|text| - n..]))
      else None
  }

  function NonEmpty(s: string): Option<string> {
    if s == "" then None else Some(s)
  }

  function ParseText(text: string): Mark {
    match HbSuffix(text)
    case None => Mark(NonEmpty(text), None)
    case Some((at, digits)) => Mark(NonEmpty(Trim(text[..at])), Some(Number(digits)))
  }

  /** None when `raw` is not a label line. */
  function ParseLabelLine(raw: string): Option<Mark> {
    if !StartsWith(raw, LABEL_PREFIX) then None
    else
      var rest := raw[|LABEL_PREFIX|..];
      if rest != "" && rest[0] != ' ' then None else Some(ParseText(Trim(rest)))
  }

  // ---- Writing a label line -----------------------------------------------------------------

  predicate IsBreak(c: char) {
    c == '\r' || c == '\n'
  }

  /** `replace(/[\r\n]+/g, " ")`: `skip` says that the run before has been written already. */
  function NoBreaks(s: string, skip: bool): string {
    if s == "" then ""
    else if IsBreak(s[0]) then (if skip then "" else " ") + NoBreaks(s[1..], true)
    else [s[0]] + NoBreaks(s[1..], false)
  }

  function SkipDigits(s: string): (r: string)
    ensures |r| <= |s|
  {
    if s == "" || !IsDigit(s[0]) then s else SkipDigits(s[1..])
  }

  /** `replace(/(?:^|\s)hb=[0-9]* /g, " ")`, one pass. */
  function DropHb(s: string, atStart: bool): string
    decreases |s|
  {
    if s == "" then ""
    else if atStart && StartsWith(s, HB) then " " + DropHb(SkipDigits(s[3..]), false)
    else if IsSpace(s[0]) && StartsWith(s[1..], HB) then " " + DropHb(SkipDigits(s[4..]), false)
    else [s[0]] + DropHb(s[1..], false)
  }

  /** `replace(/\s+/g, " ")`. */
  function Collapse(s: string, skip: bool): string
  {
    if s == "" then ""
    else if IsSpace(s[0]) then (if skip then "" else " ") + Collapse(s[1..], true)
    else [s[0]] + Collapse(s[1..], false)
  }

  function Clean(name: string): string {
    Trim(Collapse(DropHb(NoBreaks(name, false), true), false))
  }

  function CleanOf(name: Option<string>): string {
    Clean(if name.Some? then name.value else "")
  }

  function HbText(id: nat): string {
    HB + Decimal(id)
  }

  /** The parts of a label line after its prefix, joined by a space. */
  function LabelText(clean: string, id: Option<nat>): string {
    if id.None? then clean else if clean == "" then HbText(id.value) else clean + " " + HbText(id.value)
  }

  function LabelLine(text: string): string {
    if text == "" then LABEL_PREFIX else LABEL_PREFIX + " " + text
  }

  function FormatLabelLine(m: Mark): string {
    LabelLine(LabelText(CleanOf(m.name), m.heartbeatId))
  }

  // ---- Round trips ------------------------------------------------------------------------------

  /** The only whitespace is the space. */
  ghost predicate PlainlySpaced(s: string) {
    forall i :: 0 <= i < |s| && IsSpace(s[i]) ==> s[i] == ' '
  }

  ghost predicate Tidy(s: string) {
    Trimmed(s) && PlainlySpaced(s)
  }

  lemma {:induction false} CollapseIsPlain(s: string, skip: bool)
    ensures PlainlySpaced(Collapse(s, skip))
  {
    if s != "" { CollapseIsPlain(s[1..], IsSpace(s[0])); }
  }

  lemma TrimStartKeepsPlain(s: string)
    requires PlainlySpaced(s)
    ensures PlainlySpaced(TrimStart(s))
  {}

  lemma TrimEndKeepsPlain(s: string)
    requires PlainlySpaced(s)
    ensures PlainlySpaced(TrimEnd(s))
  {}

  lemma TrimIsTidy(c: string)
    requires PlainlySpaced(c)
    ensures Tidy(Trim(c))
  {
    TrimIsTrimmed(c);
    TrimStartKeepsPlain(c);
    TrimEndKeepsPlain(TrimStart(c));
  }

  lemma SqueezeIsTidy(s: string)
    ensures Tidy(Trim(Collapse(s, false)))
  {
    CollapseIsPlain(s, false);
    TrimIsTidy(Collapse(s, false));
  }

  lemma CleanIsTidy(name: Option<string>)
    ensures Tidy(CleanOf(name))
  {
    SqueezeIsTidy(DropHb(NoBreaks(if name.Some? then name.value else "", false), true));
  }

  lemma PlainIsOneLine(s: string)
    requires PlainlySpaced(s)
    ensures '\n' !in s
  {
    if '\n' in s {
      var i :| 0 <= i < |s| && s[i] == '\n';
      assert IsSpace(s[i]);
    }
  }

  lemma {:induction false} TrailingDigitsOf(pre: string, digits: string)
    requires forall i :: 0 <= i < |digits| ==> IsDigit(digits[i])
    requires pre != "" && !IsDigit(pre[|pre| - 1])
    ensures TrailingDigits(pre + digits) == |digits|
  {
    if digits == "" {
      assert pre + digits == pre;
    } else {
      assert (pre + digits)[..|pre + digits| - 1] == pre + digits[..|digits| - 1];
      TrailingDigitsOf(pre, digits[..|digits| - 1]);
    }
  }

  lemma SuffixOfDigits(pre: string, digits: string)
    requires 1 <= |digits| <= 10 && forall i :: 0 <= i < |digits| ==> IsDigit(digits[i])
    requires pre == "" || IsSpace(pre[|pre| - 1])
    ensures HbSuffix(pre + HB + digits) == Some((if pre == "" then 0 else |pre| - 1, digits))
  {
    var text := pre + HB + digits;
    TrailingDigitsOf(pre + HB, digits);
    assert text[|pre|..|pre| + 3] == HB;
    assert text[|text| - |digits|..] == digits;
    if pre != "" { assert text[|pre| - 1] == pre[|pre| - 1]; }
  }

  /** A text that ends in a heartbeat id, and what is read from it. */
  lemma HbSuffixOf(pre: string, id: nat)
    requires id < ID_LIMIT
    requires pre == "" || IsSpace(pre[|pre| - 1])
    ensures HbSuffix(pre + HbText(id)) == Some((if pre == "" then 0 else |pre| - 1, Decimal(id)))
  {
    IdWidth(id);
    assert pre + HbText(id) == pre + HB + Decimal(id);
    SuffixOfDigits(pre, Decimal(id));
  }

  lemma TrimOfSpaced(text: string)
    requires Trimmed(text)
    ensures Trim(" " + text) == text
  {
    assert (" " + text)[1..] == text;
    assert TrimStart(" " + text) == TrimStart(text) == text;
  }

  lemma LabelTextTrimmed(clean: string, id: Option<nat>)
    requires Trimmed(clean)
    ensures Trimmed(LabelText(clean, id))
  {
    if id.Some? {
      var d := Decimal(id.value);
      assert IsDigit(d[|d| - 1]);
      var text := LabelText(clean, id);
      assert text[|text| - 1] == d[|d| - 1];
      if clean == "" { assert text[0] == 'h'; } else { assert text[0] == clean[0]; }
    }
  }

  lemma ParseOfLabelLine(text: string)
    requires Trimmed(text)
    ensures ParseLabelLine(LabelLine(text)) == Some(ParseText(text))
  {
    if text == "" {
      assert LABEL_PREFIX[|LABEL_PREFIX|..] == "";
    } else {
      TrimOfSpaced(text);
      assert LABEL_PREFIX + " " + text == LABEL_PREFIX + (" " + text);
      ParseAfterPrefix(LABEL_PREFIX + (" " + text), " " + text, text);
    }
  }

  lemma ParseAfterPrefix(raw: string, rest: string, text: string)
    requires raw == LABEL_PREFIX + rest && rest != "" && rest[0] == ' ' && Trim(rest) == text
    ensures ParseLabelLine(raw) == Some(ParseText(text))
  {
    assert raw[|LABEL_PREFIX|..] == rest && raw[..|LABEL_PREFIX|] == LABEL_PREFIX;
  }

  lemma ParseWithId(clean: string, id: nat)
    requires Trimmed(clean) && id < ID_LIMIT
    ensures ParseText(LabelText(clean, Some(id))) == Mark(NonEmpty(clean), Some(id))
  {
    NumberOfDecimal(id);
    var text := LabelText(clean, Some(id));
    if clean == "" {
      HbSuffixOf("", id);
      assert "" + HbText(id) == text;
      assert text[..0] == "";
    } else {
      HbSuffixOf(clean + " ", id);
      assert text == (clean + " ") + HbText(id);
      assert text[..|clean|] == clean;
      TrimOfTrimmed(clean);
    }
  }

  /** With an id, every label line reads back as the cleaned label and that id. */
  lemma LabelWithIdRoundTrips(name: Option<string>, id: nat)
    requires id < ID_LIMIT
    ensures ParseLabelLine(FormatLabelLine(Mark(name, Some(id)))) == Some(Mark(NonEmpty(CleanOf(name)), Some(id)))
  {
    var clean := CleanOf(name);
    CleanIsTidy(name);
    LabelTextTrimmed(clean, Some(id));
    ParseOfLabelLine(LabelText(clean, Some(id)));
    ParseWithId(clean, id);
  }

  /** Without an id, a label line reads back as the cleaned label alone exactly when that label
      does not itself end in something that reads as an id. */
  lemma LabelWithoutIdRoundTripsIff(m: Mark)
    requires m.heartbeatId.None?
    ensures ParseLabelLine(FormatLabelLine(m)) == Some(Mark(NonEmpty(CleanOf(m.name)), None)) <==> HbSuffix(CleanOf(m.name)) == None
  {
    var clean := CleanOf(m.name);
    assert Trimmed(clean) by { CleanIsTidy(m.name); }
    assert FormatLabelLine(m) == LabelLine(clean);
    PlainTextReadsBackIff(clean);
  }

  lemma PlainTextReadsBackIff(text: string)
    requires Trimmed(text)
    ensures ParseLabelLine(LabelLine(text)) == Some(Mark(NonEmpty(text), None)) <==> HbSuffix(text) == None
  {
    ParseOfLabelLine(text);
  }

  /** Removing `hb=` in one pass can put one together: for every word and number the label
      `word hb=hb=number` is written as if it had that number as its id. */
  lemma CleaningMayForgeAnId(word: string, id: nat)
    requires word != "" && (forall i :: 0 <= i < |word| ==> !IsSpace(word[i])) && !StartsWith(word, HB) && id < ID_LIMIT
    ensures ParseLabelLine(FormatLabelLine(Mark(Some(word + " hb=" + HbText(id)), None))) == Some(Mark(Some(word), Some(id)))
  {
    ForgedClean(word, HbText(id));
    ForgedLine(word, id, word + " hb=" + HbText(id));
  }

  lemma ForgedLine(word: string, id: nat, name: string)
    requires Trimmed(word) && word != "" && id < ID_LIMIT && Clean(name) == word + " " + HbText(id)
    ensures ParseLabelLine(FormatLabelLine(Mark(Some(name), None))) == Some(Mark(Some(word), Some(id)))
  {
    var text := word + " " + HbText(id);
    ForgedReadsAsId(word, id, text);
    LineOfCleaned(name, text);
  }

  lemma LineOfCleaned(name: string, text: string)
    requires Clean(name) == text
    ensures FormatLabelLine(Mark(Some(name), None)) == LabelLine(text)
  {}

  lemma ForgedReadsAsId(clean: string, id: nat, text: string)
    requires Trimmed(clean) && clean != "" && id < ID_LIMIT && text == LabelText(clean, Some(id))
    ensures ParseLabelLine(LabelLine(text)) == Some(Mark(Some(clean), Some(id)))
  {
    LabelTextTrimmed(clean, Some(id));
    ParseOfLabelLine(text);
    ParseWithId(clean, id);
  }

  predicate NoSpace(s: string) {
    forall i :: 0 <= i < |s| ==> !IsSpace(s[i])
  }

  lemma {:induction false} DropAfterWord(word: string, rest: string, atStart: bool)
    requires word != "" && NoSpace(word) && (atStart ==> !StartsWith(word + rest, HB))
    ensures DropHb(word + rest, atStart) == word + DropHb(rest, false)
    decreases |word|
  {
    var s := word + rest;
    assert s[1..] == word[1..] + rest;
    assert !IsSpace(s[0]);
    if |word| == 1 {
      assert s[1..] == rest;
    } else {
      DropAfterWord(word[1..], rest, false);
      assert word == [word[0]] + word[1..];
    }
  }

  lemma DropOneHb(tail: string)
    requires NoSpace(tail) && (tail == "" || !IsDigit(tail[0]))
    ensures DropHb(" hb=" + tail, false) == " " + tail
  {
    var s := " hb=" + tail;
    assert s[1..] == HB + tail && s[4..] == tail;
    assert SkipDigits(tail) == tail;
    NoSpaceKeeps(tail);
  }

  lemma ForgedDrop(name: string, word: string, tail: string)
    requires name == word + (" hb=" + tail) && word != "" && NoSpace(word) && !StartsWith(name, HB)
    requires NoSpace(tail) && (tail == "" || !IsDigit(tail[0]))
    ensures DropHb(name, true) == word + (" " + tail)
  {
    DropAfterWord(word, " hb=" + tail, true);
    DropOneHb(tail);
  }

  lemma NotAnHb(word: string, rest: string)
    requires word != "" && NoSpace(word) && !StartsWith(word, HB) && rest != "" && rest[0] == ' '
    ensures !StartsWith(word + rest, HB)
  {
    var s := word + rest;
    assert s[|word|] == ' ' && HB[0] == 'h' && HB[1] == 'b' && HB[2] == '=';
    if |word| >= 3 { assert s[..3] == word[..3]; }
  }

  lemma TwoWords(word: string, tail: string)
    requires word != "" && NoSpace(word) && tail != "" && NoSpace(tail)
    ensures var s := word + " " + tail;
      Trimmed(s) && forall i :: 0 <= i < |s| && IsSpace(s[i]) ==> s[i] == ' ' && (i + 1 < |s| ==> !IsSpace(s[i + 1]))
  {
    var s := word + " " + tail;
    assert forall i :: 0 <= i < |word| ==> s[i] == word[i];
    assert forall i :: |word| < i < |s| ==> s[i] == tail[i - |word| - 1];
    assert s[|word|] == ' ';
  }

  lemma ForgedClean(word: string, tail: string)
    requires word != "" && NoSpace(word) && !StartsWith(word, HB)
    requires tail != "" && NoSpace(tail) && !IsDigit(tail[0])
    ensures Clean(word + " hb=" + tail) == word + " " + tail
  {
    var name := word + " hb=" + tail;
    var kept := word + " " + tail;
    forall i | 0 <= i < |name| ensures !IsBreak(name[i]) {
      if i < |word| { assert name[i] == word[i]; } else if i >= |word| + 4 { assert name[i] == tail[i - |word| - 4]; }
    }
    NoBreaksKeeps(name, false);
    NotAnHb(word, " hb=" + tail);
    assert name == word + (" hb=" + tail);
    ForgedDrop(name, word, tail);
    assert word + (" " + tail) == kept;
    TwoWords(word, tail);
    CollapseKeeps(kept, false);
    TrimOfTrimmed(kept);
  }

  lemma {:induction false} NoBreaksKeeps(s: string, skip: bool)
    requires forall i :: 0 <= i < |s| ==> !IsBreak(s[i])
    ensures NoBreaks(s, skip) == s
  {
    if s != "" { NoBreaksKeeps(s[1..], false); }
  }

  lemma {:induction false} NoSpaceKeeps(s: string)
    requires forall i :: 0 <= i < |s| ==> !IsSpace(s[i])
    ensures DropHb(s, false) == s
  {
    if s != "" { NoSpaceKeeps(s[1..]); }
  }

  /** Single spaces between words are left alone. */
  lemma {:induction false} CollapseKeeps(s: string, skip: bool)
    requires forall i :: 0 <= i < |s| && IsSpace(s[i]) ==> s[i] == ' ' && (i + 1 < |s| ==> !IsSpace(s[i + 1]))
    requires skip ==> s == "" || !IsSpace(s[0])
    ensures Collapse(s, skip) == s
  {
    if s != "" {
      assert forall i :: 0 <= i < |s[1..]| ==> s[1..][i] == s[i + 1];
      CollapseKeeps(s[1..], IsSpace(s[0]));
    }
  }

  /** A mark that a freshly written label line gives back. */
  predicate RoundTrips(m: Mark) {
    && (m.heartbeatId.Some? ==> m.heartbeatId.value < ID_LIMIT)
    && NonEmpty(CleanOf(m.name)) == m.name
    && (m.heartbeatId.None? ==> HbSuffix(CleanOf(m.name)) == None)
  }

  lemma {:induction false} DecimalIsLong(n: nat, k: nat)
    requires n >= Power10(k)
    ensures |Decimal(n)| > k
  {
    if k > 0 {
      assert n >= 10 * Power10(k - 1);
      DecimalIsLong(n / 10, k - 1);
    }
  }

  /** An id of more than ten digits is not read as one. */
  lemma LongIdIsNoSuffix(pre: string, id: nat)
    requires id >= ID_LIMIT
    ensures HbSuffix(pre + HbText(id)) == None
  {
    assert Power10(5) == 100_000;
    assert Power10(10) == ID_LIMIT;
    DecimalIsLong(id, 10);
    TrailingDigitsOf(pre + HB, Decimal(id));
    assert pre + HbText(id) == (pre + HB) + Decimal(id);
  }

  lemma LongIdIsLost(m: Mark)
    requires m.heartbeatId.Some? && m.heartbeatId.value >= ID_LIMIT
    ensures ParseLabelLine(FormatLabelLine(m)) != Some(m)
  {
    var clean, id := CleanOf(m.name), m.heartbeatId.value;
    var text := LabelText(clean, Some(id));
    CleanIsTidy(m.name);
    LabelTextTrimmed(clean, Some(id));
    ParseOfLabelLine(text);
    if clean == "" {
      LongIdIsNoSuffix("", id);
      assert text == "" + HbText(id);
    } else {
      LongIdIsNoSuffix(clean + " ", id);
      assert text == (clean + " ") + HbText(id);
    }
  }

  /** These are all the marks that do. */
  lemma MarkRoundTripsIff(m: Mark)
    ensures ParseLabelLine(FormatLabelLine(m)) == Some(m) <==> RoundTrips(m)
  {
    if m.heartbeatId.None? {
      var clean := CleanOf(m.name);
      CleanIsTidy(m.name);
      assert FormatLabelLine(m) == LabelLine(clean);
      ParseOfLabelLine(clean);
    } else if m.heartbeatId.value < ID_LIMIT {
      LabelWithIdRoundTrips(m.name, m.heartbeatId.value);
    } else {
      LongIdIsLost(m);
    }
  }

  /** A label line is a comment of one line. */
  lemma LabelTextIsOneLine(clean: string, id: Option<nat>)
    requires PlainlySpaced(clean)
    ensures '\n' !in LabelText(clean, id)
  {
    PlainIsOneLine(clean);
    if id.Some? { assert '\n' !in Decimal(id.value); }
  }

  lemma LineOfTextIsOneLine(text: string)
    requires '\n' !in text
    ensures StartsWith(LabelLine(text), LABEL_PREFIX) && '\n' !in LabelLine(text)
  {}

  lemma LabelLineIsOneLine(m: Mark)
    ensures StartsWith(FormatLabelLine(m), LABEL_PREFIX) && '\n' !in FormatLabelLine(m)
  {
    var text := LabelText(CleanOf(m.name), m.heartbeatId);
    assert '\n' !in text by {
      CleanIsTidy(m.name);
      LabelTextIsOneLine(CleanOf(m.name), m.heartbeatId);
    }
    LineOfTextIsOneLine(text);
  }

  /** And nothing trails it. */
  lemma LabelLineEndsPlainly(m: Mark)
    ensures var line := FormatLabelLine(m); !IsSpace(line[|line| - 1])
  {
    var clean := CleanOf(m.name);
    var text := LabelText(clean, m.heartbeatId);
    CleanIsTidy(m.name);
    if m.heartbeatId.Some? {
      var digits := Decimal(m.heartbeatId.value);
      assert text[|text| - 1] == digits[|digits| - 1];
    }
    LineEnds(text);
  }

  lemma LineEnds(text: string)
    requires text != "" ==> !IsSpace(text[|text| - 1])
    ensures !IsSpace(LabelLine(text)[|LabelLine(text)| - 1])
  {
    assert LABEL_PREFIX[|LABEL_PREFIX| - 1] == ':';
    if text != "" { assert LabelLine(text)[|LabelLine(text)| - 1] == text[|text| - 1]; }
  }
}
