/** The label that a monitored crontab entry gets: the name its user typed, or the one it has, or
    the first words of its command, on one line and cut to eighty characters. */
module CronMonitorLabels {
  import opened Options
  import opened Text
  import opened CronLabels
  import opened CrontabText
  import HeartbeatWrap

  /** In UTF-16 code units. */
  const LABEL_MAX: nat := 80

  predicate IsControl(c: char) {
    c < ' ' || c == '\U{007F}'
  }

  /** `replace(/[\u0000-\u001f\u007f]+/g, " ")`: `skip` says that the run before has been written already. */
  function NoControls(s: string, skip: bool): string {
    if s == "" then ""
    else if IsControl(s[0]) then (if skip then "" else " ") + NoControls(s[1..], true)
    else [s[0]] + NoControls(s[1..], false)
  }

  function Width(c: char): nat {
    if c as int >= 0x1_0000 then 2 else 1
  }

  /** `slice(0, room)`, but for a character cut in two. */
  function Cut(s: string, room: nat): string {
    if s == "" || Width(s[0]) > room then "" else [s[0]] + Cut(s[1..], room - Width(s[0]))
  }

  function OneLine(s: string): string {
    Trim(Collapse(DropHb(NoControls(s, false), true), false))
  }

  function CleanLabel(s: string): string {
    Cut(OneLine(s), LABEL_MAX)
  }

  /** The command's first words, or the number of its line. */
  function DeriveLabel(entry: Line): string
    requires entry.content.Job?
  {
    var words := CleanLabel(HeartbeatWrap.SplitRaw(entry.content.fields.command).0);
    if words != "" then words else "line " + Decimal(entry.lineNo)
  }

  function LabelFor(name: Option<string>, entry: Line): string
    requires entry.content.Job?
  {
    var typed := if name.Some? then CleanLabel(name.value) else "";
    if typed != "" then typed
    else if entry.mark.name.Some? && entry.mark.name.value != "" then entry.mark.name.value
    else DeriveLabel(entry)
  }

  // ---- What such a label looks like --------------------------------------------------------------

  /** No whitespace but single spaces. */
  ghost predicate SingleSpaced(s: string) {
    forall i :: 0 <= i < |s| && IsSpace(s[i]) ==> s[i] == ' ' && (i + 1 < |s| ==> !IsSpace(s[i + 1]))
  }

  /** And none at the start. */
  ghost predicate Neat(s: string) {
    SingleSpaced(s) && (s != "" ==> !IsSpace(s[0]))
  }

  lemma PrependSpaced(c: char, s: string)
    requires SingleSpaced(s) && (IsSpace(c) ==> c == ' ' && (s != "" ==> !IsSpace(s[0])))
    ensures SingleSpaced([c] + s)
  {
    var t := [c] + s;
    forall i | 0 <= i < |t| && IsSpace(t[i])
      ensures t[i] == ' ' && (i + 1 < |t| ==> !IsSpace(t[i + 1]))
    {
      if i > 0 { assert t[i] == s[i - 1]; }
    }
  }

  lemma {:induction false} CollapseIsSpaced(s: string, skip: bool)
    ensures SingleSpaced(Collapse(s, skip))
    ensures skip && Collapse(s, skip) != "" ==> !IsSpace(Collapse(s, skip)[0])
  {
    if s != "" {
      var rest := Collapse(s[1..], IsSpace(s[0]));
      CollapseIsSpaced(s[1..], IsSpace(s[0]));
      if !IsSpace(s[0]) {
        PrependSpaced(s[0], rest);
      } else if skip {
        assert "" + rest == rest;
      } else {
        PrependSpaced(' ', rest);
      }
    }
  }

  lemma PartIsNeat(s: string, from: nat, to: nat)
    requires SingleSpaced(s) && from <= to <= |s| && (from < to ==> !IsSpace(s[from]))
    ensures Neat(s[from..to])
  {}

  lemma TrimIsNeat(c: string)
    requires SingleSpaced(c)
    ensures Neat(Trim(c))
  {
    SpacesEnd(c);
    assert Trim(c) == c[Spaces(c)..Spaces(c) + |Trim(c)|];
    PartIsNeat(c, Spaces(c), Spaces(c) + |Trim(c)|);
  }

  lemma {:induction false} CutIsPrefix(s: string, room: nat)
    ensures |Cut(s, room)| <= |s| && Cut(s, room) == s[..|Cut(s, room)|]
  {
    if s != "" && Width(s[0]) <= room { CutIsPrefix(s[1..], room - Width(s[0])); }
  }

  lemma CutIsNeat(s: string, room: nat)
    requires Neat(s)
    ensures Neat(Cut(s, room))
  {
    CutIsPrefix(s, room);
    PartIsNeat(s, 0, |Cut(s, room)|);
    assert s[0..|Cut(s, room)|] == Cut(s, room);
  }

  lemma CleanLabelIsNeat(s: string)
    ensures Neat(CleanLabel(s))
  {
    var c := Collapse(DropHb(NoControls(s, false), true), false);
    CollapseIsSpaced(DropHb(NoControls(s, false), true), false);
    TrimIsNeat(c);
    CutIsNeat(OneLine(s), LABEL_MAX);
  }

  lemma LineNumberIsNeat(lineNo: nat)
    ensures Neat("line " + Decimal(lineNo))
  {
    var s := "line " + Decimal(lineNo);
    forall i | 4 < i < |s|
      ensures !IsSpace(s[i])
    {
      assert s[i] == Decimal(lineNo)[i - 5];
    }
    assert s[0] == 'l' && s[1] == 'i' && s[2] == 'n' && s[3] == 'e' && s[4] == ' ';
  }

  /** A label made by monitoring is neat and not empty. */
  lemma LabelIsNeat(name: Option<string>, entry: Line)
    requires entry.content.Job? && entry.mark.name.None?
    ensures Neat(LabelFor(name, entry)) && LabelFor(name, entry) != ""
  {
    if name.Some? { CleanLabelIsNeat(name.value); }
    CleanLabelIsNeat(HeartbeatWrap.SplitRaw(entry.content.fields.command).0);
    LineNumberIsNeat(entry.lineNo);
  }

  /** Neither below U+0020 nor U+007F. */
  ghost predicate NoneControl(s: string) {
    forall c :: c in s ==> c >= ' ' && c != '\U{007F}'
  }

  lemma {:induction false} NoControlsHasNone(s: string, skip: bool)
    ensures NoneControl(NoControls(s, skip))
  {
    if s != "" {
      NoControlsHasNone(s[1..], IsControl(s[0]));
    }
  }

  lemma {:induction false} SkippedDigits(s: string)
    ensures forall c :: c in SkipDigits(s) ==> c in s
  {
    if s != "" && IsDigit(s[0]) { SkippedDigits(s[1..]); }
  }

  lemma {:induction false} DropHbDrops(s: string, atStart: bool)
    ensures forall c :: c in DropHb(s, atStart) ==> c in s || c == ' '
    decreases |s|
  {
    if s == "" {
    } else if atStart && StartsWith(s, HB) {
      DropHbDrops(SkipDigits(s[3..]), false);
      SkippedDigits(s[3..]);
    } else if IsSpace(s[0]) && StartsWith(s[1..], HB) {
      DropHbDrops(SkipDigits(s[4..]), false);
      SkippedDigits(s[4..]);
    } else {
      DropHbDrops(s[1..], false);
    }
  }

  lemma {:induction false} CollapseAddsBlanks(s: string, skip: bool)
    ensures forall c :: c in Collapse(s, skip) ==> c in s || c == ' '
  {
    if s != "" { CollapseAddsBlanks(s[1..], IsSpace(s[0])); }
  }

  lemma TrimDrops(s: string)
    ensures forall c :: c in Trim(s) ==> c in s
  {
    assert Trim(s) == s[Spaces(s)..Spaces(s) + |Trim(s)|];
  }

  lemma {:induction false} CutFits(s: string, room: nat)
    ensures HeartbeatWrap.JsLength(Cut(s, room)) <= room
    ensures HeartbeatWrap.JsLength(s) <= room ==> Cut(s, room) == s
  {
    if s != "" && Width(s[0]) <= room {
      CutFits(s[1..], room - Width(s[0]));
      assert Cut(s, room)[1..] == Cut(s[1..], room - Width(s[0]));
    }
  }

  /** A cleaned label has at most eighty units, no control character, and no whitespace but single spaces. */
  lemma CleanLabelSays(s: string)
    ensures HeartbeatWrap.JsLength(CleanLabel(s)) <= 80 && NoneControl(CleanLabel(s)) && Neat(CleanLabel(s))
  {
    var plain := NoControls(s, false);
    var dropped := DropHb(plain, true);
    CleanLabelIsNeat(s);
    CutFits(OneLine(s), LABEL_MAX);
    CutIsPrefix(OneLine(s), LABEL_MAX);
    NoControlsHasNone(s, false);
    DropHbDrops(plain, true);
    CollapseAddsBlanks(dropped, false);
    TrimDrops(Collapse(dropped, false));
    assert NoneControl(dropped) && NoneControl(Collapse(dropped, false)) && NoneControl(OneLine(s));
    PrefixDrops(OneLine(s), CleanLabel(s));
  }

  lemma PrefixDrops(s: string, start: string)
    requires NoneControl(s) && |start| <= |s| && start == s[..|start|]
    ensures NoneControl(start)
  {
    forall c | c in start
      ensures c in s
    {
      var i :| 0 <= i < |start| && start[i] == c;
      assert s[i] == c;
    }
  }

  /** The label is the name that was typed, cleaned; if that leaves nothing, the label that the entry has;
      if it has none, the first words of its command, cleaned; and if that leaves nothing, its line. */
  lemma LabelIsChosen(name: Option<string>, entry: Line)
    requires entry.content.Job?
    ensures var typed := name.Some? && CleanLabel(name.value) != "";
      var had := entry.mark.name.Some? && entry.mark.name.value != "";
      var words := CleanLabel(HeartbeatWrap.SplitRaw(entry.content.fields.command).0);
      && (typed ==> LabelFor(name, entry) == CleanLabel(name.value))
      && (!typed && had ==> Some(LabelFor(name, entry)) == entry.mark.name)
      && (!typed && !had && words != "" ==> LabelFor(name, entry) == words)
      && (!typed && !had && words == "" ==> LabelFor(name, entry) == "line " + Decimal(entry.lineNo))
  {}

  // ---- When a label line gives such a label back -----------------------------------------------------

  /** `hb=` at the start of the label, or after whitespace. */
  predicate HasHb(s: string, atStart: bool) {
    s != "" && ((atStart && StartsWith(s, HB)) || (IsSpace(s[0]) && StartsWith(s[1..], HB)) || HasHb(s[1..], false))
  }

  lemma {:induction false} DropHbShortens(s: string, atStart: bool)
    ensures |DropHb(s, atStart)| <= |s|
    ensures HasHb(s, atStart) ==> |DropHb(s, atStart)| < |s|
    ensures !HasHb(s, atStart) ==> DropHb(s, atStart) == s
    decreases |s|
  {
    if s == "" {
    } else if atStart && StartsWith(s, HB) {
      DropHbShortens(SkipDigits(s[3..]), false);
    } else if IsSpace(s[0]) && StartsWith(s[1..], HB) {
      DropHbShortens(SkipDigits(s[4..]), false);
    } else {
      DropHbShortens(s[1..], false);
      assert s == [s[0]] + s[1..];
    }
  }

  lemma {:induction false} CollapseShortens(s: string, skip: bool)
    ensures |Collapse(s, skip)| <= |s|
  {
    if s != "" { CollapseShortens(s[1..], IsSpace(s[0])); }
  }

  lemma NeatHasNoBreaks(s: string)
    requires Neat(s)
    ensures NoBreaks(s, false) == s
  {
    forall i | 0 <= i < |s|
      ensures !IsBreak(s[i])
    {
      assert IsSpace(s[i]) ==> s[i] == ' ';
    }
    NoBreaksKeeps(s, false);
  }

  /** A neat label is written as it is exactly when it does not end in a space and holds no `hb=`. */
  lemma CleanKeepsIff(s: string)
    requires Neat(s) && s != ""
    ensures Clean(s) == s <==> !IsSpace(s[|s| - 1]) && !HasHb(s, true)
  {
    var d := DropHb(s, true);
    NeatHasNoBreaks(s);
    DropHbShortens(s, true);
    CollapseShortens(d, false);
    TrimIsTrimmed(Collapse(d, false));
    if d == s {
      CollapseKeeps(s, false);
      if !IsSpace(s[|s| - 1]) { TrimOfTrimmed(s); }
    }
  }

  /** A name that is neat, short and plain is the label. */
  lemma CleanLabelKeeps(s: string)
    requires Neat(s) && Trimmed(s) && !HasHb(s, true) && NoneControl(s) && HeartbeatWrap.JsLength(s) <= 80
    ensures CleanLabel(s) == s
  {
    forall i | 0 <= i < |s|
      ensures !IsControl(s[i])
    {
      assert s[i] in s;
    }
    NoControlsKeeps(s, false);
    DropHbShortens(s, true);
    CollapseKeeps(s, false);
    TrimOfTrimmed(s);
    CutFits(s, LABEL_MAX);
  }

  // ---- Names that are cut at a space -------------------------------------------------------------------

  lemma {:induction false} NoControlsKeeps(s: string, skip: bool)
    requires forall i :: 0 <= i < |s| ==> !IsControl(s[i])
    ensures NoControls(s, skip) == s
  {
    if s != "" { NoControlsKeeps(s[1..], false); }
  }

  lemma {:induction false} CutAfterWord(word: string, rest: string, room: nat)
    requires HeartbeatWrap.JsLength(word) + 1 == room
    ensures Cut(word + " " + rest, room) == word + " "
  {
    var s := word + " " + rest;
    if word == "" {
      assert s[0] == ' ' && Cut(s[1..], 0) == "";
    } else {
      assert s[0] == word[0] && s[1..] == word[1..] + " " + rest;
      CutAfterWord(word[1..], rest, room - Width(word[0]));
      assert word == [word[0]] + word[1..];
    }
  }

  predicate PlainWord(s: string) {
    s != "" && NoSpace(s) && !StartsWith(s, HB) && forall i :: 0 <= i < |s| ==> !IsControl(s[i])
  }

  lemma NoControlsInTwo(word: string, rest: string, s: string)
    requires PlainWord(word) && PlainWord(rest) && s == word + " " + rest
    ensures NoControls(s, false) == s
  {
    forall i | 0 <= i < |s|
      ensures !IsControl(s[i])
    {
      if i < |word| { assert s[i] == word[i]; } else if i > |word| { assert s[i] == rest[i - |word| - 1]; }
    }
    NoControlsKeeps(s, false);
  }

  lemma NoHbInTwo(word: string, rest: string, tail: string, s: string)
    requires PlainWord(word) && PlainWord(rest) && tail == " " + rest && s == word + tail
    ensures DropHb(s, true) == s
  {
    NotAnHb(word, tail);
    DropAfterWord(word, tail, true);
    DropBeforeWord(rest);
  }

  lemma TwoPlainWords(word: string, rest: string)
    requires PlainWord(word) && PlainWord(rest)
    ensures OneLine(word + " " + rest) == word + " " + rest
  {
    var s := word + " " + rest;
    assert s == word + (" " + rest);
    NoControlsInTwo(word, rest, s);
    NoHbInTwo(word, rest, " " + rest, s);
    TwoWords(word, rest);
    CollapseKeeps(s, false);
    TrimOfTrimmed(s);
  }

  lemma DropBeforeWord(rest: string)
    requires PlainWord(rest)
    ensures DropHb(" " + rest, false) == " " + rest
  {
    var s := " " + rest;
    assert s[1..] == rest && IsSpace(s[0]);
    NoSpaceKeeps(rest);
  }

  /** A first word of 79 units: the label is the word and the space after it. */
  lemma CutAtSpace(word: string, rest: string)
    requires PlainWord(word) && PlainWord(rest) && HeartbeatWrap.JsLength(word) + 1 == LABEL_MAX
    ensures CleanLabel(word + " " + rest) == word + " "
  {
    TwoPlainWords(word, rest);
    CutAfterWord(word, rest, LABEL_MAX);
  }

  /** Its label line says the word only. */
  lemma WordAndSpaceCleaned(word: string)
    requires PlainWord(word)
    ensures Clean(word + " ") == word
  {
    var s := word + " ";
    forall i | 0 <= i < |s|
      ensures !IsBreak(s[i])
    {
      if i < |word| { assert s[i] == word[i] && !IsControl(word[i]); }
    }
    NoBreaksKeeps(s, false);
    NotAnHb(word, " ");
    DropAfterWord(word, " ", true);
    assert DropHb(" ", false) == " " by { assert " "[1..] == ""; }
    WordThenSpace(word, s);
  }

  lemma WordThenSpace(word: string, s: string)
    requires PlainWord(word) && s == word + " "
    ensures Trim(Collapse(s, false)) == word
  {
    forall i | 0 <= i < |word|
      ensures !IsSpace(s[i])
    {
      assert s[i] == word[i];
    }
    CollapseKeeps(s, false);
    assert TrimStart(s) == s by { assert s[0] == word[0]; }
    assert s[..|s| - 1] == word && SpacesAtEnd(word) == 0 && SpacesAtEnd(s) == 1;
  }
}
