/** A crontab as a list of lines: read from a file, edited, and written back. Lines that were
    not edited are written byte for byte; the comment above an entry is its label line. */
module CrontabText {
  import opened Options
  import opened Text
  import opened CronSchedule
  import opened CronLabels
  import opened CronLines
  import opened CronFormat

  /** `mark` is the label and the heartbeat of an entry; other lines have none. */
  datatype Line = Line(lineNo: nat, raw: string, content: Content, mark: Mark)

  function Last(lines: seq<Line>): Option<Line> {
    if lines == [] then None else Some(lines[|lines| - 1])
  }

  // ---- What the list level needs to know about single lines ---------------------------------

  /** How a line is read, whether an entry's raw text still says what its fields say, how an
      entry, a setting and a label line are rendered, and how a label line is read. */
  datatype Syntax = Syntax(
    read: string -> Content,
    untouched: (string, Fields, bool) -> bool,
    entry: (Fields, bool) -> string,
    setting: (string, string, string) -> string,
    readLabel: string -> Option<Mark>,
    labelLine: Mark -> string)

  predicate Untouched(raw: string, f: Fields, disabled: bool, valid: Validator) {
    ParseEntry(Enabled(raw), KindOf(f), valid) == Some(f) && StartsWith(raw, DISABLED_PREFIX) == disabled
  }

  function FormatSetting(name: string, value: string): string {
    if value == "" || IsSpace(value[0]) || IsSpace(value[|value| - 1]) then name + "=\"" + value + "\"" else name + "=" + value
  }

  /** A setting's raw text, unless its name or value is no longer what it says. */
  function SettingText(raw: string, name: string, value: string): string {
    match EnvOf(raw)
    case Some((n, v)) => if n == name && Unquote(v) == value then raw else FormatSetting(name, value)
    case None => FormatSetting(name, value)
  }

  /** The syntax of a user's crontab or of a system one. */
  function CrontabSyntax(kind: Kind, valid: Validator): Syntax {
    Syntax(
      raw => ParseLine(raw, kind, valid),
      (raw, f, disabled) => Untouched(raw, f, disabled, valid),
      (f, disabled) => FormatEntry(f, disabled),
      (raw, name, value) => SettingText(raw, name, value),
      raw => ParseLabelLine(raw),
      m => FormatLabelLine(m))
  }

  // ---- Reading ---------------------------------------------------------------------------

  /** What the line says if it is a label line. */
  function LabelIn(prev: Option<Line>, syn: Syntax): Option<Mark> {
    if prev.Some? && prev.value.content == Comment then syn.readLabel(prev.value.raw) else None
  }

  function ReadLine(raw: string, lineNo: nat, prev: Option<Line>, syn: Syntax): Line {
    var content := syn.read(raw);
    var mark := if content.Job? && LabelIn(prev, syn).Some? then LabelIn(prev, syn).value else NO_MARK;
    Line(lineNo, raw, content, mark)
  }

  function ReadLines(raws: seq<string>, syn: Syntax): (lines: seq<Line>)
    ensures |lines| == |raws|
  {
    if raws == [] then []
    else
      var init := ReadLines(raws[..|raws| - 1], syn);
      init + [ReadLine(raws[|raws| - 1], |raws|, Last(init), syn)]
  }

  function Read(text: string, syn: Syntax): seq<Line> {
    ReadLines(SplitLines(text), syn)
  }

  method ParseCrontab(text: string, syn: Syntax) returns (out: seq<Line>)
    ensures out == Read(text, syn)
  {
    var raws := SplitLines(text);
    out := [];
    for i := 0 to |raws|
      invariant out == ReadLines(raws[..i], syn)
    {
      var line := Line(i + 1, raws[i], syn.read(raws[i]), NO_MARK);
      if line.content.Job? && out != [] && out[|out| - 1].content == Comment {
        var lab := syn.readLabel(out[|out| - 1].raw);
        if lab.Some? { line := line.(mark := lab.value); }
      }
      assert raws[..i + 1][..i] == raws[..i];
      out := out + [line];
    }
    assert raws[..|raws|] == raws;
  }

  // ---- Writing ---------------------------------------------------------------------------

  function EntryText(raw: string, f: Fields, disabled: bool, syn: Syntax): string {
    if syn.untouched(raw, f, disabled) then raw else syn.entry(f, disabled)
  }

  function DropLast(out: seq<string>): seq<string> {
    if out == [] then [] else out[..|out| - 1]
  }

  /** What is written before an entry: the lines so far, with the label line kept, replaced,
      inserted or dropped. */
  function Labelled(out: seq<string>, above: Option<Mark>, mark: Mark, syn: Syntax): seq<string> {
    if above == Some(mark) then out
    else (if above.Some? then DropLast(out) else out) + (if mark == NO_MARK then [] else [syn.labelLine(mark)])
  }

  function WriteLine(out: seq<string>, prev: Option<Line>, line: Line, syn: Syntax): seq<string> {
    match line.content
    case Job(f, disabled) => Labelled(out, LabelIn(prev, syn), line.mark, syn) + [EntryText(line.raw, f, disabled, syn)]
    case Setting(name, value) => out + [syn.setting(line.raw, name, value)]
    case _ => out + [line.raw]
  }

  function WriteLines(lines: seq<Line>, syn: Syntax): seq<string> {
    if lines == [] then []
    else
      var init := lines[..|lines| - 1];
      WriteLine(WriteLines(init, syn), Last(init), lines[|lines| - 1], syn)
  }

  function Write(lines: seq<Line>, syn: Syntax): string {
    JoinLines(WriteLines(lines, syn))
  }

  method SerializeCrontab(lines: seq<Line>, syn: Syntax) returns (text: string)
    ensures text == Write(lines, syn)
  {
    var out: seq<string> := [];
    for i := 0 to |lines|
      invariant out == WriteLines(lines[..i], syn)
    {
      var line := lines[i];
      ghost var before := out;
      assert lines[..i + 1][..i] == lines[..i];
      match line.content {
        case Job(f, disabled) =>
          var entry := if syn.untouched(line.raw, f, disabled) then line.raw else syn.entry(f, disabled);
          var prevLabel := if i > 0 && lines[i - 1].content == Comment then syn.readLabel(lines[i - 1].raw) else None;
          var wantLabel := line.mark.name.Some? || line.mark.heartbeatId.Some?;
          if prevLabel.Some? {
            if prevLabel.value != line.mark {
              out := DropLast(out);
              if wantLabel { out := out + [syn.labelLine(line.mark)]; }
            }
          } else if wantLabel {
            out := out + [syn.labelLine(line.mark)];
          }
          assert prevLabel == LabelIn(Last(lines[..i]), syn);
          assert out == Labelled(before, prevLabel, line.mark, syn);
          out := out + [entry];
        case Setting(name, value) => out := out + [syn.setting(line.raw, name, value)];
        case _ => out := out + [line.raw];
      }
    }
    assert lines[..|lines|] == lines;
    text := JoinLines(out);
  }

  // ---- Laws of the syntax --------------------------------------------------------------------

  /** Fields that belong in this kind of file, and entries that may be rendered. */
  datatype Editable = Editable(fits: Fields -> bool, entries: (Fields, bool) -> bool)

  ghost predicate Lawful(syn: Syntax, ed: Editable) {
    && (forall raw :: syn.read(raw).Job? ==> ed.fits(syn.read(raw).fields) && syn.untouched(raw, syn.read(raw).fields, syn.read(raw).disabled))
    && (forall raw, f, d :: ed.fits(f) && syn.untouched(raw, f, d) && syn.read(raw).Job? ==> syn.read(raw) == Job(f, d))
    && (forall raw :: syn.read(raw).Setting? ==> syn.setting(raw, syn.read(raw).name, syn.read(raw).value) == raw)
    && (forall f, d :: ed.entries(f, d) ==> syn.read(syn.entry(f, d)) == Job(f, d) && '\n' !in syn.entry(f, d))
    && (forall m :: syn.read(syn.labelLine(m)) == Comment && '\n' !in syn.labelLine(m))
  }

  // ---- An unedited file ---------------------------------------------------------------------

  /** Writing this line after `prev` adds its raw text and changes nothing else. */
  predicate Verbatim(line: Line, prev: Option<Line>, syn: Syntax) {
    match line.content
    case Job(f, disabled) =>
      syn.untouched(line.raw, f, disabled) && line.mark == (if LabelIn(prev, syn).Some? then LabelIn(prev, syn).value else NO_MARK)
    case Setting(name, value) => syn.setting(line.raw, name, value) == line.raw
    case _ => true
  }

  lemma VerbatimAppends(out: seq<string>, line: Line, prev: Option<Line>, syn: Syntax)
    requires Verbatim(line, prev, syn)
    ensures WriteLine(out, prev, line, syn) == out + [line.raw]
  {
    if LabelIn(prev, syn).None? { assert out + [] == out; }
  }

  lemma ReadIsVerbatim(raw: string, lineNo: nat, prev: Option<Line>, syn: Syntax, ed: Editable)
    requires Lawful(syn, ed)
    ensures Verbatim(ReadLine(raw, lineNo, prev, syn), prev, syn)
  {}

  lemma {:induction false} UneditedLines(raws: seq<string>, syn: Syntax, ed: Editable)
    requires Lawful(syn, ed)
    ensures WriteLines(ReadLines(raws, syn), syn) == raws
  {
    if raws != [] {
      var init, raw := raws[..|raws| - 1], raws[|raws| - 1];
      UneditedLines(init, syn, ed);
      var lines := ReadLines(init, syn);
      var line := ReadLine(raw, |raws|, Last(lines), syn);
      assert ReadLines(raws, syn)[..|raws| - 1] == lines;
      ReadIsVerbatim(raw, |raws|, Last(lines), syn, ed);
      VerbatimAppends(init, line, Last(lines), syn);
    }
  }

  /** An unedited file comes back byte for byte, with a final newline if it lacked one. */
  lemma UneditedFile(text: string, syn: Syntax, ed: Editable)
    requires Lawful(syn, ed)
    ensures Write(Read(text, syn), syn) == if text == "" || EndsWith(text, "\n") then text else text + "\n"
  {
    UneditedLines(SplitLines(text), syn, ed);
    JoinOfSplit(text);
  }

  // ---- What an edited list must satisfy ---------------------------------------------------------

  function PrevOf(lines: seq<Line>, i: nat): Option<Line>
    requires i < |lines|
  {
    if i == 0 then None else Some(lines[i - 1])
  }

  /** The line still is what its raw text reads as; an edited entry may be rendered. Its mark may be
      anything. */
  predicate LineOk(line: Line, syn: Syntax, ed: Editable) {
    && '\n' !in line.raw
    && (if line.content.Job? then
          && syn.read(line.raw).Job? && ed.fits(line.content.fields)
          && (syn.untouched(line.raw, line.content.fields, line.content.disabled) || ed.entries(line.content.fields, line.content.disabled))
        else syn.read(line.raw) == line.content && line.mark == NO_MARK)
  }

  ghost predicate LinesOk(lines: seq<Line>, syn: Syntax, ed: Editable) {
    forall i :: 0 <= i < |lines| ==> LineOk(lines[i], syn, ed)
  }

  /** Every file is read as such a list. */
  lemma {:induction false} ReadLinesOk(raws: seq<string>, syn: Syntax, ed: Editable)
    requires Lawful(syn, ed) && forall i :: 0 <= i < |raws| ==> '\n' !in raws[i]
    ensures LinesOk(ReadLines(raws, syn), syn, ed)
  {
    if raws != [] {
      ReadLinesOk(raws[..|raws| - 1], syn, ed);
    }
  }

  // ---- Reading back what was written ------------------------------------------------------------

  /** An entry as its user sees it. */
  datatype Entry = Entry(fields: Fields, disabled: bool, mark: Mark)

  function Entries(lines: seq<Line>): seq<Entry> {
    if lines == [] then []
    else
      var last := lines[|lines| - 1];
      Entries(lines[..|lines| - 1]) +
      (if last.content.Job? then [Entry(last.content.fields, last.content.disabled, last.mark)] else [])
  }

  function MarkOf(found: Option<Mark>): Mark {
    if found.Some? then found.value else NO_MARK
  }

  /** The entry wants a label, and the line above it does not say so: a label line is written for it,
      in place of another one or of none. */
  predicate Rewritten(before: seq<Line>, line: Line, syn: Syntax) {
    line.content.Job? && line.mark != NO_MARK && LabelIn(Last(before), syn) != Some(line.mark)
  }

  /** The entry wants no label, the label line above it says something and is therefore dropped,
      and the line above that is a label line that says something, too. */
  predicate Exposed(before: seq<Line>, line: Line, syn: Syntax) {
    && line.content.Job? && line.mark == NO_MARK
    && LabelIn(Last(before), syn).Some? && LabelIn(Last(before), syn) != Some(NO_MARK)
    && before != []
    && LabelIn(Last(before[..|before| - 1]), syn).Some? && LabelIn(Last(before[..|before| - 1]), syn) != Some(NO_MARK)
  }

  /** The mark that an entry is read back with: a label line written for it may not read back as its
      mark, and dropping its label line can bring it under an older one. */
  function MarkReadBack(before: seq<Line>, line: Line, syn: Syntax): Mark {
    if Rewritten(before, line, syn) then MarkOf(syn.readLabel(syn.labelLine(line.mark)))
    else if Exposed(before, line, syn) then LabelIn(Last(before[..|before| - 1]), syn).value
    else line.mark
  }

  function EntriesReadBack(lines: seq<Line>, syn: Syntax): seq<Entry> {
    if lines == [] then []
    else
      var init, last := lines[..|lines| - 1], lines[|lines| - 1];
      EntriesReadBack(init, syn) +
      (if last.content.Job? then [Entry(last.content.fields, last.content.disabled, MarkReadBack(init, last, syn))] else [])
  }

  lemma ReadAppend(out: seq<string>, raw: string, syn: Syntax)
    ensures ReadLines(out + [raw], syn) == ReadLines(out, syn) + [ReadLine(raw, |out| + 1, Last(ReadLines(out, syn)), syn)]
  {
    assert (out + [raw])[..|out|] == out;
  }

  lemma EntriesAppend(lines: seq<Line>, line: Line)
    ensures Entries(lines + [line]) ==
      Entries(lines) + (if line.content.Job? then [Entry(line.content.fields, line.content.disabled, line.mark)] else [])
  {
    assert (lines + [line])[..|lines|] == lines;
  }

  /** What the lines written so far are read as: the entries, and the label of the last one. */
  ghost predicate ReadsAs(out: seq<string>, entries: seq<Entry>, above: Option<Mark>, syn: Syntax) {
    && Entries(ReadLines(out, syn)) == entries
    && LabelIn(Last(ReadLines(out, syn)), syn) == above
    && forall i :: 0 <= i < |out| ==> '\n' !in out[i]
  }

  lemma ReadsAsPlain(out: seq<string>, raw: string, entries: seq<Entry>, above: Option<Mark>, syn: Syntax)
    requires ReadsAs(out, entries, above, syn) && !syn.read(raw).Job? && '\n' !in raw
    ensures ReadsAs(out + [raw], entries, if syn.read(raw) == Comment then syn.readLabel(raw) else None, syn)
  {
    var line := ReadLine(raw, |out| + 1, Last(ReadLines(out, syn)), syn);
    ReadAppend(out, raw, syn);
    EntriesAppend(ReadLines(out, syn), line);
    assert Entries(ReadLines(out, syn)) + [] == entries;
  }

  lemma ReadsAsJob(out: seq<string>, raw: string, entries: seq<Entry>, above: Option<Mark>, syn: Syntax)
    requires ReadsAs(out, entries, above, syn) && syn.read(raw).Job? && '\n' !in raw
    ensures ReadsAs(out + [raw], entries + [Entry(syn.read(raw).fields, syn.read(raw).disabled, MarkOf(above))], None, syn)
  {
    var line := ReadLine(raw, |out| + 1, Last(ReadLines(out, syn)), syn);
    ReadAppend(out, raw, syn);
    EntriesAppend(ReadLines(out, syn), line);
  }

  lemma EntryTextReads(line: Line, syn: Syntax, ed: Editable)
    requires Lawful(syn, ed) && LineOk(line, syn, ed) && line.content.Job?
    ensures var text := EntryText(line.raw, line.content.fields, line.content.disabled, syn);
      syn.read(text) == line.content && '\n' !in text
  {
    if syn.untouched(line.raw, line.content.fields, line.content.disabled) {
      assert syn.read(line.raw) == Job(line.content.fields, line.content.disabled);
    }
  }

  /** Dropping the last line written, which is a comment, gives what was written before it. */
  lemma WrittenComment(lines: seq<Line>, syn: Syntax)
    requires lines != [] && lines[|lines| - 1].content == Comment
    ensures DropLast(WriteLines(lines, syn)) == WriteLines(lines[..|lines| - 1], syn)
    ensures EntriesReadBack(lines, syn) == EntriesReadBack(lines[..|lines| - 1], syn)
  {
    assert EntriesReadBack(lines[..|lines| - 1], syn) + [] == EntriesReadBack(lines[..|lines| - 1], syn);
  }

  /** What is written once the label line above an entry has been dropped, if there is one. */
  lemma DroppedReads(before: seq<Line>, kept: seq<string>, entries: seq<Entry>, syn: Syntax) returns (older: Option<Mark>)
    requires entries == EntriesReadBack(before, syn)
    requires kept == if LabelIn(Last(before), syn).Some? then DropLast(WriteLines(before, syn)) else WriteLines(before, syn)
    requires ReadsAs(WriteLines(before, syn), entries, LabelIn(Last(before), syn), syn)
    requires before != [] ==>
      ReadsAs(WriteLines(before[..|before| - 1], syn), EntriesReadBack(before[..|before| - 1], syn),
              LabelIn(Last(before[..|before| - 1]), syn), syn)
    ensures older == if LabelIn(Last(before), syn).Some? then LabelIn(Last(before[..|before| - 1]), syn) else None
    ensures ReadsAs(kept, entries, older, syn)
  {
    if LabelIn(Last(before), syn).Some? {
      WrittenComment(before, syn);
      older := LabelIn(Last(before[..|before| - 1]), syn);
    } else {
      older := None;
    }
  }

  /** The label part of writing an entry leaves what is needed above it. */
  lemma LabelledReads(before: seq<Line>, line: Line, entries: seq<Entry>, syn: Syntax, ed: Editable) returns (above: Option<Mark>)
    requires Lawful(syn, ed) && line.content.Job? && entries == EntriesReadBack(before, syn)
    requires ReadsAs(WriteLines(before, syn), entries, LabelIn(Last(before), syn), syn)
    requires before != [] ==>
      ReadsAs(WriteLines(before[..|before| - 1], syn), EntriesReadBack(before[..|before| - 1], syn),
              LabelIn(Last(before[..|before| - 1]), syn), syn)
    ensures ReadsAs(Labelled(WriteLines(before, syn), LabelIn(Last(before), syn), line.mark, syn), entries, above, syn)
    ensures MarkOf(above) == MarkReadBack(before, line, syn)
  {
    var out, mark := WriteLines(before, syn), line.mark;
    above := LabelIn(Last(before), syn);
    if above != Some(mark) {
      var kept := if above.Some? then DropLast(out) else out;
      above := DroppedReads(before, kept, entries, syn);
      if mark == NO_MARK {
        assert kept + [] == kept;
      } else {
        ReadsAsPlain(kept, syn.labelLine(mark), entries, above, syn);
        above := syn.readLabel(syn.labelLine(mark));
      }
    }
  }

  lemma {:induction false} WrittenReadsAs(lines: seq<Line>, syn: Syntax, ed: Editable)
    requires Lawful(syn, ed) && LinesOk(lines, syn, ed)
    ensures ReadsAs(WriteLines(lines, syn), EntriesReadBack(lines, syn), LabelIn(Last(lines), syn), syn)
    decreases |lines|
  {
    if lines != [] {
      var init, line := lines[..|lines| - 1], lines[|lines| - 1];
      WrittenReadsAs(init, syn, ed);
      var out := WriteLines(init, syn);
      if line.content.Job? {
        if init != [] { WrittenReadsAs(init[..|init| - 1], syn, ed); }
        var above := LabelledReads(init, line, EntriesReadBack(init, syn), syn, ed);
        EntryTextReads(line, syn, ed);
        var labelled := Labelled(out, LabelIn(Last(init), syn), line.mark, syn);
        ReadsAsJob(labelled, EntryText(line.raw, line.content.fields, line.content.disabled, syn), EntriesReadBack(init, syn), above, syn);
      } else {
        ReadsAsPlain(out, line.raw, EntriesReadBack(init, syn), LabelIn(Last(init), syn), syn);
        assert EntriesReadBack(init, syn) + [] == EntriesReadBack(init, syn);
      }
    }
  }

  /** No entry of the list loses a label line and comes under an older one. */
  ghost predicate NoneExposed(lines: seq<Line>, syn: Syntax) {
    forall i :: 0 <= i < |lines| ==> !Exposed(lines[..i], lines[i], syn)
  }

  /** Every label line that is written anew reads back as the mark it was written for. */
  ghost predicate RewrittenReadBack(lines: seq<Line>, syn: Syntax) {
    forall i :: 0 <= i < |lines| && Rewritten(lines[..i], lines[i], syn) ==> syn.readLabel(syn.labelLine(lines[i].mark)) == Some(lines[i].mark)
  }

  lemma LastMark(before: seq<Line>, line: Line, syn: Syntax)
    requires line.content.Job?
    ensures MarkReadBack(before, line, syn) == line.mark <==>
      !Exposed(before, line, syn) && (Rewritten(before, line, syn) ==> syn.readLabel(syn.labelLine(line.mark)) == Some(line.mark))
  {}

  lemma ConditionsInit(lines: seq<Line>, syn: Syntax)
    requires lines != []
    ensures var init, line := lines[..|lines| - 1], lines[|lines| - 1];
      && (NoneExposed(lines, syn) <==> NoneExposed(init, syn) && !Exposed(init, line, syn))
      && (RewrittenReadBack(lines, syn) <==>
            RewrittenReadBack(init, syn) && (Rewritten(init, line, syn) ==> syn.readLabel(syn.labelLine(line.mark)) == Some(line.mark)))
  {
    var init := lines[..|lines| - 1];
    assert forall i :: 0 <= i < |init| ==> init[..i] == lines[..i] && init[i] == lines[i];
  }

  lemma {:induction false} ReadBackIff(lines: seq<Line>, syn: Syntax)
    ensures EntriesReadBack(lines, syn) == Entries(lines) <==> NoneExposed(lines, syn) && RewrittenReadBack(lines, syn)
    ensures |EntriesReadBack(lines, syn)| == |Entries(lines)|
  {
    if lines != [] {
      var init, line := lines[..|lines| - 1], lines[|lines| - 1];
      ReadBackIff(init, syn);
      ConditionsInit(lines, syn);
      if line.content.Job? {
        LastMark(init, line, syn);
        LastEntry(EntriesReadBack(init, syn), Entries(init), Entry(line.content.fields, line.content.disabled, MarkReadBack(init, line, syn)),
                  Entry(line.content.fields, line.content.disabled, line.mark));
      } else {
        assert EntriesReadBack(init, syn) + [] == EntriesReadBack(init, syn);
        assert Entries(init) + [] == Entries(init);
      }
    }
  }

  lemma LastEntry(p: seq<Entry>, q: seq<Entry>, x: Entry, y: Entry)
    requires |p| == |q|
    ensures p + [x] == q + [y] <==> p == q && x == y
  {
    if p + [x] == q + [y] {
      assert p == (p + [x])[..|p|] == (q + [y])[..|q|] == q;
      assert (p + [x])[|p|] == x && (q + [y])[|q|] == y;
    }
  }

  /** Every list of well-formed lines is written so that it reads back as the same entries, with
      the same schedule, user, command, state, label and heartbeat, exactly when no entry that
      loses its label line comes under an older one and every label line written anew reads back. */
  lemma EditedFileReadsBackIff(lines: seq<Line>, syn: Syntax, ed: Editable)
    requires Lawful(syn, ed) && LinesOk(lines, syn, ed)
    ensures Entries(Read(Write(lines, syn), syn)) == Entries(lines) <==> NoneExposed(lines, syn) && RewrittenReadBack(lines, syn)
  {
    WrittenReadsAs(lines, syn, ed);
    SplitOfJoin(WriteLines(lines, syn));
    ReadBackIff(lines, syn);
  }

  // ---- One entry of a file just read is changed -------------------------------------------------

  lemma {:induction false} ReadPrefix(raws: seq<string>, i: nat, syn: Syntax)
    requires i <= |raws|
    ensures ReadLines(raws, syn)[..i] == ReadLines(raws[..i], syn)
    decreases |raws|
  {
    if i < |raws| {
      ReadPrefix(raws[..|raws| - 1], i, syn);
      assert raws[..|raws| - 1][..i] == raws[..i];
    } else {
      assert raws[..i] == raws;
    }
  }

  lemma ReadAt(raws: seq<string>, i: nat, syn: Syntax)
    requires i < |raws|
    ensures var lines := ReadLines(raws, syn);
      lines[i] == ReadLine(raws[i], i + 1, PrevOf(lines, i), syn)
  {
    ReadPrefix(raws, i, syn);
    ReadPrefix(raws, i + 1, syn);
    assert raws[..i + 1][..i] == raws[..i];
    var lines := ReadLines(raws, syn);
    assert lines[..i + 1][i] == lines[i];
    assert Last(lines[..i]) == PrevOf(lines, i);
  }

  lemma StepWritten(init: seq<Line>, line: Line, all: seq<Line>, out: seq<string>, syn: Syntax)
    requires all == init + [line] && WriteLines(init, syn) == out
    ensures WriteLines(all, syn) == WriteLine(out, Last(init), line, syn)
  {
    assert all[..|all| - 1] == init;
  }

  /** Lines that say what their raw text says. */
  ghost predicate AllVerbatim(lines: seq<Line>, raws: seq<string>, syn: Syntax) {
    && |lines| == |raws|
    && forall j :: 0 <= j < |raws| ==> lines[j].raw == raws[j] && Verbatim(lines[j], PrevOf(lines, j), syn)
  }

  lemma ReadAllVerbatim(raws: seq<string>, syn: Syntax, ed: Editable)
    requires Lawful(syn, ed)
    ensures AllVerbatim(ReadLines(raws, syn), raws, syn)
  {
    var lines := ReadLines(raws, syn);
    forall j | 0 <= j < |raws| ensures lines[j].raw == raws[j] && Verbatim(lines[j], PrevOf(lines, j), syn) {
      ReadAt(raws, j, syn);
      ReadIsVerbatim(raws[j], j + 1, PrevOf(lines, j), syn, ed);
    }
  }

  /** Every line of `tail` says what its raw text says, below the line that stands above it. */
  ghost predicate VerbatimBelow(head: seq<Line>, tail: seq<Line>, raws: seq<string>, syn: Syntax) {
    |tail| == |raws| && forall j :: 0 <= j < |tail| ==> VerbatimAt(Last(head), tail, raws, j, syn)
  }

  predicate VerbatimAt(above: Option<Line>, tail: seq<Line>, raws: seq<string>, j: nat, syn: Syntax)
    requires |tail| == |raws|
  {
    j < |tail| && tail[j].raw == raws[j] && Verbatim(tail[j], if j == 0 then above else Some(tail[j - 1]), syn)
  }

  lemma VerbatimPrefix(head: seq<Line>, tail: seq<Line>, raws: seq<string>, m: nat, syn: Syntax)
    requires VerbatimBelow(head, tail, raws, syn) && m <= |tail|
    ensures VerbatimBelow(head, tail[..m], raws[..m], syn)
  {
    forall j | 0 <= j < m ensures VerbatimAt(Last(head), tail[..m], raws[..m], j, syn) {
      assert VerbatimAt(Last(head), tail, raws, j, syn);
    }
  }

  lemma {:induction false} BelowIsWritten(head: seq<Line>, tail: seq<Line>, raws: seq<string>, out: seq<string>, syn: Syntax)
    requires VerbatimBelow(head, tail, raws, syn) && WriteLines(head, syn) == out
    ensures WriteLines(head + tail, syn) == out + raws
    decreases |tail|
  {
    if tail == [] {
      assert head + tail == head && out + raws == out;
    } else {
      var m := |tail| - 1;
      var init, line := tail[..m], tail[m];
      VerbatimPrefix(head, tail, raws, m, syn);
      assert VerbatimAt(Last(head), tail, raws, m, syn);
      BelowIsWritten(head, init, raws[..m], out, syn);
      var above, written := head + init, out + raws[..m];
      assert Last(above) == if m == 0 then Last(head) else Some(tail[m - 1]);
      LastMoved(head, init, line, tail, out, raws[..m], raws[m], raws);
      StepWritten(above, line, head + tail, written, syn);
      VerbatimAppends(written, line, Last(above), syn);
    }
  }

  lemma LastMoved(head: seq<Line>, init: seq<Line>, line: Line, tail: seq<Line>, out: seq<string>, first: seq<string>, last: string, raws: seq<string>)
    requires tail == init + [line] && raws == first + [last]
    ensures head + tail == (head + init) + [line] && out + raws == (out + first) + [last]
  {}

  /** Changing one entry of a file rewrites that entry and its label line, and no other line. */
  lemma OneEntryChanged(raws: seq<string>, i: nat, line: Line, syn: Syntax, ed: Editable)
    requires Lawful(syn, ed) && i < |raws|
    requires ReadLines(raws, syn)[i].content.Job? && line.content.Job?
    ensures var lines := ReadLines(raws, syn);
      WriteLines(lines[i := line], syn) ==
        WriteLine(raws[..i], PrevOf(lines, i), line, syn) + raws[i + 1..]
  {
    ReadAllVerbatim(raws, syn, ed);
    ReadPrefix(raws, i, syn);
    UneditedLines(raws[..i], syn, ed);
    EntryChanged(ReadLines(raws, syn), raws, i, line, syn);
  }

  lemma TailIsVerbatim(was: seq<Line>, raws: seq<string>, i: nat, line: Line, syn: Syntax)
    requires AllVerbatim(was, raws, syn) && i < |raws| && was[i].content.Job? && line.content.Job?
    ensures VerbatimBelow(was[..i] + [line], was[i + 1..], raws[i + 1..], syn)
  {
    var head, tail, rest := was[..i] + [line], was[i + 1..], raws[i + 1..];
    forall j | 0 <= j < |tail| ensures VerbatimAt(Last(head), tail, rest, j, syn) {
      assert Verbatim(was[i + 1 + j], PrevOf(was, i + 1 + j), syn);
      assert tail[j] == was[i + 1 + j] && PrevOf(was, i + 1 + j) == Some(was[i + j]);
      if j == 0 {
        assert Last(head) == Some(line);
        SameLabelVerbatim(tail[0], Some(was[i]), Some(line), syn);
      } else {
        assert tail[j - 1] == was[i + j];
      }
    }
  }

  lemma SameLabelVerbatim(line: Line, prev: Option<Line>, now: Option<Line>, syn: Syntax)
    requires Verbatim(line, prev, syn) && LabelIn(prev, syn) == LabelIn(now, syn)
    ensures Verbatim(line, now, syn)
  {}

  lemma EntryChanged(was: seq<Line>, raws: seq<string>, i: nat, line: Line, syn: Syntax)
    requires AllVerbatim(was, raws, syn) && i < |raws| && was[i].content.Job? && line.content.Job?
    requires WriteLines(was[..i], syn) == raws[..i]
    ensures WriteLines(was[i := line], syn) == WriteLine(raws[..i], PrevOf(was, i), line, syn) + raws[i + 1..]
  {
    var above, tail, all := was[..i], was[i + 1..], was[i := line];
    ReplacedIn(was, i, line, above, tail, all);
    TailIsVerbatim(was, raws, i, line, syn);
    WrittenBelow(above, line, tail, raws[i + 1..], all, raws[..i], syn);
  }

  lemma ReplacedIn(was: seq<Line>, i: nat, line: Line, above: seq<Line>, tail: seq<Line>, all: seq<Line>)
    requires i < |was| && above == was[..i] && tail == was[i + 1..] && all == was[i := line]
    ensures all == (above + [line]) + tail && Last(above) == PrevOf(was, i)
  {}

  lemma WrittenBelow(above: seq<Line>, line: Line, tail: seq<Line>, raws: seq<string>, all: seq<Line>, out: seq<string>, syn: Syntax)
    requires VerbatimBelow(above + [line], tail, raws, syn) && all == (above + [line]) + tail && WriteLines(above, syn) == out
    ensures WriteLines(all, syn) == WriteLine(out, Last(above), line, syn) + raws
  {
    StepWritten(above, line, above + [line], out, syn);
    BelowIsWritten(above + [line], tail, raws, WriteLine(out, Last(above), line, syn), syn);
  }
}
