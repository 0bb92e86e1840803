/** Edits of a crontab: change, add or remove an entry. A list reached from a file by edits that
    supply well-formed entries is written so that it reads back as the same entries. */
module CrontabEdit {
  import opened Options
  import opened Text
  import opened CronSchedule
  import opened CronLabels
  import opened CronLines
  import opened CronFormat
  import opened CrontabText

  // ---- The real syntax is lawful --------------------------------------------------------------

  /** What may be rendered in a crontab of this kind. */
  function CrontabEditable(kind: Kind, valid: Validator): Editable {
    Editable(f => KindOf(f) == kind, (f, disabled) => WellFormed(f, disabled, kind, valid))
  }

  lemma UserFollowsKind(text: string, kind: Kind, valid: Validator)
    requires ParseEntry(text, kind, valid).Some?
    ensures KindOf(ParseEntry(text, kind, valid).value) == kind
  {
    ParseEntrySteps(text, kind, valid);
  }

  lemma JobMeans(blank: bool, off: bool, comment: bool, cr: bool, setting: Option<(string, string)>, entry: Option<Fields>)
    requires Classify(blank, off, comment, cr, setting, entry).Job?
    ensures var job := Classify(blank, off, comment, cr, setting, entry);
      entry == Some(job.fields) && off == job.disabled
  {}

  lemma SettingMeans(blank: bool, off: bool, comment: bool, cr: bool, setting: Option<(string, string)>, entry: Option<Fields>)
    requires Classify(blank, off, comment, cr, setting, entry).Setting?
    ensures var s := Classify(blank, off, comment, cr, setting, entry);
      setting.Some? && setting.value.0 == s.name && Unquote(setting.value.1) == s.value
  {}

  lemma JobIsUntouched(raw: string, kind: Kind, valid: Validator)
    requires ParseLine(raw, kind, valid).Job?
    ensures Untouched(raw, ParseLine(raw, kind, valid).fields, ParseLine(raw, kind, valid).disabled, valid)
  {
    JobMeans(Trim(raw) == "", StartsWith(raw, DISABLED_PREFIX), IsComment(raw), EndsWith(raw, "\r"), EnvOf(raw),
             ParseEntry(Enabled(raw), kind, valid));
    UserFollowsKind(Enabled(raw), kind, valid);
  }

  lemma UntouchedIsRead(raw: string, f: Fields, disabled: bool, kind: Kind, valid: Validator)
    requires KindOf(f) == kind && Untouched(raw, f, disabled, valid) && ParseLine(raw, kind, valid).Job?
    ensures ParseLine(raw, kind, valid) == Job(f, disabled)
  {
    JobMeans(Trim(raw) == "", StartsWith(raw, DISABLED_PREFIX), IsComment(raw), EndsWith(raw, "\r"), EnvOf(raw),
             ParseEntry(Enabled(raw), kind, valid));
  }

  lemma SettingStays(raw: string, kind: Kind, valid: Validator)
    requires ParseLine(raw, kind, valid).Setting?
    ensures SettingText(raw, ParseLine(raw, kind, valid).name, ParseLine(raw, kind, valid).value) == raw
  {
    SettingMeans(Trim(raw) == "", StartsWith(raw, DISABLED_PREFIX), IsComment(raw), EndsWith(raw, "\r"), EnvOf(raw),
                 ParseEntry(Enabled(raw), kind, valid));
  }

  lemma WellFormedReadsBack(f: Fields, disabled: bool, kind: Kind, valid: Validator)
    requires Strict(valid) && WellFormed(f, disabled, kind, valid)
    ensures ParseLine(FormatEntry(f, disabled), kind, valid) == Job(f, disabled)
  {
    EntryReadsBackIff(f, disabled, kind, valid);
  }

  lemma WellFormedIsOneLine(f: Fields, disabled: bool)
    requires Trimmed(f.schedule) && '\n' !in f.schedule && '\n' !in f.command && (f.user.Some? ==> IsUserName(f.user.value))
    ensures '\n' !in FormatEntry(f, disabled)
  {
    TextOf(f);
    if f.user.Some? { UserNameChars(f.user.value); }
    TailIsOneLine(f);
    PrefixIsOneLine(FormatFields(f));
  }

  lemma PrefixIsOneLine(text: string)
    requires '\n' !in text
    ensures '\n' !in DISABLED_PREFIX + text
  {}

  lemma TailIsOneLine(f: Fields)
    requires '\n' !in f.command && (f.user.Some? ==> '\n' !in f.user.value)
    ensures '\n' !in Tail(f)
  {}

  lemma PrefixedIsComment(raw: string, kind: Kind, valid: Validator)
    requires StartsWith(raw, LABEL_PREFIX)
    ensures ParseLine(raw, kind, valid) == Comment
  {
    assert LABEL_PREFIX[0] == '#' && LABEL_PREFIX[1] == ' ' && DISABLED_PREFIX[1] == 'r';
    assert raw[0] == '#' && raw[1] == ' ';
    TrimKeepsHead(raw);
    CommentMeans(raw, Trim(raw) == "", StartsWith(raw, DISABLED_PREFIX), EndsWith(raw, "\r"), EnvOf(raw), ParseEntry(Enabled(raw), kind, valid));
  }

  lemma CommentMeans(raw: string, blank: bool, off: bool, cr: bool, setting: Option<(string, string)>, entry: Option<Fields>)
    requires !blank && !off && IsComment(raw)
    ensures Classify(blank, off, IsComment(raw), cr, setting, entry) == Comment
  {}

  /** Crontabs obey the laws that the list level relies on. */
  lemma CrontabIsLawful(kind: Kind, valid: Validator)
    requires Strict(valid)
    ensures Lawful(CrontabSyntax(kind, valid), CrontabEditable(kind, valid))
  {
    var syn, ed := CrontabSyntax(kind, valid), CrontabEditable(kind, valid);
    forall raw | syn.read(raw).Job?
      ensures ed.fits(syn.read(raw).fields) && syn.untouched(raw, syn.read(raw).fields, syn.read(raw).disabled)
    {
      JobIsUntouched(raw, kind, valid);
      JobFits(raw, kind, valid);
    }
    forall raw, f, d | ed.fits(f) && syn.untouched(raw, f, d) && syn.read(raw).Job? ensures syn.read(raw) == Job(f, d) {
      UntouchedIsRead(raw, f, d, kind, valid);
    }
    forall raw | syn.read(raw).Setting? ensures syn.setting(raw, syn.read(raw).name, syn.read(raw).value) == raw {
      SettingStays(raw, kind, valid);
    }
    forall f, d | ed.entries(f, d) ensures syn.read(syn.entry(f, d)) == Job(f, d) && '\n' !in syn.entry(f, d) {
      WellFormedReadsBack(f, d, kind, valid);
      WellFormedIsOneLine(f, d);
    }
    forall m ensures syn.read(syn.labelLine(m)) == Comment && '\n' !in syn.labelLine(m) {
      LabelLineIsOneLine(m);
      PrefixedIsComment(FormatLabelLine(m), kind, valid);
    }
  }

  lemma JobFits(raw: string, kind: Kind, valid: Validator)
    requires ParseLine(raw, kind, valid).Job?
    ensures KindOf(ParseLine(raw, kind, valid).fields) == kind
  {
    JobMeans(Trim(raw) == "", StartsWith(raw, DISABLED_PREFIX), IsComment(raw), EndsWith(raw, "\r"), EnvOf(raw),
             ParseEntry(Enabled(raw), kind, valid));
    UserFollowsKind(Enabled(raw), kind, valid);
  }

  // ---- The edits ------------------------------------------------------------------------------

  /** What to change; a user, label or heartbeat that is given but empty is cleared. */
  datatype Patch = Patch(
    schedule: Option<string>, command: Option<string>, disabled: Option<bool>,
    user: Option<Option<string>>, name: Option<Option<string>>, heartbeatId: Option<Option<nat>>)

  function Or<T>(change: Option<T>, current: T): T {
    if change.Some? then change.value else current
  }

  function NonEmptyText(text: Option<string>): Option<string> {
    if text.Some? && text.value != "" then text else None
  }

  function ApplyPatch(line: Line, p: Patch): Line {
    if !line.content.Job? then line
    else
      var f := line.content.fields;
      var fields := Fields(
        if p.schedule.Some? then Trim(p.schedule.value) else f.schedule,
        if p.user.Some? then NonEmptyText(p.user.value) else f.user,
        Or(p.command, f.command));
      var mark := Mark(
        if p.name.Some? then NonEmptyText(p.name.value) else line.mark.name,
        Or(p.heartbeatId, line.mark.heartbeatId));
      line.(content := Job(fields, Or(p.disabled, line.content.disabled)), mark := mark)
  }

  function UpdateEntry(lines: seq<Line>, lineNo: nat, p: Patch): seq<Line> {
    seq(|lines|, i requires 0 <= i < |lines| => if lines[i].lineNo == lineNo then ApplyPatch(lines[i], p) else lines[i])
  }

  /** The first line of that number, or the first entry of that number. */
  function Find(lines: seq<Line>, lineNo: nat, entry: bool): (r: Option<nat>)
    ensures r.Some? ==> r.value < |lines| && lines[r.value].lineNo == lineNo && (entry ==> lines[r.value].content.Job?)
  {
    if lines == [] then None
    else if lines[0].lineNo == lineNo && (entry ==> lines[0].content.Job?) then Some(0)
    else
      var rest := Find(lines[1..], lineNo, entry);
      if rest.Some? then Some(rest.value + 1) else None
  }

  function NewLine(f: Fields, disabled: bool, mark: Mark, syn: Syntax): Line {
    var fields := f.(schedule := Trim(f.schedule));
    Line(0, syn.entry(fields, disabled), Job(fields, disabled), mark.(name := NonEmptyText(mark.name)))
  }

  /** Where a new entry goes: after the given line, or at the end. */
  function InsertAt(lines: seq<Line>, after: Option<nat>): (k: nat)
    ensures k <= |lines|
  {
    if after.Some? && Find(lines, after.value, false).Some? then Find(lines, after.value, false).value + 1 else |lines|
  }

  function InsertEntry(lines: seq<Line>, line: Line, after: Option<nat>): seq<Line> {
    var k := InsertAt(lines, after);
    lines[..k] + [line] + lines[k..]
  }

  /** Where an entry begins, its label line included. */
  function CutFrom(lines: seq<Line>, k: nat, syn: Syntax): (from: nat)
    requires k < |lines|
    ensures from <= k
  {
    if LabelIn(PrevOf(lines, k), syn).Some? then k - 1 else k
  }

  /** The entry goes together with the label line above it. */
  function RemoveEntry(lines: seq<Line>, lineNo: nat, syn: Syntax): seq<Line> {
    var found := Find(lines, lineNo, true);
    if found.None? then lines
    else
      lines[..CutFrom(lines, found.value, syn)] + lines[found.value + 1..]
  }

  datatype Edit =
    | Update(lineNo: nat, patch: Patch)
    | Insert(fields: Fields, disabled: bool, mark: Mark, after: Option<nat>)
    | Remove(entry: nat)

  function Apply(lines: seq<Line>, e: Edit, syn: Syntax): seq<Line> {
    match e
    case Update(lineNo, p) => UpdateEntry(lines, lineNo, p)
    case Insert(f, disabled, mark, after) => InsertEntry(lines, NewLine(f, disabled, mark, syn), after)
    case Remove(lineNo) => RemoveEntry(lines, lineNo, syn)
  }

  // ---- What the edits do to the lines -----------------------------------------------------------

  predicate IsNumbered(line: Line, lineNo: nat, entry: bool) {
    line.lineNo == lineNo && (entry ==> line.content.Job?)
  }

  /** The first line of that number, or the first entry of that number, is at `k`. */
  ghost predicate IsFirst(lines: seq<Line>, lineNo: nat, entry: bool, k: nat) {
    && k < |lines| && IsNumbered(lines[k], lineNo, entry)
    && forall i :: 0 <= i < k ==> !IsNumbered(lines[i], lineNo, entry)
  }

  ghost predicate IsNowhere(lines: seq<Line>, lineNo: nat, entry: bool) {
    forall i :: 0 <= i < |lines| ==> !IsNumbered(lines[i], lineNo, entry)
  }

  lemma {:induction false} FindIsFirst(lines: seq<Line>, lineNo: nat, entry: bool)
    ensures var r := Find(lines, lineNo, entry);
      if r.Some? then IsFirst(lines, lineNo, entry, r.value) else IsNowhere(lines, lineNo, entry)
  {
    if lines != [] {
      FindIsFirst(lines[1..], lineNo, entry);
    }
  }

  predicate IsLabelLine(line: Line, syn: Syntax) {
    line.content == Comment && syn.readLabel(line.raw).Some?
  }

  /** `now` is `lines` without the `n` lines that end at `k`. */
  ghost predicate Without(lines: seq<Line>, k: nat, n: nat, now: seq<Line>) {
    && n <= k + 1 <= |lines| && |now| == |lines| - n
    && (forall i :: 0 <= i < k + 1 - n ==> now[i] == lines[i])
    && (forall i :: k < i < |lines| ==> now[i - n] == lines[i])
  }

  /** Removing takes away the first entry of that number, and the label line directly above it if
      there is one; every other line stays, in order. Without such an entry nothing changes. */
  lemma RemovedLines(lines: seq<Line>, lineNo: nat, syn: Syntax)
    ensures IsNowhere(lines, lineNo, true) ==> RemoveEntry(lines, lineNo, syn) == lines
    ensures forall k: nat :: IsFirst(lines, lineNo, true, k) ==>
      Without(lines, k, if k > 0 && IsLabelLine(lines[k - 1], syn) then 2 else 1, RemoveEntry(lines, lineNo, syn))
  {
    FindIsFirst(lines, lineNo, true);
    forall k: nat | IsFirst(lines, lineNo, true, k)
      ensures Without(lines, k, if k > 0 && IsLabelLine(lines[k - 1], syn) then 2 else 1, RemoveEntry(lines, lineNo, syn))
    {
      FirstIsUnique(lines, lineNo, true, k);
      LabelAbove(lines, k, syn);
      CutOut(lines, CutFrom(lines, k, syn), k);
    }
  }

  lemma FirstIsUnique(lines: seq<Line>, lineNo: nat, entry: bool, k: nat)
    requires IsFirst(lines, lineNo, entry, k)
    ensures Find(lines, lineNo, entry) == Some(k)
  {
    FindIsFirst(lines, lineNo, entry);
  }

  lemma LabelAbove(lines: seq<Line>, k: nat, syn: Syntax)
    requires k < |lines|
    ensures CutFrom(lines, k, syn) == if k > 0 && IsLabelLine(lines[k - 1], syn) then k - 1 else k
  {}

  lemma CutOut(lines: seq<Line>, from: nat, k: nat)
    requires from <= k < |lines|
    ensures Without(lines, k, k + 1 - from, lines[..from] + lines[k + 1..])
  {}

  /** `now` is `lines` with `line` put in at `k`. */
  ghost predicate With(lines: seq<Line>, k: nat, line: Line, now: seq<Line>) {
    && k <= |lines| && |now| == |lines| + 1 && now[k] == line
    && (forall i :: 0 <= i < k ==> now[i] == lines[i])
    && (forall i :: k <= i < |lines| ==> now[i + 1] == lines[i])
  }

  /** Inserting keeps every line, in order, and puts the entry directly below the first line of the
      given number, or at the end if there is none. */
  lemma InsertedLine(lines: seq<Line>, line: Line, after: Option<nat>)
    ensures after.None? || IsNowhere(lines, after.value, false) ==> With(lines, |lines|, line, InsertEntry(lines, line, after))
    ensures after.Some? ==> forall k: nat :: IsFirst(lines, after.value, false, k) ==> With(lines, k + 1, line, InsertEntry(lines, line, after))
  {
    if after.Some? {
      FindIsFirst(lines, after.value, false);
      forall k: nat | IsFirst(lines, after.value, false, k)
        ensures Find(lines, after.value, false) == Some(k)
      {
        FirstIsUnique(lines, after.value, false, k);
      }
    }
  }

  /** The line of a new entry says what was asked for, with the schedule trimmed and an empty label
      taken for none, and is spelled as it would be rendered. */
  lemma NewLineSays(f: Fields, disabled: bool, mark: Mark, syn: Syntax)
    ensures var line := NewLine(f, disabled, mark, syn);
      && line.lineNo == 0 && line.content.Job? && line.content.disabled == disabled
      && line.content.fields.user == f.user && line.content.fields.command == f.command
      && line.content.fields.schedule == Trim(f.schedule)
      && line.raw == syn.entry(line.content.fields, disabled)
      && line.mark.heartbeatId == mark.heartbeatId
      && (line.mark.name == if mark.name == Some("") then None else mark.name)
  {}

  /** A field that is given is set, one that is given empty is cleared, and any other keeps its value. */
  predicate Sets(change: Option<Option<string>>, before: Option<string>, after: Option<string>) {
    match change
    case None => after == before
    case Some(None) => after == None
    case Some(Some(text)) => if text == "" then after == None else after == Some(text)
  }

  predicate Keeps<T(==)>(change: Option<T>, before: T, after: T) {
    match change
    case None => after == before
    case Some(value) => after == value
  }

  /** The entry after a patch, field by field. */
  predicate IsPatched(line: Line, p: Patch, now: Line) {
    && line.content.Job? && now.content.Job?
    && now.lineNo == line.lineNo && now.raw == line.raw
    && (p.schedule.None? ==> now.content.fields.schedule == line.content.fields.schedule)
    && (p.schedule.Some? ==> now.content.fields.schedule == Trim(p.schedule.value))
    && Sets(p.user, line.content.fields.user, now.content.fields.user)
    && Keeps(p.command, line.content.fields.command, now.content.fields.command)
    && Keeps(p.disabled, line.content.disabled, now.content.disabled)
    && Sets(p.name, line.mark.name, now.mark.name)
    && Keeps(p.heartbeatId, line.mark.heartbeatId, now.mark.heartbeatId)
  }

  /** Updating patches the entries of that number and leaves every other line as it is. */
  lemma UpdatedLines(lines: seq<Line>, lineNo: nat, p: Patch)
    ensures var now := UpdateEntry(lines, lineNo, p);
      && |now| == |lines|
      && forall i :: 0 <= i < |lines| ==>
           if IsNumbered(lines[i], lineNo, true) then IsPatched(lines[i], p, now[i]) else now[i] == lines[i]
  {
    forall i | 0 <= i < |lines|
      ensures if IsNumbered(lines[i], lineNo, true)
        then IsPatched(lines[i], p, UpdateEntry(lines, lineNo, p)[i])
        else UpdateEntry(lines, lineNo, p)[i] == lines[i]
    {
      PatchSays(lines[i], p);
    }
  }

  lemma PatchSays(line: Line, p: Patch)
    ensures if line.content.Job? then IsPatched(line, p, ApplyPatch(line, p)) else ApplyPatch(line, p) == line
  {}

  // ---- What removing an entry does to the file ----------------------------------------------------

  /** The line above `from` is a label line that says something. */
  predicate LabelStandsAbove(lines: seq<Line>, from: nat, syn: Syntax)
    requires from <= |lines|
  {
    from > 0 && IsLabelLine(lines[from - 1], syn) && syn.readLabel(lines[from - 1].raw) != Some(NO_MARK)
  }

  /** What is left above the entry on line `k + 1` once it is gone. */
  function KeptAbove(raws: seq<string>, was: seq<Line>, from: nat, k: nat, syn: Syntax): seq<string>
    requires from <= k < |was| == |raws|
  {
    if LabelStandsAbove(was, from, syn) && k + 1 < |was| && was[k + 1].content.Job? then raws[..from - 1] else raws[..from]
  }

  /** Removing the entry on line `k + 1` of a file just read takes that line and the label line directly
      above it out of the file, and every other line stays byte for byte; unless an older label line
      stands above these and another entry directly below: then the older label line goes too. */
  lemma RemovedFromFile(raws: seq<string>, k: nat, syn: Syntax, ed: Editable)
    requires Lawful(syn, ed) && k < |raws| && ReadLines(raws, syn)[k].content.Job?
    ensures var was := ReadLines(raws, syn);
      WriteLines(RemoveEntry(was, k + 1, syn), syn) == KeptAbove(raws, was, CutFrom(was, k, syn), k, syn) + raws[k + 1..]
  {
    var was := ReadLines(raws, syn);
    var from := CutFrom(was, k, syn);
    var head, tail := was[..from], was[k + 1..];
    EntryAtLine(raws, k, syn);
    HeadIsWritten(raws, was, from, head, syn, ed);
    CutWritten(was, raws, from, k, head, tail, raws[k + 1..], syn);
    RemovedAre(was, k, from, head, tail, syn);
  }

  lemma RemovedAre(was: seq<Line>, k: nat, from: nat, head: seq<Line>, tail: seq<Line>, syn: Syntax)
    requires Find(was, k + 1, true) == Some(k) && k < |was| && from == CutFrom(was, k, syn)
    requires head == was[..from] && tail == was[k + 1..]
    ensures RemoveEntry(was, k + 1, syn) == head + tail
  {}

  lemma HeadIsWritten(raws: seq<string>, was: seq<Line>, from: nat, head: seq<Line>, syn: Syntax, ed: Editable)
    requires Lawful(syn, ed) && was == ReadLines(raws, syn) && from <= |raws| && head == was[..from]
    ensures AllVerbatim(was, raws, syn) && WriteLines(head, syn) == raws[..from]
  {
    ReadAllVerbatim(raws, syn, ed);
    ReadPrefix(raws, from, syn);
    UneditedLines(raws[..from], syn, ed);
  }

  lemma EntryAtLine(raws: seq<string>, k: nat, syn: Syntax)
    requires k < |raws| && ReadLines(raws, syn)[k].content.Job?
    ensures Find(ReadLines(raws, syn), k + 1, true) == Some(k)
  {
    ReadNumbers(raws, syn);
    FirstIsUnique(ReadLines(raws, syn), k + 1, true, k);
  }

  lemma ReadNumbers(raws: seq<string>, syn: Syntax)
    ensures var was := ReadLines(raws, syn); forall i :: 0 <= i < |raws| ==> was[i].lineNo == i + 1
  {
    forall i | 0 <= i < |raws|
      ensures ReadLines(raws, syn)[i].lineNo == i + 1
    {
      ReadAt(raws, i, syn);
    }
  }

  lemma CutWritten(
    was: seq<Line>, raws: seq<string>, from: nat, k: nat, head: seq<Line>, tail: seq<Line>, below: seq<string>, syn: Syntax)
    requires AllVerbatim(was, raws, syn) && k < |was| && was[k].content.Job? && from <= k
    requires head == was[..from] && tail == was[k + 1..] && below == raws[k + 1..] && WriteLines(head, syn) == raws[..from]
    ensures WriteLines(head + tail, syn) == KeptAbove(raws, was, from, k, syn) + below
  {
    var kept := KeptAbove(raws, was, from, k, syn);
    if k + 1 == |was| {
      NothingBelow(head, tail, kept, below);
    } else {
      SplitFirst(was, k + 1);
      SplitFirst(raws, k + 1);
      NextWritten(was, raws, from, k, syn);
      RestIsVerbatim(was, raws, head, k + 1, syn);
      TailWritten(head, was[k + 1], tail, was[k + 2..], kept, raws[k + 1], below, raws[k + 2..], syn);
    }
  }

  lemma NothingBelow(head: seq<Line>, tail: seq<Line>, kept: seq<string>, below: seq<string>)
    requires tail == [] && below == []
    ensures head + tail == head && kept + below == kept
  {}

  lemma SplitFirst<T>(s: seq<T>, n: nat)
    requires n < |s|
    ensures s[n..] == [s[n]] + s[n + 1..]
  {}

  lemma TailWritten(
    head: seq<Line>, next: Line, tail: seq<Line>, rest: seq<Line>, kept: seq<string>, raw: string, below: seq<string>,
    after: seq<string>, syn: Syntax)
    requires tail == [next] + rest && below == [raw] + after
    requires WriteLines(head + [next], syn) == kept + [raw] && VerbatimBelow(head + [next], rest, after, syn)
    ensures WriteLines(head + tail, syn) == kept + below
  {
    BelowIsWritten(head + [next], rest, after, kept + [raw], syn);
    Regroup(head, [next], rest);
    Regroup(kept, [raw], after);
  }

  /** The first line below the entry that goes. */
  lemma NextWritten(was: seq<Line>, raws: seq<string>, from: nat, k: nat, syn: Syntax)
    requires AllVerbatim(was, raws, syn) && k + 1 < |was| && was[k].content.Job? && from <= k
    requires WriteLines(was[..from], syn) == raws[..from]
    ensures WriteLines(was[..from] + [was[k + 1]], syn) == KeptAbove(raws, was, from, k, syn) + [raws[k + 1]]
  {
    var head, next := was[..from], was[k + 1];
    assert Verbatim(next, PrevOf(was, k + 1), syn) && LabelIn(PrevOf(was, k + 1), syn) == None;
    StepWritten(head, next, head + [next], raws[..from], syn);
    LabelAboveNext(was, from, syn);
    NextLine(raws[..from], Last(head), next, LabelStandsAbove(was, from, syn), syn);
    if from > 0 { assert raws[..from][..from - 1] == raws[..from - 1]; }
  }

  lemma LabelAboveNext(was: seq<Line>, from: nat, syn: Syntax)
    requires from <= |was|
    ensures LabelStandsAbove(was, from, syn) <==> LabelIn(Last(was[..from]), syn) !in {None, Some(NO_MARK)}
  {}

  lemma NextLine(out: seq<string>, prev: Option<Line>, next: Line, labelled: bool, syn: Syntax)
    requires Verbatim(next, None, syn) && (labelled <==> LabelIn(prev, syn) !in {None, Some(NO_MARK)})
    ensures WriteLine(out, prev, next, syn) ==
      (if labelled && next.content.Job? then DropLast(out) else out) + [next.raw]
  {
    assert out + [] == out && DropLast(out) + [] == DropLast(out);
  }

  /** Below the line at `n`, lines stay as they are. */
  lemma RestIsVerbatim(was: seq<Line>, raws: seq<string>, head: seq<Line>, n: nat, syn: Syntax)
    requires AllVerbatim(was, raws, syn) && n < |was|
    ensures VerbatimBelow(head + [was[n]], was[n + 1..], raws[n + 1..], syn)
  {
    var above, tail, rest := head + [was[n]], was[n + 1..], raws[n + 1..];
    forall j | 0 <= j < |tail|
      ensures VerbatimAt(Last(above), tail, rest, j, syn)
    {
      assert Verbatim(was[n + 1 + j], PrevOf(was, n + 1 + j), syn);
      assert tail[j] == was[n + 1 + j] && PrevOf(was, n + 1 + j) == Some(was[n + j]);
      assert j > 0 ==> tail[j - 1] == was[n + j];
    }
  }

  /** The patched entry is well formed, or is back to what its line says. */
  predicate PatchOk(line: Line, p: Patch, syn: Syntax, ed: Editable) {
    line.content.Job? ==>
      var l := ApplyPatch(line, p);
      && ed.fits(l.content.fields)
      && (syn.untouched(l.raw, l.content.fields, l.content.disabled) || ed.entries(l.content.fields, l.content.disabled))
  }

  /** A new entry is well formed. Labels may be anything, and an entry may go anywhere. */
  ghost predicate EditOk(lines: seq<Line>, e: Edit, syn: Syntax, ed: Editable) {
    match e
    case Update(lineNo, p) => forall i :: 0 <= i < |lines| && lines[i].lineNo == lineNo ==> PatchOk(lines[i], p, syn, ed)
    case Insert(f, disabled, mark, after) =>
      var line := NewLine(f, disabled, mark, syn);
      ed.fits(line.content.fields) && ed.entries(line.content.fields, disabled)
    case Remove(lineNo) => true
  }

  lemma UpdateKeepsOk(lines: seq<Line>, lineNo: nat, p: Patch, syn: Syntax, ed: Editable)
    requires LinesOk(lines, syn, ed)
    requires forall i :: 0 <= i < |lines| && lines[i].lineNo == lineNo ==> PatchOk(lines[i], p, syn, ed)
    ensures LinesOk(UpdateEntry(lines, lineNo, p), syn, ed)
  {
    var now := UpdateEntry(lines, lineNo, p);
    forall i | 0 <= i < |now| ensures LineOk(now[i], syn, ed) {
      assert LineOk(lines[i], syn, ed);
    }
  }

  lemma InsertKeepsOk(lines: seq<Line>, k: nat, line: Line, syn: Syntax, ed: Editable)
    requires LinesOk(lines, syn, ed) && k <= |lines| && LineOk(line, syn, ed)
    ensures LinesOk(lines[..k] + [line] + lines[k..], syn, ed)
  {}

  lemma NewLineOk(f: Fields, disabled: bool, mark: Mark, syn: Syntax, ed: Editable)
    requires Lawful(syn, ed)
    requires var line := NewLine(f, disabled, mark, syn); ed.fits(line.content.fields) && ed.entries(line.content.fields, disabled)
    ensures LineOk(NewLine(f, disabled, mark, syn), syn, ed)
  {}

  lemma RemoveKeepsOk(lines: seq<Line>, from: nat, k: nat, syn: Syntax, ed: Editable)
    requires LinesOk(lines, syn, ed) && from <= k < |lines|
    ensures LinesOk(lines[..from] + lines[k + 1..], syn, ed)
  {}

  lemma RemoveEditKeepsOk(lines: seq<Line>, lineNo: nat, syn: Syntax, ed: Editable)
    requires LinesOk(lines, syn, ed)
    ensures LinesOk(RemoveEntry(lines, lineNo, syn), syn, ed)
  {
    var found := Find(lines, lineNo, true);
    if found.Some? {
      RemoveKeepsOk(lines, CutFrom(lines, found.value, syn), found.value, syn, ed);
    }
  }

  lemma EditKeepsOk(lines: seq<Line>, e: Edit, syn: Syntax, ed: Editable)
    requires Lawful(syn, ed) && LinesOk(lines, syn, ed) && EditOk(lines, e, syn, ed)
    ensures LinesOk(Apply(lines, e, syn), syn, ed)
  {
    match e
    case Update(lineNo, p) => UpdateKeepsOk(lines, lineNo, p, syn, ed);
    case Insert(f, disabled, mark, after) =>
      NewLineOk(f, disabled, mark, syn, ed);
      InsertKeepsOk(lines, InsertAt(lines, after), NewLine(f, disabled, mark, syn), syn, ed);
    case Remove(lineNo) => RemoveEditKeepsOk(lines, lineNo, syn, ed);
  }

  // ---- Histories --------------------------------------------------------------------------------

  function Edited(text: string, edits: seq<Edit>, syn: Syntax): seq<Line> {
    if edits == [] then Read(text, syn) else Apply(Edited(text, edits[..|edits| - 1], syn), edits[|edits| - 1], syn)
  }

  ghost predicate EditsOk(text: string, edits: seq<Edit>, syn: Syntax, ed: Editable) {
    edits == [] ||
    (EditsOk(text, edits[..|edits| - 1], syn, ed) && EditOk(Edited(text, edits[..|edits| - 1], syn), edits[|edits| - 1], syn, ed))
  }

  lemma {:induction false} EditedIsOk(text: string, edits: seq<Edit>, syn: Syntax, ed: Editable)
    requires Lawful(syn, ed) && EditsOk(text, edits, syn, ed)
    ensures LinesOk(Edited(text, edits, syn), syn, ed)
  {
    if edits == [] {
      ReadLinesOk(SplitLines(text), syn, ed);
    } else {
      EditedIsOk(text, edits[..|edits| - 1], syn, ed);
      EditKeepsOk(Edited(text, edits[..|edits| - 1], syn), edits[|edits| - 1], syn, ed);
    }
  }

  /** Every label line that is written anew is for a mark that such a line can carry. */
  ghost predicate RewrittenRoundTrip(lines: seq<Line>, syn: Syntax) {
    forall i :: 0 <= i < |lines| && Rewritten(lines[..i], lines[i], syn) ==> RoundTrips(lines[i].mark)
  }

  lemma RewrittenAre(lines: seq<Line>, kind: Kind, valid: Validator)
    ensures RewrittenReadBack(lines, CrontabSyntax(kind, valid)) <==> RewrittenRoundTrip(lines, CrontabSyntax(kind, valid))
  {
    var syn := CrontabSyntax(kind, valid);
    forall i | 0 <= i < |lines|
      ensures syn.readLabel(syn.labelLine(lines[i].mark)) == Some(lines[i].mark) <==> RoundTrips(lines[i].mark)
    {
      MarkRoundTripsIff(lines[i].mark);
    }
  }

  /** Whatever edits with well-formed entries and whatever labels were made to whatever crontab, the
      file that is written reads back as the entries of the edited list, exactly when no entry that
      loses its label line comes under an older one, and every entry that gets a new label line, by
      an edit or because another entry now stands between it and its own, has a mark that such a
      line can carry. */
  lemma EditedCrontabReadsBackIff(text: string, edits: seq<Edit>, kind: Kind, croner: Croner)
    requires var valid := Accepts(croner);
      EditsOk(text, edits, CrontabSyntax(kind, valid), CrontabEditable(kind, valid))
    ensures var syn := CrontabSyntax(kind, Accepts(croner));
      var lines := Edited(text, edits, syn);
      Entries(Read(Write(lines, syn), syn)) == Entries(lines) <==> NoneExposed(lines, syn) && RewrittenRoundTrip(lines, syn)
  {
    var valid := Accepts(croner);
    var syn, ed := CrontabSyntax(kind, valid), CrontabEditable(kind, valid);
    AcceptsIsStrict(croner);
    CrontabIsLawful(kind, valid);
    EditedIsOk(text, edits, syn, ed);
    EditedFileReadsBackIff(Edited(text, edits, syn), syn, ed);
    RewrittenAre(Edited(text, edits, syn), kind, valid);
  }

  /** An unedited crontab comes back byte for byte, with a final newline if it lacked one. */
  lemma UneditedCrontab(text: string, kind: Kind, croner: Croner)
    ensures var syn := CrontabSyntax(kind, Accepts(croner));
      Write(Read(text, syn), syn) == if text == "" || EndsWith(text, "\n") then text else text + "\n"
  {
    AcceptsIsStrict(croner);
    CrontabIsLawful(kind, Accepts(croner));
    UneditedFile(text, CrontabSyntax(kind, Accepts(croner)), CrontabEditable(kind, Accepts(croner)));
  }

  // ---- How an old label comes back -----------------------------------------------------------------

  const CLEAR_LABEL := Patch(None, None, None, None, Some(None), Some(None))

  predicate Carries(syn: Syntax, m: Mark) {
    syn.readLabel(syn.labelLine(m)) == Some(m)
  }

  /** Three lines: an old label line, a newer one, and the entry the newer one labels. */
  lemma TwoLabelsRead(a: Mark, b: Mark, f: Fields, syn: Syntax, ed: Editable)
    requires Lawful(syn, ed) && Carries(syn, a) && Carries(syn, b) && ed.entries(f, false)
    ensures var raws := [syn.labelLine(a), syn.labelLine(b), syn.entry(f, false)];
      ReadLines(raws, syn) ==
        [Line(1, raws[0], Comment, NO_MARK), Line(2, raws[1], Comment, NO_MARK), Line(3, raws[2], Job(f, false), b)]
  {
    var x, y, z := syn.labelLine(a), syn.labelLine(b), syn.entry(f, false);
    var one, two := Line(1, x, Comment, NO_MARK), Line(2, y, Comment, NO_MARK);
    ReadNext([], [], x, [x], one, syn);
    ReadNext([x], [one], y, [x, y], two, syn);
    ReadNext([x, y], [one, two], z, [x, y, z], Line(3, z, Job(f, false), b), syn);
  }

  /** One more line is read. */
  lemma ReadNext(raws: seq<string>, lines: seq<Line>, raw: string, more: seq<string>, line: Line, syn: Syntax)
    requires ReadLines(raws, syn) == lines && more == raws + [raw] && line == ReadLine(raw, |raws| + 1, Last(lines), syn)
    ensures ReadLines(more, syn) == lines + [line]
  {
    ReadAppend(raws, raw, syn);
  }

  /** Clearing the label of an entry brings it under an older label line, if there is one. */
  lemma ClearedLabelComesBack(a: Mark, b: Mark, f: Fields, kind: Kind, croner: Croner)
    requires RoundTrips(a) && RoundTrips(b) && a != NO_MARK && b != NO_MARK
    requires WellFormed(f, false, kind, Accepts(croner)) && KindOf(f) == kind
    ensures exists text, edits ::
      var syn := CrontabSyntax(kind, Accepts(croner));
      && EditsOk(text, edits, syn, CrontabEditable(kind, Accepts(croner)))
      && Entries(Read(Write(Edited(text, edits, syn), syn), syn)) != Entries(Edited(text, edits, syn))
  {
    var syn, ed := CrontabSyntax(kind, Accepts(croner)), CrontabEditable(kind, Accepts(croner));
    AcceptsIsStrict(croner);
    CrontabIsLawful(kind, Accepts(croner));
    MarkRoundTripsIff(a);
    MarkRoundTripsIff(b);
    assert ed.entries(f, false) && ed.fits(f);
    var text, edits := ClearTheNewerLabel(a, b, f, syn, ed);
    EditedCrontabReadsBackIff(text, edits, kind, croner);
  }

  lemma ClearTheNewerLabel(a: Mark, b: Mark, f: Fields, syn: Syntax, ed: Editable) returns (text: string, edits: seq<Edit>)
    requires Lawful(syn, ed) && Carries(syn, a) && Carries(syn, b) && a != NO_MARK && b != NO_MARK && ed.entries(f, false) && ed.fits(f)
    ensures EditsOk(text, edits, syn, ed) && !NoneExposed(Edited(text, edits, syn), syn)
  {
    var raws := [syn.labelLine(a), syn.labelLine(b), syn.entry(f, false)];
    text, edits := JoinLines(raws), [Update(3, CLEAR_LABEL)];
    SplitOfJoin(raws);
    TwoLabelsRead(a, b, f, syn, ed);
    ClearedEntryIsExposed(raws, f, a, b, syn, ed);
    OneEdit(text, Update(3, CLEAR_LABEL), syn, ed);
  }

  lemma OneEdit(text: string, e: Edit, syn: Syntax, ed: Editable)
    requires EditOk(Read(text, syn), e, syn, ed)
    ensures EditsOk(text, [e], syn, ed) && Edited(text, [e], syn) == Apply(Read(text, syn), e, syn)
  {
    var edits := [e];
    var none: seq<Edit> := edits[..|edits| - 1];
    assert none == [];
    assert Edited(text, none, syn) == Read(text, syn) && EditsOk(text, none, syn, ed);
    EditsStep(text, none, edits, e, syn, ed);
  }

  lemma EditsStep(text: string, init: seq<Edit>, edits: seq<Edit>, e: Edit, syn: Syntax, ed: Editable)
    requires edits != [] && init == edits[..|edits| - 1] && e == edits[|edits| - 1]
    requires EditsOk(text, init, syn, ed) && EditOk(Edited(text, init, syn), e, syn, ed)
    ensures EditsOk(text, edits, syn, ed) && Edited(text, edits, syn) == Apply(Edited(text, init, syn), e, syn)
  {}

  lemma ClearedEntryIsExposed(raws: seq<string>, f: Fields, a: Mark, b: Mark, syn: Syntax, ed: Editable)
    requires |raws| == 3 && syn.readLabel(raws[0]) == Some(a) && syn.readLabel(raws[1]) == Some(b) && a != NO_MARK && b != NO_MARK
    requires ed.entries(f, false) && ed.fits(f)
    ensures var lines := [Line(1, raws[0], Comment, NO_MARK), Line(2, raws[1], Comment, NO_MARK), Line(3, raws[2], Job(f, false), b)];
      EditOk(lines, Update(3, CLEAR_LABEL), syn, ed) && !NoneExposed(Apply(lines, Update(3, CLEAR_LABEL), syn), syn)
  {
    var one, two, job := Line(1, raws[0], Comment, NO_MARK), Line(2, raws[1], Comment, NO_MARK), Line(3, raws[2], Job(f, false), b);
    var now := Apply([one, two, job], Update(3, CLEAR_LABEL), syn);
    assert now == [one, two, job.(mark := NO_MARK)];
    assert now[..2] == [one, two] && now[..2][..1] == [one];
    assert Exposed(now[..2], now[2], syn);
  }

  // ---- How a label is respelled ----------------------------------------------------------------------

  /** A label line, not spelled as it would be rendered, and the entry it labels. */
  lemma LabelledRead(raw: string, m: Mark, f: Fields, syn: Syntax, ed: Editable)
    requires Lawful(syn, ed) && syn.read(raw) == Comment && syn.readLabel(raw) == Some(m) && ed.entries(f, false)
    ensures var raws := [raw, syn.entry(f, false)];
      ReadLines(raws, syn) == [Line(1, raw, Comment, NO_MARK), Line(2, raws[1], Job(f, false), m)]
  {
    var text, one := syn.entry(f, false), Line(1, raw, Comment, NO_MARK);
    ReadNext([], [], raw, [raw], one, syn);
    LabelledNext(raw, one, m, text, f, syn);
  }

  lemma LabelledNext(raw: string, one: Line, m: Mark, text: string, f: Fields, syn: Syntax)
    requires one.raw == raw && one.content == Comment && syn.readLabel(raw) == Some(m) && syn.read(text) == Job(f, false)
    requires ReadLines([raw], syn) == [one]
    ensures ReadLines([raw, text], syn) == [one, Line(2, text, Job(f, false), m)]
  {
    assert ReadLine(text, 2, Some(one), syn) == Line(2, text, Job(f, false), m);
    ReadNext([raw], [one], text, [raw, text], Line(2, text, Job(f, false), m), syn);
  }

  lemma PartedEntryIsRewritten(raw: string, m: Mark, f: Fields, g: Fields, syn: Syntax, ed: Editable)
    requires Lawful(syn, ed) && m != NO_MARK && ed.entries(f, false) && ed.fits(g) && ed.entries(g, false) && Trim(g.schedule) == g.schedule
    ensures var lines := [Line(1, raw, Comment, NO_MARK), Line(2, syn.entry(f, false), Job(f, false), m)];
      var e := Insert(g, false, NO_MARK, Some(1));
      && EditOk(lines, e, syn, ed)
      && |Apply(lines, e, syn)| == 3 && Apply(lines, e, syn)[2].mark == m
      && Rewritten(Apply(lines, e, syn)[..2], Apply(lines, e, syn)[2], syn)
  {
    var one, two := Line(1, raw, Comment, NO_MARK), Line(2, syn.entry(f, false), Job(f, false), m);
    var added := NewLine(g, false, NO_MARK, syn);
    assert g.(schedule := Trim(g.schedule)) == g;
    assert Find([one, two], 1, false) == Some(0);
    var now := Apply([one, two], Insert(g, false, NO_MARK, Some(1)), syn);
    assert [one, two][..1] == [one] && [one, two][1..] == [two];
    assert now == [one, added, two];
    assert now[..2] == [one, added] && Last(now[..2]) == Some(added) && added.content.Job?;
  }

  /** A label line that says something no rendered label line says, such as a label with two spaces in
      a row: inserting any entry below it has the label rendered, and it reads back differently. */
  lemma PartedLabelIsRespelled(raw: string, f: Fields, g: Fields, kind: Kind, croner: Croner)
    requires ParseLabelLine(raw).Some? && !RoundTrips(ParseLabelLine(raw).value) && '\n' !in raw
    requires WellFormed(f, false, kind, Accepts(croner)) && KindOf(f) == kind
    requires WellFormed(g, false, kind, Accepts(croner)) && KindOf(g) == kind
    ensures exists text, edits ::
      var syn := CrontabSyntax(kind, Accepts(croner));
      && EditsOk(text, edits, syn, CrontabEditable(kind, Accepts(croner)))
      && Entries(Read(Write(Edited(text, edits, syn), syn), syn)) != Entries(Edited(text, edits, syn))
  {
    var syn, ed := CrontabSyntax(kind, Accepts(croner)), CrontabEditable(kind, Accepts(croner));
    var m := ParseLabelLine(raw).value;
    AcceptsIsStrict(croner);
    CrontabIsLawful(kind, Accepts(croner));
    PrefixedIsComment(raw, kind, Accepts(croner));
    NoMarkRoundTrips();
    TrimOfTrimmed(g.schedule);
    assert ed.entries(f, false) && ed.entries(g, false) && ed.fits(g);
    var text, edits := PartTheLabel(raw, m, f, g, syn, ed);
    EditedCrontabReadsBackIff(text, edits, kind, croner);
    var lines := Edited(text, edits, syn);
    assert Rewritten(lines[..2], lines[2], syn);
  }

  lemma NoMarkRoundTrips()
    ensures RoundTrips(NO_MARK)
  {
    assert HbSuffix("") == None;
    assert Trim("") == "";
  }

  lemma PartTheLabel(raw: string, m: Mark, f: Fields, g: Fields, syn: Syntax, ed: Editable) returns (text: string, edits: seq<Edit>)
    requires Lawful(syn, ed) && syn.read(raw) == Comment && syn.readLabel(raw) == Some(m) && m != NO_MARK && '\n' !in raw
    requires ed.entries(f, false) && ed.fits(g) && ed.entries(g, false) && Trim(g.schedule) == g.schedule
    ensures EditsOk(text, edits, syn, ed)
    ensures var lines := Edited(text, edits, syn); |lines| == 3 && lines[2].mark == m && Rewritten(lines[..2], lines[2], syn)
  {
    var raws, e := [raw, syn.entry(f, false)], Insert(g, false, NO_MARK, Some(1));
    text, edits := JoinLines(raws), [e];
    SplitOfJoin(raws);
    LabelledRead(raw, m, f, syn, ed);
    PartedEntryIsRewritten(raw, m, f, g, syn, ed);
    OneEdit(text, e, syn, ed);
  }
}
