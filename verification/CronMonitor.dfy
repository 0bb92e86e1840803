/** Putting a crontab entry under a heartbeat, and taking it off again: the command is wrapped
    and unwrapped, and the label line above it gets and loses the heartbeat's id. */
module CronMonitor {
  import opened Options
  import opened Text
  import opened CronSchedule
  import opened CronLabels
  import opened CronLines
  import opened CronFormat
  import opened CrontabText
  import opened CronMonitorLabels
  import CrontabEdit
  import HeartbeatWrap

  // ---- The two edits ------------------------------------------------------------------------

  /** What is stored with the heartbeat about the entry it was made for. */
  datatype Source = Source(originalCommand: string, name: string, labelLineInserted: bool)

  function Monitored(entry: Line, wrapped: string, name: string, id: nat): Line
    requires entry.content.Job?
  {
    entry.(content := Job(entry.content.fields.(command := wrapped), entry.content.disabled), mark := Mark(Some(name), Some(id)))
  }

  /** What stands on the line is preferred to the stored command. */
  function OriginalCommand(t: HeartbeatWrap.Template, entry: Line, source: Option<Source>): string
    requires entry.content.Job?
  {
    var unwrapped := HeartbeatWrap.Unwrap(t, entry.content.fields.command);
    if unwrapped.Some? then HeartbeatWrap.Original(unwrapped.value)
    else if source.Some? then source.value.originalCommand
    else entry.content.fields.command
  }

  /** A label line that monitoring inserted goes, if it still says the same. */
  predicate KeepsLabel(entry: Line, source: Option<Source>) {
    !(source.Some? && source.value.labelLineInserted && entry.mark.name == Some(source.value.name))
  }

  function Unmonitored(t: HeartbeatWrap.Template, entry: Line, source: Option<Source>): Line {
    if !entry.content.Job? then entry
    else entry.(content := Job(entry.content.fields.(command := OriginalCommand(t, entry, source)), entry.content.disabled),
           mark := Mark(if KeepsLabel(entry, source) then entry.mark.name else None, None))
  }

  datatype Refusal = NotAJob | Disabled | AlreadyMonitored | BadSchedule | CannotWrap(error: HeartbeatWrap.WrapError) | LineTooLong | NotMonitored

  datatype Result = Written(content: string, source: Source) | Failed(refusal: Refusal)

  /** What was asked for: `linked` says that the id on the entry's label names a heartbeat of this very
      target, and `schedulable` whether a heartbeat can follow a schedule. */
  datatype Request = Request(
    croner: Croner, schedulable: string -> bool, pingBase: string, token: string, measure: bool, name: Option<string>, linked: bool)

  /** What comes of monitoring the entry at `index`: what stands against it is looked for in this order. */
  function MonitorResult(lines: seq<Line>, index: nat, syn: Syntax, t: HeartbeatWrap.Template, q: Request, id: nat): Result
    requires index < |lines| && lines[index].content.Job?
  {
    var entry := lines[index];
    var f := entry.content.fields;
    if entry.content.disabled then Failed(Disabled)
    else if HeartbeatWrap.Unwrap(t, f.command).Some? || (entry.mark.heartbeatId.Some? && q.linked) then Failed(AlreadyMonitored)
    else if !ScheduleOk(f.schedule, q.croner) || !q.schedulable(f.schedule) then Failed(BadSchedule)
    else
      match HeartbeatWrap.Wrap(t, f.command, q.pingBase, q.token, q.measure, 0)
      case Rejected(error) => Failed(CannotWrap(error))
      case Ok(wrapped) =>
        if HeartbeatWrap.JsLength(FormatEntry(f.(command := wrapped), false)) > HeartbeatWrap.MAX_CRON_LINE then Failed(LineTooLong)
        else
          var chosen := LabelFor(q.name, entry);
          Written(Write(lines[index := Monitored(entry, wrapped, chosen, id)], syn), Source(f.command, chosen, entry.mark.name == None))
  }

  /** Monitoring is refused for one reason at a time: a disabled entry; one that is wrapped already or whose
      label links it to a heartbeat of this target; a schedule that is not one or that no heartbeat can
      follow; a command that cannot be wrapped; and a line that would be longer than 990 units. Otherwise
      the file is written with that one entry wrapped, enabled as before, labelled and linked, and what is
      stored is the command it had, its label, and whether that label is new. */
  lemma MonitorSays(lines: seq<Line>, index: nat, syn: Syntax, t: HeartbeatWrap.Template, q: Request, id: nat)
    requires index < |lines| && lines[index].content.Job?
    ensures var r, entry, f := MonitorResult(lines, index, syn, t, q, id), lines[index], lines[index].content.fields;
      var taken := HeartbeatWrap.Unwrap(t, f.command).Some? || (entry.mark.heartbeatId.Some? && q.linked);
      var fits := ScheduleOk(f.schedule, q.croner) && q.schedulable(f.schedule);
      var wrapped := HeartbeatWrap.Wrap(t, f.command, q.pingBase, q.token, q.measure, 0);
      && (r == Failed(Disabled) <==> entry.content.disabled)
      && (r == Failed(AlreadyMonitored) <==> !entry.content.disabled && taken)
      && (r == Failed(BadSchedule) <==> !entry.content.disabled && !taken && !fits)
      && (r.Failed? && r.refusal.CannotWrap? ==> wrapped == HeartbeatWrap.Rejected(r.refusal.error))
      && (r == Failed(LineTooLong) ==> wrapped.Ok? && HeartbeatWrap.JsLength(FormatEntry(f.(command := wrapped.command), false)) > 990)
      && (r.Failed? ==> r.refusal != NotAJob && r.refusal != NotMonitored)
      && (r.Written? <==>
            !entry.content.disabled && !taken && fits && wrapped.Ok?
            && HeartbeatWrap.JsLength(FormatEntry(f.(command := wrapped.command), false)) <= 990)
      && (r.Written? ==>
            var chosen := LabelFor(q.name, entry);
            var now := Line(entry.lineNo, entry.raw, Job(f.(command := wrapped.command), false), Mark(Some(chosen), Some(id)));
            r == Written(Write(lines[index := now], syn), Source(f.command, chosen, entry.mark.name == None)))
  {}

  method MonitorCronEntry(content: string, lineNo: nat, kind: Kind, t: HeartbeatWrap.Template, q: Request, id: nat) returns (r: Result)
    ensures var syn := CrontabSyntax(kind, Accepts(q.croner));
      var lines := Read(content, syn);
      var found := CrontabEdit.Find(lines, lineNo, false);
      r == if found.None? || !lines[found.value].content.Job? then Failed(NotAJob)
           else MonitorResult(lines, found.value, syn, t, q, id)
  {
    var syn := CrontabSyntax(kind, Accepts(q.croner));
    var lines := ParseCrontab(content, syn);
    var found := CrontabEdit.Find(lines, lineNo, false);
    if found.None? || !lines[found.value].content.Job? { return Failed(NotAJob); }
    var index := found.value;
    r := MonitorEntry(lines, index, syn, t, q, id);
  }

  method MonitorEntry(lines: seq<Line>, index: nat, syn: Syntax, t: HeartbeatWrap.Template, q: Request, id: nat) returns (r: Result)
    requires index < |lines| && lines[index].content.Job?
    ensures r == MonitorResult(lines, index, syn, t, q, id)
  {
    var entry := lines[index];
    var fields := entry.content.fields;
    if entry.content.disabled {
      return Failed(Disabled);
    }
    if HeartbeatWrap.Unwrap(t, fields.command).Some? || (entry.mark.heartbeatId.Some? && q.linked) {
      return Failed(AlreadyMonitored);
    }
    if !ScheduleOk(fields.schedule, q.croner) || !q.schedulable(fields.schedule) {
      return Failed(BadSchedule);
    }
    var chosen := LabelFor(q.name, entry);
    var wrapped := HeartbeatWrap.Wrap(t, fields.command, q.pingBase, q.token, q.measure, 0);
    if wrapped.Rejected? {
      return Failed(CannotWrap(wrapped.error));
    }
    var newLine := FormatEntry(fields.(command := wrapped.command), false);
    if HeartbeatWrap.JsLength(newLine) > HeartbeatWrap.MAX_CRON_LINE {
      return Failed(LineTooLong);
    }
    var updatedLines := lines[index := Monitored(entry, wrapped.command, chosen, id)];
    var text := SerializeCrontab(updatedLines, syn);
    return Written(text, Source(fields.command, chosen, entry.mark.name == None));
  }

  /** Whatever stands on the line, unmonitoring takes the heartbeat's id off it and keeps schedule, user and
      state. It brings back the command the line wraps; if somebody has changed the line so that it wraps
      none, the stored command; and if none is stored, it leaves the command alone. The label goes exactly
      when monitoring had inserted it and it still says the same. */
  lemma UnmonitorSays(t: HeartbeatWrap.Template, entry: Line, source: Option<Source>)
    requires entry.content.Job?
    ensures var now, wrapped := Unmonitored(t, entry, source), HeartbeatWrap.Unwrap(t, entry.content.fields.command);
      && now.content.Job? && now.lineNo == entry.lineNo && now.raw == entry.raw && now.content.disabled == entry.content.disabled
      && now.content.fields.schedule == entry.content.fields.schedule && now.content.fields.user == entry.content.fields.user
      && (wrapped.Some? ==> now.content.fields.command == wrapped.value.cmdPart + wrapped.value.stdinPart)
      && (wrapped.None? && source.Some? ==> now.content.fields.command == source.value.originalCommand)
      && (wrapped.None? && source.None? ==> now.content.fields.command == entry.content.fields.command)
      && now.mark.heartbeatId == None
      && now.mark.name ==
           if source.Some? && source.value.labelLineInserted && entry.mark.name == Some(source.value.name) then None else entry.mark.name
  {}

  method UnmonitorCronEntry(
    content: string, lineNo: nat, kind: Kind, croner: Croner, t: HeartbeatWrap.Template, source: Option<Source>)
    returns (r: Option<string>)
    ensures var syn := CrontabSyntax(kind, Accepts(croner));
      var lines := Read(content, syn);
      var found := CrontabEdit.Find(lines, lineNo, false);
      r == if found.None? || !lines[found.value].content.Job? then None
           else
             var entry := lines[found.value];
             if HeartbeatWrap.Unwrap(t, entry.content.fields.command).None? && entry.mark.heartbeatId.None? then None
             else Some(Write(lines[found.value := Unmonitored(t, entry, source)], syn))
  {
    var syn := CrontabSyntax(kind, Accepts(croner));
    var lines := ParseCrontab(content, syn);
    var found := CrontabEdit.Find(lines, lineNo, false);
    if found.None? || !lines[found.value].content.Job? { return None; }
    var index := found.value;
    var entry := lines[index];
    if HeartbeatWrap.Unwrap(t, entry.content.fields.command).None? && entry.mark.heartbeatId.None? { return None; }
    var updatedLines := lines[index := Unmonitored(t, entry, source)];
    var text := SerializeCrontab(updatedLines, syn);
    return Some(text);
  }

  // ---- One entry edited in a file just read ------------------------------------------------------

  function LabelLines(mark: Mark, syn: Syntax): (ls: seq<string>)
    ensures |ls| <= 1
  {
    if mark == NO_MARK then [] else [syn.labelLine(mark)]
  }

  /** A file whose entry `i` and its label line have been rewritten, and nothing else. */
  ghost predicate RewritesEntry(raws: seq<string>, i: nat, now: seq<string>, labels: seq<string>, text: string, syn: Syntax) {
    i < |raws| && now == raws[..CrontabEdit.CutFrom(ReadLines(raws, syn), i, syn)] + labels + [text] + raws[i + 1..]
  }

  lemma LabelledIs(raws: seq<string>, i: nat, prev: Option<Line>, mark: Mark, syn: Syntax)
    requires i <= |raws| && LabelIn(prev, syn) != Some(mark) && (i == 0 ==> prev.None?)
    ensures Labelled(raws[..i], LabelIn(prev, syn), mark, syn) ==
      raws[..if LabelIn(prev, syn).Some? then i - 1 else i] + LabelLines(mark, syn)
  {
    if LabelIn(prev, syn).Some? { assert raws[..i][..i - 1] == raws[..i - 1]; }
  }

  lemma EntryEdited(raws: seq<string>, i: nat, line: Line, syn: Syntax, ed: Editable)
    requires Lawful(syn, ed) && i < |raws|
    requires ReadLines(raws, syn)[i].content.Job? && line.content.Job?
    requires LabelIn(PrevOf(ReadLines(raws, syn), i), syn) != Some(line.mark)
    ensures RewritesEntry(raws, i, WriteLines(ReadLines(raws, syn)[i := line], syn), LabelLines(line.mark, syn),
                          EntryText(line.raw, line.content.fields, line.content.disabled, syn), syn)
  {
    var lines := ReadLines(raws, syn);
    OneEntryChanged(raws, i, line, syn, ed);
    LabelledIs(raws, i, PrevOf(lines, i), line.mark, syn);
  }

  /** The label line above the entry of a rewritten file, and what it reads as. */
  predicate SaysLabel(syn: Syntax, labelLine: string, read: Mark) {
    syn.read(labelLine) == Comment && syn.readLabel(labelLine) == Some(read) && '\n' !in labelLine
  }

  lemma EntryReadBack(above: seq<string>, labelLine: string, read: Mark, text: string, below: seq<string>, f: Fields, syn: Syntax)
    requires SaysLabel(syn, labelLine, read) && syn.read(text) == Job(f, false)
    ensures var raws := above + [labelLine] + [text] + below;
      var lines := ReadLines(raws, syn);
      var i := |above| + 1;
      && lines[i] == Line(i + 1, text, Job(f, false), read)
      && LabelIn(PrevOf(lines, i), syn) == Some(read)
  {
    var raws := above + [labelLine] + [text] + below;
    var i := |above| + 1;
    assert raws[i] == text && raws[i - 1] == labelLine;
    ReadAt(raws, i, syn);
    ReadAt(raws, i - 1, syn);
  }

  // ---- The wrapped and the restored entry are well formed --------------------------------------------

  lemma NextKeepsOut(s: string, c: char)
    requires Next(s).Some? && c !in s
    ensures c !in Next(s).value.0 && c !in Next(s).value.1
  {
    var rest := SkipBlanks(s);
    assert forall i :: 0 <= i < |rest| ==> rest[i] in s;
  }

  /** One more token: what holds of `Take(n - 1, s)` holds of `Take(n, s)`. */
  lemma OneMoreKeepsOut(before: string, left: string, next: string, fields: string, rest: string, c: char)
    requires c !in before && c !in left && c != ' '
    requires Next(left) == Some((next, rest)) && fields == before + " " + next
    ensures c !in fields && c !in rest
  {
    NextKeepsOut(left, c);
  }

  lemma {:induction false} TakeKeepsOut(n: nat, s: string, c: char)
    requires Take(n, s).Some? && c !in s && c != ' '
    ensures c !in Take(n, s).value.0 && c !in Take(n, s).value.1
  {
    if n > 0 {
      TakeKeepsOut(n - 1, s, c);
      TakeMore(n, s, Take(n, s).value.0, Take(n, s).value.1, Take(n - 1, s).value.0, Take(n - 1, s).value.1, c);
    }
  }

  lemma TakeMore(n: nat, s: string, fields: string, rest: string, before: string, left: string, c: char)
    requires n > 0 && Take(n, s) == Some((fields, rest)) && Take(n - 1, s) == Some((before, left))
    requires c !in before && c !in left && c != ' '
    ensures c !in fields && c !in rest
  {
    var before', left', next := TakeParts(n, s, fields, rest);
    OneMoreKeepsOut(before', left', next, fields, rest, c);
  }

  lemma ScheduleKeepsOut(text: string, c: char)
    requires ScheduleOf(text).Some? && c !in text && c != ' '
    ensures c !in ScheduleOf(text).value.0
  {
    var (first, rest) := Next(text).value;
    NextKeepsOut(text, c);
    ScheduleFromNext(text, first, rest);
    if first[0] != '@' { TakeKeepsOut(4, rest, c); }
  }

  lemma TrimKeepsOut(s: string, c: char)
    requires c !in s
    ensures c !in Trim(s)
  {
    var t := TrimStart(s);
    assert forall i :: 0 <= i < |t| ==> t[i] in s;
    var u := TrimEnd(t);
    assert forall i :: 0 <= i < |u| ==> u[i] in t;
  }

  lemma JobParts(raw: string, f: Fields, kind: Kind, valid: Validator)
    requires ParseLine(raw, kind, valid) == Job(f, false)
    ensures ParseEntry(raw, kind, valid) == Some(f) && EnvOf(raw).None? && !EndsWith(raw, "\r")
  {
    EnabledMeans(Trim(raw) == "", StartsWith(raw, DISABLED_PREFIX), IsComment(raw), EndsWith(raw, "\r"), EnvOf(raw),
                 ParseEntry(Enabled(raw), kind, valid));
  }

  lemma EnabledMeans(blank: bool, off: bool, comment: bool, cr: bool, setting: Option<(string, string)>, entry: Option<Fields>)
    requires Classify(blank, off, comment, cr, setting, entry).Job? && !Classify(blank, off, comment, cr, setting, entry).disabled
    ensures !off && !cr && setting.None? && entry == Some(Classify(blank, off, comment, cr, setting, entry).fields)
  {}

  lemma CommandIsWellFormed(f: Fields, kind: Kind, valid: Validator)
    requires IsNormal(f.schedule) && valid(f.schedule) && '\n' !in f.schedule
    requires UserFits(f.user, kind) && IsCommand(f.command) && HeartbeatWrap.NoneRefused(f.command) && !ReadsAsSetting(f)
    ensures WellFormed(f, false, kind, valid)
  {
    assert HeartbeatWrap.Refused('\r') && HeartbeatWrap.Refused('\n');
    NoReturnAtEnd(f.command);
  }

  lemma NoReturnAtEnd(s: string)
    requires HeartbeatWrap.NoneRefused(s)
    ensures !EndsWith(s, "\r") && '\n' !in s
  {
    if s != "" {
      assert !HeartbeatWrap.Refused(s[|s| - 1]);
      assert s[|s| - 1..] == [s[|s| - 1]];
    }
  }

  lemma WrappedHead(t: HeartbeatWrap.Template, w: HeartbeatWrap.Wrapped)
    requires HeartbeatWrap.Sound(t)
    ensures var out := HeartbeatWrap.Compose(t, w);
      out != "" && !IsSpace(out[0]) && out[0] != '='
  {}

  lemma HeadedCommand(command: string)
    requires command != "" && !IsSpace(command[0]) && command[0] != '='
    ensures IsCommand(command) && EnvValue(command).None?
  {
    TrimKeepsHead(command);
  }

  /** What rendering an entry trims off its schedule. */
  function Rendered(f: Fields): Fields {
    f.(schedule := Trim(f.schedule))
  }

  lemma TextOfFields(f: Fields, schedule: string)
    requires Trim(f.schedule) == schedule
    ensures FormatFields(f) == schedule + " " + (if f.user.Some? then f.user.value + " " else "") + f.command
  {}

  /** The entry, with a command that can stand on its line, is rendered so that it reads back. */
  lemma RenderedReadsBack(f: Fields, kind: Kind, valid: Validator)
    requires Strict(valid) && WellFormed(Rendered(f), false, kind, valid)
    ensures ParseLine(FormatEntry(f, false), kind, valid) == Job(Rendered(f), false)
  {
    var g := Rendered(f);
    assert Trim(g.schedule) == g.schedule by { TrimOfTrimmed(g.schedule); }
    TextOfFields(f, g.schedule);
    TextOfFields(g, g.schedule);
    EntryReadsBackIff(g, false, kind, valid);
  }

  lemma ParsedFacts(raw: string, f: Fields, kind: Kind, valid: Validator)
    requires Strict(valid) && ParseLine(raw, kind, valid) == Job(f, false) && '\n' !in raw
    ensures UserFits(f.user, kind) && IsCommand(f.command) && ScheduleStarts(f.schedule)
    ensures '\n' !in Trim(f.schedule) && !ReadsAsSetting(f)
  {
    JobParts(raw, f, kind, valid);
    ParsedFields(raw, kind, valid);
    ParsedScheduleIsNormal(raw);
    ScheduleKeepsOut(raw, '\n');
    TrimKeepsOut(f.schedule, '\n');
    EntryIsNoSetting(raw, f, kind, valid);
  }

  /** The parsed entry in its rendered form. */
  lemma ParsedIsWellFormed(raw: string, f: Fields, kind: Kind, valid: Validator)
    requires Strict(valid) && ParseLine(raw, kind, valid) == Job(f, false) && '\n' !in raw
    requires IsNormal(Trim(f.schedule)) && valid(Trim(f.schedule)) && HeartbeatWrap.NoneRefused(f.command)
    ensures WellFormed(Rendered(f), false, kind, valid)
  {
    ParsedFacts(raw, f, kind, valid);
    TrimmedHead(f);
    CommandIsWellFormed(Rendered(f), kind, valid);
  }

  lemma TrimmedHead(f: Fields)
    requires !ReadsAsSetting(f) && ScheduleStarts(f.schedule)
    ensures !ReadsAsSetting(Rendered(f))
  {
    TrimmedStart(f.schedule);
  }

  predicate ScheduleStarts(s: string) {
    s != "" && StartsEntry(s[0])
  }

  lemma TrimmedStart(s: string)
    requires ScheduleStarts(s)
    ensures Trim(s) != "" && Trim(s)[0] == s[0]
  {
    TrimKeepsHead(s);
    assert Trim(s) == TrimEnd(s);
  }

  lemma WrappedIsWellFormed(raw: string, f: Fields, t: HeartbeatWrap.Template, w: HeartbeatWrap.Wrapped, kind: Kind, valid: Validator)
    requires Strict(valid) && ParseLine(raw, kind, valid) == Job(f, false) && '\n' !in raw
    requires IsNormal(Trim(f.schedule)) && valid(Trim(f.schedule))
    requires HeartbeatWrap.Sound(t) && HeartbeatWrap.NoneRefused(HeartbeatWrap.Compose(t, w))
    ensures WellFormed(Rendered(f.(command := HeartbeatWrap.Compose(t, w))), false, kind, valid)
  {
    ParsedFacts(raw, f, kind, valid);
    WrappedHead(t, w);
    HeadedCommand(HeartbeatWrap.Compose(t, w));
    CommandIsWellFormed(Rendered(f.(command := HeartbeatWrap.Compose(t, w))), kind, valid);
  }

  // ---- Monitored, written, read, unmonitored, written ------------------------------------------------

  lemma OtherFieldsAreNew(raw: string, f: Fields, g: Fields, kind: Kind, valid: Validator)
    requires ParseLine(raw, kind, valid) == Job(f, false) && g != f && KindOf(g) == KindOf(f)
    ensures EntryText(raw, g, false, CrontabSyntax(kind, valid)) == FormatEntry(g, false)
  {
    CrontabEdit.JobIsUntouched(raw, kind, valid);
  }

  /** A file above and below one entry with its label line. */
  function Around(above: seq<string>, labels: seq<string>, text: string, below: seq<string>): seq<string> {
    above + labels + [text] + below
  }

  ghost predicate NoBreaksIn(raws: seq<string>) {
    forall k :: 0 <= k < |raws| ==> '\n' !in raws[k]
  }

  /** The entry that is to be monitored, as it was read. */
  ghost predicate IsEnabledEntry(raws: seq<string>, i: nat, f: Fields, kind: Kind, valid: Validator) {
    && Strict(valid) && NoBreaksIn(raws) && i < |raws|
    && ParseLine(raws[i], kind, valid) == Job(f, false)
  }

  /** What rendering leaves of a schedule is one still. */
  predicate StaysSchedule(schedule: string, valid: Validator) {
    IsNormal(Trim(schedule)) && valid(Trim(schedule))
  }

  /** The list part of an edit: what is written when entry `i` of a file is changed to `line`. */
  lemma EditWrites(raws: seq<string>, i: nat, line: Line, text: string, syn: Syntax, ed: Editable)
    requires Lawful(syn, ed) && i < |raws|
    requires ReadLines(raws, syn)[i].content.Job? && line.content.Job?
    requires LabelIn(PrevOf(ReadLines(raws, syn), i), syn) != Some(line.mark)
    requires EntryText(line.raw, line.content.fields, line.content.disabled, syn) == text
    ensures var lines := ReadLines(raws, syn);
      WriteLines(lines[i := line], syn) ==
        Around(raws[..CrontabEdit.CutFrom(lines, i, syn)], LabelLines(line.mark, syn), text, raws[i + 1..])
  {
    EntryEdited(raws, i, line, syn, ed);
  }

  /** What the label line of a monitored entry reads as: a marker that happened to say just this stays. */
  function MarkAfter(above: Option<Mark>, mark: Mark, read: Mark): Mark {
    if above == Some(mark) then mark else read
  }

  lemma FirstEdit(raws: seq<string>, i: nat, f: Fields, g: Fields, mark: Mark, read: Mark, line: Line, text: string, syn: Syntax, ed: Editable)
    returns (labelLine: string)
    requires Lawful(syn, ed) && NoBreaksIn(raws) && i < |raws| && syn.read(raws[i]) == Job(f, false)
    requires line == ReadLines(raws, syn)[i].(content := Job(g, false), mark := mark)
    requires mark != NO_MARK && syn.readLabel(syn.labelLine(mark)) == Some(read)
    requires EntryText(raws[i], g, false, syn) == text
    ensures var lines := ReadLines(raws, syn);
      && lines[i].content == Job(f, false) && lines[i].raw == raws[i]
      && SaysLabel(syn, labelLine, MarkAfter(LabelIn(PrevOf(lines, i), syn), mark, read))
      && WriteLines(lines[i := line], syn) == Around(raws[..CrontabEdit.CutFrom(lines, i, syn)], [labelLine], text, raws[i + 1..])
  {
    var lines := ReadLines(raws, syn);
    ReadAt(raws, i, syn);
    if LabelIn(PrevOf(lines, i), syn) == Some(mark) {
      labelLine := raws[i - 1];
      ReadAt(raws, i - 1, syn);
      OneEntryChanged(raws, i, line, syn, ed);
      assert raws[..i] == raws[..i - 1] + [raws[i - 1]];
    } else {
      labelLine := syn.labelLine(mark);
      EditWrites(raws, i, line, text, syn, ed);
    }
  }

  lemma SecondEdit(
    above: seq<string>, labelLine: string, read: Mark, text: string, below: seq<string>, g: Fields, h: Fields, line: Line, restored: string,
    syn: Syntax, ed: Editable)
    requires Lawful(syn, ed) && SaysLabel(syn, labelLine, read) && syn.read(text) == Job(g, false)
    requires line.raw == text && line.content == Job(h, false) && line.mark != read
    requires EntryText(text, h, false, syn) == restored
    ensures var lines := ReadLines(Around(above, [labelLine], text, below), syn);
      WriteLines(lines[|above| + 1 := line], syn) == Around(above, LabelLines(line.mark, syn), restored, below)
  {
    var raws := Around(above, [labelLine], text, below);
    var i := |above| + 1;
    EntryReadBack(above, labelLine, read, text, below, g, syn);
    EditWrites(raws, i, line, restored, syn, ed);
    assert raws[..i - 1] == above && raws[i + 1..] == below;
  }

  // ---- The texts of the two edits ----------------------------------------------------------------------

  lemma RenderedIsOneLine(f: Fields, schedule: string)
    requires Trim(f.schedule) == schedule && '\n' !in schedule && '\n' !in f.command
    requires f.user.Some? ==> '\n' !in f.user.value
    ensures '\n' !in FormatFields(f)
  {
    TextOfFields(f, schedule);
    OneLineText(schedule, if f.user.Some? then f.user.value + " " else "", f.command);
  }

  lemma UserIsOneLine(user: Option<string>, kind: Kind)
    requires UserFits(user, kind)
    ensures user.Some? ==> '\n' !in user.value
  {
    if user.Some? { UserNameChars(user.value); }
  }

  lemma OneLineText(schedule: string, user: string, command: string)
    requires '\n' !in schedule && '\n' !in user && '\n' !in command
    ensures '\n' !in schedule + " " + user + command
  {}

  lemma NewCommandText(raw: string, f: Fields, g: Fields, kind: Kind, valid: Validator)
    requires Strict(valid) && ParseLine(raw, kind, valid) == Job(f, false) && g != f && KindOf(g) == KindOf(f)
    requires WellFormed(Rendered(g), false, kind, valid)
    ensures var syn := CrontabSyntax(kind, valid);
      && EntryText(raw, g, false, syn) == FormatEntry(g, false)
      && syn.read(FormatEntry(g, false)) == Job(Rendered(g), false)
      && '\n' !in FormatEntry(g, false)
  {
    OtherFieldsAreNew(raw, f, g, kind, valid);
    RenderedReadsBack(g, kind, valid);
    UserIsOneLine(g.user, kind);
    RenderedIsOneLine(g, Trim(g.schedule));
  }

  lemma RenderedTwice(f: Fields)
    ensures Rendered(Rendered(f)) == Rendered(f)
  {
    TrimIsTrimmed(f.schedule);
  }

  /** Both edits' texts: the wrapped entry, and from it the entry with its own command again. */
  lemma BothTexts(raw: string, f: Fields, wrapped: string, kind: Kind, valid: Validator)
    requires Strict(valid) && ParseLine(raw, kind, valid) == Job(f, false) && wrapped != f.command
    requires WellFormed(Rendered(f.(command := wrapped)), false, kind, valid) && WellFormed(Rendered(f), false, kind, valid)
    ensures var syn := CrontabSyntax(kind, valid);
      var text, restored := FormatEntry(f.(command := wrapped), false), FormatEntry(Rendered(f), false);
      && EntryText(raw, f.(command := wrapped), false, syn) == text && '\n' !in text
      && syn.read(text) == Job(Rendered(f.(command := wrapped)), false)
      && EntryText(text, Rendered(f), false, syn) == restored && syn.read(restored) == Job(Rendered(f), false)
  {
    var g := f.(command := wrapped);
    NewCommandText(raw, f, g, kind, valid);
    RenderedTwice(f);
    NewCommandText(FormatEntry(g, false), Rendered(g), Rendered(f), kind, valid);
  }

  // ---- The round trip ------------------------------------------------------------------------------------

  /** What the label line of a monitored entry reads as. */
  function MarkRead(name: string, id: nat): Mark {
    Mark(NonEmpty(CleanOf(Some(name))), Some(id))
  }

  /** Unmonitoring, as something done to a line. */
  function Undo(t: HeartbeatWrap.Template, source: Option<Source>): Line -> Line {
    line => Unmonitored(t, line, source)
  }

  /** The monitored entry as it is read, unmonitored. */
  lemma UnmonitoredEntry(
    t: HeartbeatWrap.Template, f: Fields, pingBase: string, token: string, measure: bool, out: string, entry: Line, source: Option<Source>)
    requires HeartbeatWrap.Sound(t) && HeartbeatWrap.Wrap(t, f.command, pingBase, token, measure, 0) == HeartbeatWrap.Ok(out)
    requires entry.content == Job(Rendered(f.(command := out)), false) && entry.mark.heartbeatId.Some?
    ensures var line := Undo(t, source)(entry);
      && line.content == Job(Rendered(f), false) && line.raw == entry.raw && line.mark != entry.mark && line.mark.heartbeatId.None?
  {
    HeartbeatWrap.WrapUnwraps(t, f.command, pingBase, token, measure, 0);
    UndoneEntry(t, f, entry, source);
  }

  lemma UndoneEntry(t: HeartbeatWrap.Template, f: Fields, entry: Line, source: Option<Source>)
    requires entry.content.Job? && !entry.content.disabled && entry.mark.heartbeatId.Some?
    requires entry.content.fields.(command := f.command) == Rendered(f)
    requires var w := HeartbeatWrap.Unwrap(t, entry.content.fields.command);
      w.Some? && HeartbeatWrap.Original(w.value) == f.command
    ensures var line := Undo(t, source)(entry);
      && line.content == Job(Rendered(f), false) && line.raw == entry.raw && line.mark != entry.mark && line.mark.heartbeatId.None?
  {}

  lemma WrapFacts(t: HeartbeatWrap.Template, command: string, pingBase: string, token: string, measure: bool)
    returns (w: HeartbeatWrap.Wrapped)
    requires HeartbeatWrap.Sound(t) && HeartbeatWrap.Wrap(t, command, pingBase, token, measure, 0).Ok?
    ensures var out := HeartbeatWrap.Wrap(t, command, pingBase, token, measure, 0).command;
      && out == HeartbeatWrap.Compose(t, w) && HeartbeatWrap.NoneRefused(out) && HeartbeatWrap.NoneRefused(command) && out != command
  {
    HeartbeatWrap.WrapParts(t, command, pingBase, token, measure, 0);
    HeartbeatWrap.WrappedRefusesNothing(t, command, pingBase, token, measure, 0);
    HeartbeatWrap.WrapUnwraps(t, command, pingBase, token, measure, 0);
    w := HeartbeatWrap.Parts(command, HeartbeatWrap.NormalizePingBase(pingBase).value, token, measure);
  }

  lemma AroundIsOneLineEach(raws: seq<string>, k: nat, i: nat, labelLine: string, text: string)
    requires NoBreaksIn(raws) && k <= i < |raws| && '\n' !in labelLine && '\n' !in text
    ensures NoBreaksIn(Around(raws[..k], [labelLine], text, raws[i + 1..]))
  {}

  /** What is written when the entry is monitored, and what is written when it is unmonitored in
      the file that was written: `raws` are the lines of the original file, `first` is the
      monitored entry, and `unmonitor` is done to the entry as it is then read. */
  ghost predicate RestoresEntry(
    raws: seq<string>, i: nat, f: Fields, g: Fields, read: Mark, first: Line, unmonitor: Line -> Line, restored: string, syn: Syntax)
    requires i < |raws|
  {
    var lines := ReadLines(raws, syn);
    var k := CrontabEdit.CutFrom(lines, i, syn);
    var monitored := WriteLines(lines[i := first], syn);
    && NoBreaksIn(monitored) && k + 1 < |monitored|
    && var again := ReadLines(monitored, syn);
       && again[k + 1].content == Job(g, false) && again[k + 1].mark == read
       && RestoredTo(raws, i, k, f, again, unmonitor(again[k + 1]), restored, syn)
  }

  /** Above the entry and below it the file is what it was; the entry is `f` again. */
  ghost predicate RestoredTo(
    raws: seq<string>, i: nat, k: nat, f: Fields, again: seq<Line>, line: Line, restored: string, syn: Syntax)
  {
    && k <= i < |raws| && k + 1 < |again|
    && WriteLines(again[k + 1 := line], syn) == Around(raws[..k], LabelLines(line.mark, syn), restored, raws[i + 1..])
    && syn.read(restored) == Job(f, false)
  }

  lemma WrapTexts(
    raw: string, f: Fields, kind: Kind, valid: Validator, t: HeartbeatWrap.Template,
    pingBase: string, token: string, measure: bool, out: string)
    requires Strict(valid) && ParseLine(raw, kind, valid) == Job(f, false) && '\n' !in raw
    requires IsNormal(Trim(f.schedule)) && valid(Trim(f.schedule)) && HeartbeatWrap.Sound(t)
    requires HeartbeatWrap.Wrap(t, f.command, pingBase, token, measure, 0) == HeartbeatWrap.Ok(out)
    ensures HasTexts(raw, f, f.(command := out), Rendered(f.(command := out)), Rendered(f),
                     FormatEntry(f.(command := out), false), FormatEntry(Rendered(f), false), CrontabSyntax(kind, valid))
  {
    var w := WrapFacts(t, f.command, pingBase, token, measure);
    assert WellFormed(Rendered(f.(command := out)), false, kind, valid) by { WrappedIsWellFormed(raw, f, t, w, kind, valid); }
    assert WellFormed(Rendered(f), false, kind, valid) by { ParsedIsWellFormed(raw, f, kind, valid); }
    BothTexts(raw, f, out, kind, valid);
  }

  /** What the label line of the monitored entry `i` reads as. */
  function MarkLeft(raws: seq<string>, i: nat, name: string, id: nat, syn: Syntax): Mark
    requires i < |raws|
  {
    MarkAfter(LabelIn(PrevOf(ReadLines(raws, syn), i), syn), Mark(Some(name), Some(id)), MarkRead(name, id))
  }

  lemma StayingScheduleIsRestored(
    raws: seq<string>, i: nat, f: Fields, kind: Kind, valid: Validator, t: HeartbeatWrap.Template,
    pingBase: string, token: string, measure: bool, out: string, name: string, id: nat, source: Option<Source>)
    requires IsEnabledEntry(raws, i, f, kind, valid) && StaysSchedule(f.schedule, valid) && HeartbeatWrap.Sound(t) && id < ID_LIMIT
    requires HeartbeatWrap.Wrap(t, f.command, pingBase, token, measure, 0) == HeartbeatWrap.Ok(out)
    ensures var syn := CrontabSyntax(kind, valid);
      var entry := ReadLines(raws, syn)[i];
      && entry.content == Job(f, false)
      && RestoresEntry(raws, i, Rendered(f), Rendered(f.(command := out)), MarkLeft(raws, i, name, id, syn), Monitored(entry, out, name, id),
                       Undo(t, source), FormatEntry(Rendered(f), false), syn)
  {
    var syn, ed := CrontabSyntax(kind, valid), CrontabEdit.CrontabEditable(kind, valid);
    assert Lawful(syn, ed) by { CrontabEdit.CrontabIsLawful(kind, valid); }
    assert ReadsMark(syn, name, id) by { LabelReads(kind, valid, name, id); }
    UndoRestores(t, f, pingBase, token, measure, out, MarkLeft(raws, i, name, id, syn), source);
    WrapTexts(raws[i], f, kind, valid, t, pingBase, token, measure, out);
    MonitorAndUndo(raws, i, f, f.(command := out), Rendered(f.(command := out)), Rendered(f), FormatEntry(f.(command := out), false),
                   FormatEntry(Rendered(f), false), out, name, id, Undo(t, source), syn, ed);
  }

  /** The line on which a restored entry stood while it was monitored. */
  lemma RestoredReads(
    raws: seq<string>, i: nat, f: Fields, g: Fields, read: Mark, first: Line, undo: Line -> Line, restored: string, syn: Syntax)
    returns (raw: string)
    requires i < |raws| && RestoresEntry(raws, i, f, g, read, first, undo, restored, syn)
    ensures syn.read(raw) == Job(g, false)
  {
    var lines := ReadLines(raws, syn);
    var monitored, k := WriteLines(lines[i := first], syn), CrontabEdit.CutFrom(lines, i, syn);
    ReadAt(monitored, k + 1, syn);
    raw := monitored[k + 1];
  }

  /** An entry that is read back has a schedule that parses. */
  lemma RestoredStaysSchedule(
    raws: seq<string>, i: nat, f: Fields, g: Fields, read: Mark, first: Line, undo: Line -> Line, restored: string, kind: Kind, valid: Validator)
    requires i < |raws| && RestoresEntry(raws, i, f, g, read, first, undo, restored, CrontabSyntax(kind, valid)) && Trimmed(g.schedule)
    ensures IsNormal(g.schedule) && valid(g.schedule)
  {
    var raw := RestoredReads(raws, i, f, g, read, first, undo, restored, CrontabSyntax(kind, valid));
    TrimmedScheduleIsNormal(raw, g, kind, valid);
  }

  /** Monitoring an entry and then unmonitoring it, with the file written and read in between,
      restores its schedule, user and command, and leaves every line but the entry and its label
      line byte for byte as it was, whatever is stored with the heartbeat: for every entry whose schedule is
      one still as it is rendered, and for no other. */
  lemma MonitorThenUnmonitor(
    raws: seq<string>, i: nat, f: Fields, kind: Kind, valid: Validator, t: HeartbeatWrap.Template,
    pingBase: string, token: string, measure: bool, out: string, name: string, id: nat, source: Option<Source>)
    requires IsEnabledEntry(raws, i, f, kind, valid) && HeartbeatWrap.Sound(t) && id < ID_LIMIT
    requires HeartbeatWrap.Wrap(t, f.command, pingBase, token, measure, 0) == HeartbeatWrap.Ok(out)
    ensures var syn := CrontabSyntax(kind, valid);
      var entry := ReadLines(raws, syn)[i];
      && entry.content == Job(f, false)
      && (RestoresEntry(raws, i, Rendered(f), Rendered(f.(command := out)), MarkLeft(raws, i, name, id, syn), Monitored(entry, out, name, id),
                        Undo(t, source), FormatEntry(Rendered(f), false), syn)
          <==> StaysSchedule(f.schedule, valid))
  {
    var syn := CrontabSyntax(kind, valid);
    ReadAt(raws, i, syn);
    if StaysSchedule(f.schedule, valid) {
      StayingScheduleIsRestored(raws, i, f, kind, valid, t, pingBase, token, measure, out, name, id, source);
    }
    if RestoresEntry(raws, i, Rendered(f), Rendered(f.(command := out)), MarkLeft(raws, i, name, id, syn),
                     Monitored(ReadLines(raws, syn)[i], out, name, id), Undo(t, source), FormatEntry(Rendered(f), false), syn) {
      TrimIsTrimmed(f.schedule);
      RestoredStaysSchedule(raws, i, Rendered(f), Rendered(f.(command := out)), MarkLeft(raws, i, name, id, syn),
                            Monitored(ReadLines(raws, syn)[i], out, name, id), Undo(t, source), FormatEntry(Rendered(f), false), kind, valid);
    }
  }

  ghost predicate ReadsMark(syn: Syntax, name: string, id: nat) {
    syn.readLabel(syn.labelLine(Mark(Some(name), Some(id)))) == Some(MarkRead(name, id))
  }

  lemma LabelReads(kind: Kind, valid: Validator, name: string, id: nat)
    requires id < ID_LIMIT
    ensures ReadsMark(CrontabSyntax(kind, valid), name, id)
  {
    LabelWithIdRoundTrips(Some(name), id);
  }

  /** Done to the monitored entry, `undo` gives the entry its command back and drops the id. */
  ghost predicate Restoring(undo: Line -> Line, g': Fields, h: Fields, read: Mark) {
    forall entry: Line :: entry.content == Job(g', false) && entry.mark == read ==>
      undo(entry).content == Job(h, false) && undo(entry).raw == entry.raw && undo(entry).mark != entry.mark
  }

  lemma UndoRestores(
    t: HeartbeatWrap.Template, f: Fields, pingBase: string, token: string, measure: bool, out: string, read: Mark, source: Option<Source>)
    requires HeartbeatWrap.Sound(t) && HeartbeatWrap.Wrap(t, f.command, pingBase, token, measure, 0) == HeartbeatWrap.Ok(out)
    requires read.heartbeatId.Some?
    ensures Restoring(Undo(t, source), Rendered(f.(command := out)), Rendered(f), read)
  {
    var undo := Undo(t, source);
    forall entry: Line | entry.content == Job(Rendered(f.(command := out)), false) && entry.mark == read
      ensures undo(entry).content == Job(Rendered(f), false) && undo(entry).raw == entry.raw && undo(entry).mark != entry.mark
    {
      UnmonitoredEntry(t, f, pingBase, token, measure, out, entry, source);
    }
  }

  /** The monitored and the restored line as they are written and read. */
  ghost predicate HasTexts(raw: string, f: Fields, g: Fields, g': Fields, h: Fields, text: string, restored: string, syn: Syntax) {
    && syn.read(raw) == Job(f, false)
    && EntryText(raw, g, false, syn) == text && '\n' !in text
    && syn.read(text) == Job(g', false)
    && EntryText(text, h, false, syn) == restored && syn.read(restored) == Job(h, false)
  }

  lemma MonitorAndUndo(
    raws: seq<string>, i: nat, f: Fields, g: Fields, g': Fields, h: Fields, text: string, restored: string, out: string,
    name: string, id: nat, undo: Line -> Line, syn: Syntax, ed: Editable)
    requires Lawful(syn, ed) && NoBreaksIn(raws) && i < |raws| && HasTexts(raws[i], f, g, g', h, text, restored, syn)
    requires g == f.(command := out) && ReadsMark(syn, name, id) && Restoring(undo, g', h, MarkLeft(raws, i, name, id, syn))
    ensures var entry := ReadLines(raws, syn)[i];
      && entry.content == Job(f, false)
      && RestoresEntry(raws, i, h, g', MarkLeft(raws, i, name, id, syn), Monitored(entry, out, name, id), undo, restored, syn)
  {
    var read := MarkLeft(raws, i, name, id, syn);
    var first := Line(CrontabEdit.CutFrom(ReadLines(raws, syn), i, syn) + 2, text, Job(g', false), read);
    assert undo(first).content == Job(h, false) && undo(first).raw == text && undo(first).mark != read;
    BothEdits(raws, i, f, g, g', h, Mark(Some(name), Some(id)), MarkRead(name, id), read, text, restored, undo, syn, ed);
  }

  lemma BothEdits(
    raws: seq<string>, i: nat, f: Fields, g: Fields, g': Fields, h: Fields, mark: Mark, written: Mark, read: Mark, text: string,
    restored: string, unmonitor: Line -> Line, syn: Syntax, ed: Editable)
    requires Lawful(syn, ed) && NoBreaksIn(raws) && i < |raws| && syn.read(raws[i]) == Job(f, false)
    requires mark != NO_MARK && syn.readLabel(syn.labelLine(mark)) == Some(written)
    requires read == MarkAfter(LabelIn(PrevOf(ReadLines(raws, syn), i), syn), mark, written)
    requires EntryText(raws[i], g, false, syn) == text && '\n' !in text && syn.read(text) == Job(g', false)
    requires var line := unmonitor(Line(CrontabEdit.CutFrom(ReadLines(raws, syn), i, syn) + 2, text, Job(g', false), read));
      line.raw == text && line.content == Job(h, false) && line.mark != read
    requires EntryText(text, h, false, syn) == restored && syn.read(restored) == Job(h, false)
    ensures var entry := ReadLines(raws, syn)[i];
      && entry.content == Job(f, false)
      && RestoresEntry(raws, i, h, g', read, entry.(content := Job(g, false), mark := mark), unmonitor, restored, syn)
  {
    var lines := ReadLines(raws, syn);
    var k := CrontabEdit.CutFrom(lines, i, syn);
    var first := lines[i].(content := Job(g, false), mark := mark);
    var labelLine := FirstEdit(raws, i, f, g, mark, written, first, text, syn, ed);
    AroundIsOneLineEach(raws, k, i, labelLine, text);
    SecondPart(raws, i, k, WriteLines(lines[i := first], syn), g', h, labelLine, read, text, restored, unmonitor, syn, ed);
  }

  lemma SecondPart(
    raws: seq<string>, i: nat, k: nat, monitored: seq<string>, g': Fields, h: Fields, labelLine: string, read: Mark, text: string,
    restored: string, unmonitor: Line -> Line, syn: Syntax, ed: Editable)
    requires Lawful(syn, ed) && k <= i < |raws|
    requires monitored == Around(raws[..k], [labelLine], text, raws[i + 1..])
    requires SaysLabel(syn, labelLine, read) && syn.read(text) == Job(g', false)
    requires var line := unmonitor(Line(k + 2, text, Job(g', false), read));
      line.raw == text && line.content == Job(h, false) && line.mark != read
    requires EntryText(text, h, false, syn) == restored && syn.read(restored) == Job(h, false)
    ensures var again := ReadLines(monitored, syn);
      && k + 1 < |again| && again[k + 1] == Line(k + 2, text, Job(g', false), read)
      && RestoredTo(raws, i, k, h, again, unmonitor(again[k + 1]), restored, syn)
  {
    EntryReadBack(raws[..k], labelLine, read, text, raws[i + 1..], g', syn);
    SecondEdit(raws[..k], labelLine, read, text, raws[i + 1..], g', h, unmonitor(Line(k + 2, text, Job(g', false), read)), restored, syn, ed);
  }

  // ---- For a crontab as the host has it --------------------------------------------------------------------

  lemma TrimmedScheduleIsNormal(raw: string, f: Fields, kind: Kind, valid: Validator)
    requires ParseLine(raw, kind, valid) == Job(f, false) && Trimmed(f.schedule)
    ensures IsNormal(f.schedule) && Trim(f.schedule) == f.schedule && valid(f.schedule)
  {
    JobParts(raw, f, kind, valid);
    ParsedFields(raw, kind, valid);
    ParsedScheduleIsNormal(raw);
    TrimOfTrimmed(f.schedule);
  }

  lemma SplitLinesIsOneLineEach(content: string)
    ensures NoBreaksIn(SplitLines(content))
  {}

  /** What rendering trims off the schedule has no blank: its last token is not whitespace only. */
  predicate KeepsTokens(schedule: string) {
    ' ' !in Removed(schedule)
  }

  lemma StaysScheduleIff(raw: string, f: Fields, kind: Kind, croner: Croner)
    requires ParseLine(raw, kind, Accepts(croner)) == Job(f, false)
    ensures StaysSchedule(f.schedule, Accepts(croner)) <==> KeepsTokens(f.schedule)
  {
    JobParts(raw, f, kind, Accepts(croner));
    ParsedFields(raw, kind, Accepts(croner));
    ParsedScheduleIsNormal(raw);
    TrimKeepsScheduleIff(f.schedule);
    TrimIsTrimmed(f.schedule);
  }

  lemma RenderedSame(f: Fields)
    requires Trimmed(f.schedule)
    ensures Rendered(f) == f
  {
    TrimOfTrimmed(f.schedule);
  }

  lemma WrittenIsRead(raws: seq<string>, i: nat, f: Fields, g: Fields, read: Mark, first: Line, undo: Line -> Line, restored: string, syn: Syntax)
    requires i < |raws| && RestoresEntry(raws, i, f, g, read, first, undo, restored, syn)
    ensures var out := WriteLines(ReadLines(raws, syn)[i := first], syn);
      Read(JoinLines(out), syn) == ReadLines(out, syn)
  {
    SplitOfJoin(WriteLines(ReadLines(raws, syn)[i := first], syn));
  }

  /** The whole round trip on file text: what `MonitorThenUnmonitor` says of lines, for an entry of
      any crontab. It is restored exactly when the last token of its schedule is not whitespace
      only, and unchanged if its schedule has no whitespace at its ends. */
  lemma MonitoredCrontabIsRestored(
    content: string, i: nat, f: Fields, kind: Kind, croner: Croner, t: HeartbeatWrap.Template,
    pingBase: string, token: string, measure: bool, out: string, name: string, id: nat, source: Option<Source>)
    requires i < |SplitLines(content)| && ParseLine(SplitLines(content)[i], kind, Accepts(croner)) == Job(f, false)
    requires HeartbeatWrap.Sound(t) && id < ID_LIMIT
    requires HeartbeatWrap.Wrap(t, f.command, pingBase, token, measure, 0) == HeartbeatWrap.Ok(out)
    ensures var syn := CrontabSyntax(kind, Accepts(croner));
      var entry := Read(content, syn)[i];
      && entry.content == Job(f, false)
      && var monitored := Read(content, syn)[i := Monitored(entry, out, name, id)];
         && (RestoresEntry(SplitLines(content), i, Rendered(f), Rendered(f.(command := out)), MarkLeft(SplitLines(content), i, name, id, syn),
                           monitored[i], Undo(t, source), FormatEntry(Rendered(f), false), syn)
             <==> KeepsTokens(f.schedule))
         && (KeepsTokens(f.schedule) ==> Read(Write(monitored, syn), syn) == ReadLines(WriteLines(monitored, syn), syn))
    ensures Trimmed(f.schedule) ==> Rendered(f) == f && KeepsTokens(f.schedule)
  {
    var syn, raws := CrontabSyntax(kind, Accepts(croner)), SplitLines(content);
    AcceptsIsStrict(croner);
    SplitLinesIsOneLineEach(content);
    MonitorThenUnmonitor(raws, i, f, kind, Accepts(croner), t, pingBase, token, measure, out, name, id, source);
    StaysScheduleIff(raws[i], f, kind, croner);
    if KeepsTokens(f.schedule) {
      WrittenIsRead(raws, i, Rendered(f), Rendered(f.(command := out)), MarkLeft(raws, i, name, id, syn),
                    Monitored(ReadLines(raws, syn)[i], out, name, id), Undo(t, source), FormatEntry(Rendered(f), false), syn);
    }
    if Trimmed(f.schedule) {
      RenderedSame(f);
      NothingRemoved(f.schedule);
    }
  }

  lemma NothingRemoved(s: string)
    requires Trimmed(s)
    ensures KeepsTokens(s)
  {}

  // ---- The label line that monitoring inserts -----------------------------------------------------------

  /** A label that unmonitoring recognises again in the file, or that leaves no label there. */
  predicate LabelGoes(name: string) {
    Clean(name) == "" || (name != "" && !IsSpace(name[|name| - 1]) && !HasHb(name, true))
  }

  lemma UnmonitoredMark(t: HeartbeatWrap.Template, entry: Line, source: Source)
    requires entry.content.Job? && source.labelLineInserted
    ensures Unmonitored(t, entry, Some(source)).mark == Mark(if entry.mark.name == Some(source.name) then None else entry.mark.name, None)
  {}

  lemma LabelLeft(t: HeartbeatWrap.Template, entry: Line, command: string, name: string, id: nat, syn: Syntax)
    requires entry.content.Job? && entry.mark == MarkRead(name, id) && Neat(name) && name != ""
    ensures LabelLines(Unmonitored(t, entry, Some(Source(command, name, true))).mark, syn) ==
      if LabelGoes(name) then [] else [syn.labelLine(Mark(Some(Clean(name)), None))]
  {
    UnmonitoredMark(t, entry, Source(command, name, true));
    CleanKeepsIff(name);
    assert CleanOf(Some(name)) == Clean(name);
  }

  /** What stands above an entry without a label is read as no label. */
  lemma NothingSaid(raws: seq<string>, i: nat, name: string, id: nat, syn: Syntax)
    requires i < |raws| && ReadLines(raws, syn)[i].content.Job? && ReadLines(raws, syn)[i].mark.name.None?
    ensures MarkLeft(raws, i, name, id, syn) == MarkRead(name, id)
  {
    ReadAt(raws, i, syn);
  }

  /** What is written in the end, when the label chosen for entry `i` was inserted. */
  ghost predicate LeavesLabel(raws: seq<string>, i: nat, f: Fields, t: HeartbeatWrap.Template, first: Line, chosen: string, syn: Syntax)
    requires i < |raws|
  {
    var lines := ReadLines(raws, syn);
    LeftAgain(raws, i, CrontabEdit.CutFrom(lines, i, syn), f, t, Read(JoinLines(WriteLines(lines[i := first], syn)), syn), chosen, syn)
  }

  ghost predicate LeftAgain(raws: seq<string>, i: nat, k: nat, f: Fields, t: HeartbeatWrap.Template, again: seq<Line>, chosen: string, syn: Syntax) {
    && k <= i < |raws| && k + 1 < |again|
    && WriteLines(again[k + 1 := Unmonitored(t, again[k + 1], Some(Source(f.command, chosen, true)))], syn) ==
         Around(raws[..k], if LabelGoes(chosen) then [] else [syn.labelLine(Mark(Some(Clean(chosen)), None))], FormatEntry(f, false), raws[i + 1..])
  }

  lemma RestoredLeavesLabel(
    raws: seq<string>, i: nat, f: Fields, g: Fields, t: HeartbeatWrap.Template, first: Line, chosen: string, id: nat, syn: Syntax)
    requires i < |raws| && Neat(chosen) && chosen != ""
    requires RestoresEntry(raws, i, f, g, MarkRead(chosen, id), first, Undo(t, Some(Source(f.command, chosen, true))), FormatEntry(f, false), syn)
    ensures LeavesLabel(raws, i, f, t, first, chosen, syn)
  {
    var lines, source := ReadLines(raws, syn), Source(f.command, chosen, true);
    var k := CrontabEdit.CutFrom(lines, i, syn);
    var monitored := WriteLines(lines[i := first], syn);
    SplitOfJoin(monitored);
    var again := ReadLines(monitored, syn);
    RestoredAgain(raws, i, k, f, g, t, again, source, chosen, id, syn);
  }

  lemma RestoredAgain(
    raws: seq<string>, i: nat, k: nat, f: Fields, g: Fields, t: HeartbeatWrap.Template, again: seq<Line>, source: Source, chosen: string,
    id: nat, syn: Syntax)
    requires k <= i < |raws| && k + 1 < |again| && Neat(chosen) && chosen != "" && source == Source(f.command, chosen, true)
    requires again[k + 1].content == Job(g, false) && again[k + 1].mark == MarkRead(chosen, id)
    requires RestoredTo(raws, i, k, f, again, Undo(t, Some(source))(again[k + 1]), FormatEntry(f, false), syn)
    ensures LeftAgain(raws, i, k, f, t, again, chosen, syn)
  {
    LabelLeft(t, again[k + 1], f.command, chosen, id, syn);
  }

  /** Through the files written: an entry without a label is monitored under the label chosen for the name
      handed in, and unmonitored. Its line and all others are as they were, and the label line that
      was inserted is gone exactly when the label does not end in a space and holds no `hb=`, or when
      nothing is left of it on the line. */
  lemma InsertedLabelGoesIff(
    content: string, i: nat, f: Fields, kind: Kind, croner: Croner, t: HeartbeatWrap.Template,
    pingBase: string, token: string, measure: bool, out: string, name: Option<string>, id: nat)
    requires i < |SplitLines(content)| && ParseLine(SplitLines(content)[i], kind, Accepts(croner)) == Job(f, false)
    requires Read(content, CrontabSyntax(kind, Accepts(croner)))[i].mark.name.None?
    requires KeepsTokens(f.schedule) && HeartbeatWrap.Sound(t) && id < ID_LIMIT
    requires HeartbeatWrap.Wrap(t, f.command, pingBase, token, measure, 0) == HeartbeatWrap.Ok(out)
    ensures var syn := CrontabSyntax(kind, Accepts(croner));
      var entry := Read(content, syn)[i];
      && entry.content == Job(f, false)
      && var chosen := LabelFor(name, entry);
         LeavesLabel(SplitLines(content), i, Rendered(f), t, Monitored(entry, out, chosen, id), chosen, syn)
  {
    var syn, raws := CrontabSyntax(kind, Accepts(croner)), SplitLines(content);
    var entry := Read(content, syn)[i];
    ReadAt(raws, i, syn);
    assert entry.content == Job(f, false);
    var chosen := LabelFor(name, entry);
    LabelIsNeat(name, entry);
    NothingSaid(raws, i, chosen, id, syn);
    MonitoredCrontabIsRestored(content, i, f, kind, croner, t, pingBase, token, measure, out, chosen, id, Some(Source(f.command, chosen, true)));
    RestoredLeavesLabel(raws, i, Rendered(f), Rendered(f.(command := out)), t, Monitored(entry, out, chosen, id), chosen, id, syn);
  }

  // ---- A label that stays ---------------------------------------------------------------------------------

  lemma OneEntryFile(f: Fields, kind: Kind, valid: Validator)
    requires Strict(valid) && WellFormed(f, false, kind, valid)
    ensures var text, syn := FormatEntry(f, false), CrontabSyntax(kind, valid);
      && SplitLines(JoinLines([text])) == [text]
      && ParseLine(text, kind, valid) == Job(f, false)
      && Read(JoinLines([text]), syn) == [Line(1, text, Job(f, false), NO_MARK)]
      && Trimmed(f.schedule)
  {
    var text, syn := FormatEntry(f, false), CrontabSyntax(kind, valid);
    CrontabEdit.WellFormedReadsBack(f, false, kind, valid);
    CrontabEdit.WellFormedIsOneLine(f, false);
    OneLineRead(text, f, syn);
  }

  lemma OneLineRead(text: string, f: Fields, syn: Syntax)
    requires '\n' !in text && syn.read(text) == Job(f, false)
    ensures SplitLines(JoinLines([text])) == [text]
    ensures ReadLines([text], syn) == [Line(1, text, Job(f, false), NO_MARK)]
  {
    SplitOfJoin([text]);
    CrontabEdit.ReadNext([], [], text, [text], Line(1, text, Job(f, false), NO_MARK), syn);
  }

  /** For every entry and every name whose first word has 79 units: the crontab that held just the entry
      ends up with a label line above it, for the word that the label was cut to. */
  lemma CutLabelStays(
    f: Fields, kind: Kind, croner: Croner, t: HeartbeatWrap.Template,
    pingBase: string, token: string, measure: bool, out: string, word: string, rest: string, id: nat)
    requires WellFormed(f, false, kind, Accepts(croner)) && HeartbeatWrap.Sound(t) && id < ID_LIMIT
    requires HeartbeatWrap.Wrap(t, f.command, pingBase, token, measure, 0) == HeartbeatWrap.Ok(out)
    requires PlainWord(word) && PlainWord(rest) && HeartbeatWrap.JsLength(word) == LABEL_MAX - 1
    ensures var syn := CrontabSyntax(kind, Accepts(croner));
      var was := Line(1, FormatEntry(f, false), Job(f, false), NO_MARK);
      var chosen := LabelFor(Some(word + " " + rest), was);
      var again := Read(Write([Monitored(was, out, chosen, id)], syn), syn);
      && chosen == word + " "
      && |again| > 1
      && Write(again[1 := Unmonitored(t, again[1], Some(Source(f.command, chosen, true)))], syn) ==
           JoinLines([FormatLabelLine(Mark(Some(word), None)), FormatEntry(f, false)])
  {
    var valid := Accepts(croner);
    var syn, text := CrontabSyntax(kind, valid), FormatEntry(f, false);
    var was := Line(1, text, Job(f, false), NO_MARK);
    AcceptsIsStrict(croner);
    OneEntryFile(f, kind, valid);
    CutAtSpace(word, rest);
    var chosen := LabelFor(Some(word + " " + rest), was);
    InsertedLabelGoesIff(JoinLines([text]), 0, f, kind, croner, t, pingBase, token, measure, out, Some(word + " " + rest), id);
    RenderedSame(f);
    NothingRemoved(f.schedule);
    OnlyLabelLeft(f, t, was, Monitored(was, out, chosen, id), word, chosen, syn);
  }

  lemma OnlyLabelLeft(f: Fields, t: HeartbeatWrap.Template, was: Line, first: Line, word: string, chosen: string, syn: Syntax)
    requires ReadLines([FormatEntry(f, false)], syn) == [was] && PlainWord(word) && chosen == word + " "
    requires LeavesLabel([FormatEntry(f, false)], 0, f, t, first, chosen, syn)
    ensures var again := Read(Write([first], syn), syn);
      && |again| > 1
      && Write(again[1 := Unmonitored(t, again[1], Some(Source(f.command, chosen, true)))], syn) ==
           JoinLines([syn.labelLine(Mark(Some(word), None)), FormatEntry(f, false)])
  {
    WordAndSpaceCleaned(word);
    assert !LabelGoes(chosen);
    assert [was][0 := first] == [first];
    var raws := [FormatEntry(f, false)];
    assert Around(raws[..0], [syn.labelLine(Mark(Some(word), None))], FormatEntry(f, false), raws[1..]) ==
      [syn.labelLine(Mark(Some(word), None)), FormatEntry(f, false)];
  }
}
