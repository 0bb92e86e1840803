# RackMap: verified models of its algorithms and protocols

RackMap manages Linux hosts from several API replicas that share one Postgres database. This
project models the parts of it whose correctness is hard to see by reading one function, and
proves what they promise. Each file is one module (`SecretMasker` also holds the type of strings), named
after the part it models.

| file | part |
|---|---|
| `LineDiff` | the line diff shown before a crontab is written |
| `CronSchedule`, `CronFields`, `CronLabels`, `CronLines`, `CronFormat`, `CronSpelling`, `CrontabText`, `CrontabEdit` | reading, editing and writing crontabs |
| `HeartbeatWrap`, `HeartbeatAddress`, `CronMonitorLabels`, `CronMonitor` | putting a crontab entry under a heartbeat and taking it off again |
| `Utf8`, `Utf8Size`, `SecretMasker`, `OutputPipeline`, `RemoteStreams` | a runbook's output from the SSH channel to its database row |
| `RunbookProtocol`, `RunbookOutcomes`, `RunbookProgress` | one runbook run, executed, cancelled, reaped and shut down by any number of replicas |
| `JobLock` | leases on scheduled jobs |
| `HeartbeatSchedule`, `HeartbeatMonitor` | when a heartbeat is due, and its alerts |
| `AccessGrants` | temporary access and its removal |
| `DriftDiff`, `DriftSnapshots`, `DriftReports`, `DriftHistory` | what changed on a host since its baseline, and what has been reported |
| `RateLimiter` | the fixed-window limiter |
| `Options`, `Text` | shared datatypes and string functions |

How the models are built:

- Code that updates state is a class, or a method with loops, whose contract equates its result
  with a specification function; the theorems are about those functions.
- A protocol between replicas is a state machine. One SQL statement is one step, a transaction
  under a row or advisory lock is one step, time passes in steps of its own, and a value read
  before a statement may be stale when the statement runs. A theorem about a protocol holds after
  every sequence of steps.
- An alert is an entry in a log, or a counter, at the step that raises it.
- Strings that are cut or masked are sequences of UTF-16 code units; crontab text is a string of
  characters with JavaScript's exact whitespace.
- The list level of the crontab engine (`CrontabText`) is written against a record of line
  functions and the laws they obey; `CrontabEdit.CrontabIsLawful` shows that the real line syntax
  obeys them. The wrapper text is a record of fixed pieces in the same way, and
  `HeartbeatWrap.TemplateIsSound` shows that the real pieces are fit for it.
- What an operation does is also said without its definition: in terms of the bytes, the lines, the
  lists, the rows or the hits it is given (`Utf8`, `CrontabEdit`, `DriftReports`, `RunbookOutcomes`,
  `HeartbeatMonitor`, `RateLimiter`, and the lemmas named `...Says`).

What the proofs found where the code does not do what one might expect:

- Clearing the label of an entry drops its label line, and the entry comes under an older label
  line directly above, if there is one; and an entry that gets a new label line, if only because
  another entry was inserted above it, has its label respelled (`CrontabEdit.EditedCrontabReadsBackIff`
  says exactly when, `CrontabEdit.ClearedLabelComesBack` and `CrontabEdit.PartedLabelIsRespelled`
  show that both happen).
- Removing an entry that stands directly above another one deletes an older label line above its own
  label line as well (`CrontabEdit.RemovedFromFile`).
- A setting that is rendered anew loses the quotes in which its value stands
  (`CronSpelling.SettingReadsBackIff`).
- `word hb=hb=5` as a label without a heartbeat is written as a label with heartbeat 5
  (`CronLabels.LabelWithoutIdRoundTripsIff`, `CronLabels.CleaningMayForgeAnId`).
- A command with `\\%` is split by the heartbeat wrapper at a `%` that cron takes for an escaped
  one, so wrapping it changes what cron runs (`HeartbeatWrap.WrappingPreservesIff`,
  `HeartbeatWrap.DoubledBackslashIsMisread`).
- A label cut to 80 characters can end in a space; then the label line that monitoring inserted
  stays behind (`CronMonitor.InsertedLabelGoesIff`, `CronMonitor.CutLabelStays`).
- The masker may hand on half a surrogate pair, which the byte cap counts as three bytes, so
  output that fits can be truncated (`OutputPipeline.CapIsExact`, `OutputPipeline.MaskedPairIsOvercounted`);
  the cut then puts a replacement character where the stream has the other half
  (`OutputPipeline.KeptIsPrefixIff`, `OutputPipeline.CutHalfIsReplaced`), and a flush between the two
  halves stores two replacement characters (`OutputPipeline.StoredOutputIsMasked`).
- A renewal that carries a moment from before its holder's latest acquisition can shorten that
  acquisition's lease (`JobLock.LeaseKeepsTtlIff`, `JobLock.ShortLeaseIsTaken`,
  `JobLock.LateRenewalCutsTtl`). A process whose lease expired under a running body may call again and
  win, and the end of the first call then ends the second one's lease (`JobLock.EarlierCallEndsLease`,
  `JobLock.SecondCallOfOneProcess`). Leases still never overlap before a deadline.
- A revocation that read the grant as used up before an extension, and records the failure that uses it up
  again, alerts nobody (`AccessGrants.ExhaustionIsSilentIff`, `AccessGrants.OldReadingSilencesExhaustion`);
  one that claims more than the stale-claim time after its reading can alert a second time
  (`AccessGrants.AlertsSinceExhaustion`, `AccessGrants.LateClaimAlertsTwice`). An incident opened before an
  extension stays open when the grant is revoked after it (`AccessGrants.IncidentOutlivesGrantIff`,
  `AccessGrants.ExtensionLeavesIncident`).
- An entry whose schedule ends in a token of whitespace other than blanks and tabs is no entry any more once
  it is rendered, so monitoring and unmonitoring do not restore it (`CronMonitor.MonitoredCrontabIsRestored`).
- Accepting an older snapshot as the baseline can hide drift for good
  (`DriftHistory.PinningHidesDriftIff`, `DriftHistory.PinningMayHideDrift`, `DriftHistory.HiddenDriftStaysHidden`).
- An executor that has not noticed the reaper can start a host while the reaper cleans up, and the
  stored summary then disagrees with the rows (`RunbookProtocol.ReapedSummaryHoldsIff`,
  `RunbookProtocol.ReapedSummaryMayBeWrong`).

Run `dafny verify dfyconfig.toml` to check everything.

## Model

| member | source | states |
|---|---|---|
| `LineDiff.DiffCronLines` | packages/shared/src/cron.ts:537-574 | The ops turn the first file's lines into the second's, and no common subsequence of the two whole files has more lines than the ops keep |
| `LineDiff.FillTable` | packages/shared/src/cron.ts:548-555 | Every cell of the flat table is the length given by the longest-common-subsequence recurrence for its two suffixes |
| `LineDiff.Walk` | packages/shared/src/cron.ts:556-573 | From a filled table the walk produces exactly the merge that the recurrence prescribes, additions before deletions on a tie |
| `LineDiff.CommonEnds` | packages/shared/src/cron.ts:540-545 | The trimmed prefix and suffix are equal on both sides, do not overlap, and cannot be extended |
| `LineDiff.LcsIsMaximal` | packages/shared/src/cron.ts:548-555 | No common subsequence of two line lists is longer than the recurrence says |
| `LineDiff.LcsBounded` | packages/shared/src/cron.ts:548-555 | Table entries never exceed either line count, so the 32-bit entries do not wrap |
| `LineDiff.TrimmingIsOptimal` | packages/shared/src/cron.ts:540-572 | Keeping the common ends and a longest common subsequence of the middle beats every common subsequence of the whole files |
| `LineDiff.MergeIsDiff` | packages/shared/src/cron.ts:556-573 | The prescribed merge is a diff of its inputs and keeps a longest common subsequence |
| `LineDiff.MostKeptIsFewestEdits` | packages/shared/src/cron.ts:536-574 | Among all diffs of two files the one that keeps most lines has the fewest additions and deletions |
| `CronFields.FiveFieldsIff` | packages/shared/src/cron.ts:150-177 | Five words are accepted exactly when each is a field of its range and the scheduling library agrees |
| `CronFields.OnlyFiveFields` | packages/shared/src/cron.ts:158-165 | No other number of fields is accepted |
| `CronFields.NicknameIff` | packages/shared/src/cron.ts:150-157 | A nickname is accepted exactly when it is one of the eight |
| `CronFields.FieldOkIff` | packages/shared/src/cron.ts:115-138 | A field is accepted exactly when it is a list of accepted items |
| `CronFields.ItemOkIff` | packages/shared/src/cron.ts:102-138 | An item is accepted exactly when it is a star, a value or an upward range, with a step where one is allowed |
| `CronFields.ValueIff` | packages/shared/src/cron.ts:104-113 | A token has a value exactly when it is a number in range or one of the names, and which |
| `CronFields.FieldRanges` | packages/shared/src/cron.ts:81-93 | Minutes run to 59, hours to 23, days from 1 to 31, months from 1 to 12 and weekdays to 7 |
| `CronFields.MonthsAndDays` | packages/shared/src/cron.ts:81-93 | Months and weekdays go by three letters in any case, from January as 1 and Sunday as 0 |
| `CronSchedule.FirstTwoFields` | packages/shared/src/cron.ts:150-177 | Every accepted five-field schedule starts with a field of the plain syntax, whitespace, and another such field |
| `CronSchedule.FieldChars` | packages/shared/src/cron.ts:102-138 | Every accepted field is non-empty and made of digits, letters, star, slash, dash and comma only |
| `CronLabels.LabelWithIdRoundTrips` | packages/shared/src/cron.ts:265-291 | With an id, every label line reads back as the cleaned label and that id, for every label text |
| `CronLabels.LabelWithoutIdRoundTripsIff` | packages/shared/src/cron.ts:265-291 | Without an id, a label line reads back as the cleaned label alone exactly when the cleaned label does not end in `hb=` and up to ten digits |
| `CronLabels.MarkRoundTripsIff` | packages/shared/src/cron.ts:265-291 | A label line written for a label and an id reads back as just these exactly when the id has at most ten digits, the label is clean, and without an id does not end in one |
| `CronLabels.CleaningMayForgeAnId` | packages/shared/src/cron.ts:283-288 | For every word and number, the label `word hb=hb=number` without an id reads back as the word with that number as its id |
| `CronLabels.CleanIsTidy` | packages/shared/src/cron.ts:283-288 | A cleaned label has no whitespace at its ends and none but the space inside |
| `CronLabels.LabelLineIsOneLine` | packages/shared/src/cron.ts:283-291 | A formatted label line starts with the label prefix and never contains a line break, whatever the label |
| `CronLabels.LabelLineEndsPlainly` | packages/shared/src/cron.ts:283-291 | No whitespace ends a label line |
| `CronLabels.NumberOfDecimal` | packages/shared/src/cron.ts:272-290 | A heartbeat id written in decimal reads back as itself |
| `CronLines.NextToken` | packages/shared/src/cron.ts:212-219 | The scan by positions finds the token, and its end, that the definition on the remaining text gives, and fails exactly when only blanks are left |
| `CronLines.ParseSchedule` | packages/shared/src/cron.ts:225-243 | The schedule and its end, read token by token, are those of the definition: one nickname, or five fields joined by single spaces |
| `CronLines.ParseEntryText` | packages/shared/src/cron.ts:224-262 | The loops over positions yield the fields of the declarative entry grammar, or fail where it has none |
| `CronFormat.EntryReadsBackIff` | packages/shared/src/cron.ts:293-313 | A plausible entry that is rendered reads back as itself exactly when it is disabled, or neither ends in a carriage return nor is a nickname whose command starts like an assignment |
| `CronFormat.FieldsReadBack` | packages/shared/src/cron.ts:344-353 | The text rendered from plausible fields parses to the same schedule, user and command |
| `CronFormat.SettingIff` | packages/shared/src/cron.ts:197 | A rendered entry matches the environment pattern only as a nickname entry of a user's crontab whose command starts with `=` |
| `CronFormat.EntryIsNoSetting` | packages/shared/src/cron.ts:293-313 | An enabled entry of a file is never rendered as an environment setting, whatever whitespace its line had |
| `CronFormat.ParsedScheduleIsNormal` | packages/shared/src/cron.ts:224-243 | A schedule that was parsed is its own tokens, one space apart |
| `CronFormat.TrimKeepsScheduleIff` | packages/shared/src/cron.ts:224-353 | What rendering leaves of a parsed schedule is a schedule still exactly when what it trims off has no blank, that is when the last token is not whitespace only |
| `CrontabText.ParseCrontab` | packages/shared/src/cron.ts:324-337 | The loop produces the lines of the definition: each line classified on its own, each entry labelled by the comment directly above |
| `CrontabText.SerializeCrontab` | packages/shared/src/cron.ts:368-404 | The loop with its pushes and pops writes exactly the lines of the definition |
| `CrontabText.EditedFileReadsBackIff` | packages/shared/src/cron.ts:324-404 | A list of well-formed lines, with any labels, reads back as the same entries, labels and heartbeats included, exactly when no entry that loses its label line comes under an older one and every label line written anew reads back |
| `CrontabText.WrittenReadsAs` | packages/shared/src/cron.ts:324-404 | What is written reads back as the list's entries, except that an entry that gets a new label line has the label that line reads as, and one that loses its label line takes the label of an older line directly above |
| `CrontabText.UneditedLines` | packages/shared/src/cron.ts:368-404 | The lines of a file just read are written as they were |
| `CrontabText.OneEntryChanged` | packages/shared/src/cron.ts:368-404 | Changing one entry of a file just read leaves every line below it byte for byte, and above it all but the label line |
| `CronSpelling.WrittenSettingIff` | packages/shared/src/cron.ts:199-402 | A setting is written as it was if its line still says it, and reads back otherwise exactly when its value does not itself stand in quotes |
| `CronSpelling.SettingIff` | packages/shared/src/cron.ts:197 | A line is a setting exactly when it is a name, quoted or not, an equals sign and a value, with whitespace around the name, and which name and value |
| `CronSpelling.SettingReadsBackIff` | packages/shared/src/cron.ts:197-357 | A setting that is rendered reads back exactly when its value does not itself stand in quotes |
| `CronSpelling.UserNameIff` | packages/shared/src/cron.ts:245-255 | The user names accepted: one to thirty-two of the characters, a dash not first and a dollar sign only last |
| `CronSpelling.LabelLineSays` | packages/shared/src/cron.ts:264-280 | A label line is the prefix alone or followed by a space and a text; it says the text as a label, or, where that ends in `hb=` and one to ten digits after whitespace or at its start, what stands before and that id |
| `CronSpelling.IdIsDropped` | packages/shared/src/cron.ts:283-288 | Cleaning a label puts one space in the place of an id, all its digits included |
| `CrontabEdit.CrontabIsLawful` | packages/shared/src/cron.ts:293-404 | The real line syntax obeys every law that the list-level results rely on |
| `CrontabEdit.FindIsFirst` | packages/shared/src/cron.ts:458-468 | The search finds the first line, or the first entry, of the number, and nothing exactly when there is none |
| `CrontabEdit.RemovedLines` | packages/shared/src/cron.ts:464-471 | Removing takes away exactly the first entry of that number and a label line directly above it, and keeps every other line in order; without such an entry nothing changes |
| `CrontabEdit.RemovedFromFile` | packages/shared/src/cron.ts:368-471 | Removing an entry of a file just read takes exactly its line and the label line directly above out of the file, byte for byte, and an older label line above those too exactly when another entry stands directly below |
| `CrontabEdit.InsertedLine` | packages/shared/src/cron.ts:442-461 | Inserting keeps every line in order and puts the entry directly below the first line of the given number, or at the end |
| `CrontabEdit.NewLineSays` | packages/shared/src/cron.ts:442-457 | The line of a new entry says what was given, schedule trimmed and an empty label taken for none |
| `CrontabEdit.UpdatedLines` | packages/shared/src/cron.ts:416-437 | Updating changes exactly the entries of that number; each given field takes the given value, an empty user or label is cleared, and every other field keeps its value |
| `CrontabEdit.EditKeepsOk` | packages/shared/src/cron.ts:416-471 | Updates, insertions and removals, which do to the lines what `UpdatedLines`, `InsertedLine` and `RemovedLines` say, keep a list well formed as long as they supply well-formed entries, whatever labels they give and wherever they insert |
| `CrontabEdit.EditedCrontabReadsBackIff` | packages/shared/src/cron.ts:324-471 | After any history of such edits to any crontab the file written reads back as the entries that these edits left, exactly when no entry comes under an older label line and every entry that gets a new label line has a label and id that such a line can carry |
| `CrontabEdit.UneditedCrontab` | packages/shared/src/cron.ts:315-404 | An unedited crontab comes back byte for byte, with a final newline if it lacked one |
| `CrontabEdit.ClearedLabelComesBack` | packages/shared/src/cron.ts:387-396 | For any two labels and any entry there is a crontab in which clearing the entry's label gives it the older label |
| `CrontabEdit.PartedLabelIsRespelled` | packages/shared/src/cron.ts:387-461 | For any label line spelled as none is rendered, and any two entries, inserting one between the line and the other gives that one a different label |
| `HeartbeatWrap.SplitCronCommandRaw` | packages/shared/src/cron-heartbeat.ts:92-102 | The index loop splits the command where the definition does |
| `HeartbeatWrap.SplitRawParts` | packages/shared/src/cron-heartbeat.ts:88-102 | The two parts make up the command, and the second is empty or starts with a percent sign |
| `HeartbeatWrap.UnwrapIff` | packages/shared/src/cron-heartbeat.ts:155-177 | A command is recognised as wrapped around some parts exactly when it is the wrapper around them, so it can be read in one way only |
| `HeartbeatWrap.WrapUnwraps` | packages/shared/src/cron-heartbeat.ts:113-177 | Unwrapping what was wrapped gives exactly the command, the normalized address, the token and the duration flag |
| `HeartbeatWrap.WrapIsRejectedTheSecondTime` | packages/shared/src/cron-heartbeat.ts:113-124 | Wrapping a wrapped command always fails, with the already-wrapped error whenever address and token are good |
| `HeartbeatAddress.BaseIff` | packages/shared/src/cron-heartbeat.ts:34-78 | The addresses accepted are exactly a scheme, a host, possibly a port and possibly a path of the plain characters |
| `HeartbeatAddress.NormalizedIff` | packages/shared/src/cron-heartbeat.ts:70-79 | An address is normalized by trimming it and dropping the slashes at its end, and accepted exactly when that leaves one |
| `HeartbeatAddress.WrapSays` | packages/shared/src/cron-heartbeat.ts:113-134 | Exactly when a command is refused a wrapper, for the address, the token, the command, a wrapper it has already, or the length, in this order |
| `HeartbeatWrap.WrappedSplitsAtStdin` | packages/shared/src/cron-heartbeat.ts:124-131 | The first unescaped percent sign of the wrapped command starts exactly the original stdin part |
| `HeartbeatWrap.ShellRunsTheCommand` | packages/shared/src/cron-heartbeat.ts:104-106 | The word after `-c`, read by the shell's quoting rules, is the original command part, and ends where the wrapper goes on |
| `HeartbeatWrap.SplitCronCommand` | packages/shared/src/cron.ts:512-532 | The loop computes the command and the stdin that cron's percent rule gives |
| `HeartbeatWrap.WrappingPreservesIff` | packages/shared/src/cron-heartbeat.ts:92-131 | By cron's rule the wrapped job is the wrapper around what cron ran before, fed the same input, exactly when no backslash stands before the percent sign at which the wrapper split |
| `HeartbeatWrap.DoubledBackslashIsMisread` | packages/shared/src/cron-heartbeat.ts:92-102 | For every plain word and every input, wrapping `word\\%input` changes what cron runs |
| `HeartbeatWrap.ReadQuotedOfEscape` | packages/shared/src/cron-heartbeat.ts:104-173 | Quoted text is read back exactly up to the closing quote |
| `HeartbeatWrap.BaseChars` | packages/shared/src/cron-heartbeat.ts:34 | An accepted ping address holds no quote, percent sign, backslash or whitespace |
| `HeartbeatWrap.TemplateIsSound` | packages/shared/src/cron-heartbeat.ts:38-40 | The fixed text of the wrapper has the properties the results above rely on |
| `CronMonitor.MonitorCronEntry` | apps/api/src/services/heartbeat-cron.service.ts:261-361 | The answer and the file written are those of the specification, whose refusals and effects `MonitorSays` states; a line that holds no entry is refused |
| `CronMonitor.MonitorSays` | apps/api/src/services/heartbeat-cron.service.ts:270-352 | Monitoring is refused, for the first of these reasons in this order, exactly when the entry is disabled, is wrapped or linked already, has a schedule that is refused or cannot be followed, has a command that cannot be wrapped, or would be longer than 990 units; otherwise exactly that entry is wrapped, labelled and linked, and command, label and whether the label is new are stored |
| `CronMonitor.UnmonitorCronEntry` | apps/api/src/services/heartbeat-cron.service.ts:413-453 | Unmonitoring refuses an entry that is neither wrapped nor linked, and otherwise writes the file with that entry changed as `UnmonitorSays` states |
| `CronMonitor.UnmonitorSays` | apps/api/src/services/heartbeat-cron.service.ts:413-453 | Unmonitoring takes the id off the line and keeps schedule, user and state; it brings back the command that the line wraps, or the stored one if it wraps none, or leaves it alone; the label goes exactly when monitoring had inserted it and it still says the same |
| `CronMonitor.MonitorThenUnmonitor` | apps/api/src/services/heartbeat-cron.service.ts:352-453 | Monitored, written, read, unmonitored and written again, the entry has its schedule, user and command back, and every line but it and its label line is byte for byte what it was, even if it carried a copied marker: exactly for the entries whose schedule is one still as it is rendered |
| `CronMonitor.MonitoredCrontabIsRestored` | apps/api/src/services/heartbeat-cron.service.ts:261-453 | The same on file text, for every entry of every crontab: it is restored exactly when the last token of its schedule is not whitespace only, and unchanged if its schedule has no whitespace at its ends |
| `CronMonitor.InsertedLabelGoesIff` | apps/api/src/services/heartbeat-cron.service.ts:221-453 | For every name handed in and every entry without a label that can be restored at all, the file after monitoring and unmonitoring is the original but for the label line inserted, and that is gone exactly when the label chosen does not end in a space and holds no `hb=`, or nothing of it is left on the line |
| `CronMonitor.CutLabelStays` | apps/api/src/services/heartbeat-cron.service.ts:221-453 | For every entry and every name whose first word has 79 units, the crontab of that entry alone ends up with a label line for the word |
| `CronMonitorLabels.CleanKeepsIff` | apps/api/src/services/heartbeat-cron.service.ts:221-229 | A label that monitoring made is written as it is exactly when it does not end in a space and holds no `hb=` at a word start |
| `CronMonitorLabels.LabelIsNeat` | apps/api/src/services/heartbeat-cron.service.ts:221-295 | The label chosen for an entry without one is never empty, starts with no space and has single spaces only |
| `CronMonitorLabels.LabelIsChosen` | apps/api/src/services/heartbeat-cron.service.ts:230-304 | The label is the typed name, cleaned; failing that the one the entry has, the first words of its command, cleaned, or the number of its line |
| `CronMonitorLabels.CleanLabelSays` | apps/api/src/services/heartbeat-cron.service.ts:221-229 | A cleaned label has at most eighty units, no control character and only single spaces |
| `CronMonitorLabels.CleanLabelKeeps` | apps/api/src/services/heartbeat-cron.service.ts:221-229 | A name that is so already, is trimmed and holds no `hb=` is the label as it stands |
| `CronMonitorLabels.CutAtSpace` | apps/api/src/services/heartbeat-cron.service.ts:221-229 | A name whose first word has 79 units is cut to the word and the space after it |
| `SecretMasking.StreamedMasking` | apps/api/src/services/runbook-params.ts:102-148 | For every secret list and every chunking the emitted text is the one leftmost-longest masking of the whole text, and every occurrence of a secret overlaps a replaced region |
| `SecretMasking.ChunkingIsInvisible` | apps/api/src/services/runbook-params.ts:120-148 | However a text is cut into chunks, what push and flush emit together is the masking of the whole |
| `SecretMasking.MaskingIsLeftmostLongest` | apps/api/src/services/runbook-params.ts:107-132 | The regions a pass replaces start at the first position where a secret occurs and are the longest ones there |
| `SecretMasking.LeftmostLongestUnique` | apps/api/src/services/runbook-params.ts:94-118 | A text has only one leftmost-longest set of regions |
| `SecretMasking.EveryOccurrenceOverlaps` | apps/api/src/services/runbook-params.ts:79-81 | No occurrence of a secret lies outside the replaced regions |
| `SecretMasking.PassIsPrefix` | apps/api/src/services/runbook-params.ts:120-143 | What a push emits is the beginning of the masking of any continuation, and what it holds back masks to the rest |
| `SecretMasking.SecretMasker.constructor` | apps/api/src/services/runbook-params.ts:102-106 | The secrets kept are the non-empty values, once each, longest first |
| `SecretMasking.SecretMasker.NextMatch` | apps/api/src/services/runbook-params.ts:107-118 | Finds the first position where a secret occurs and the longest secret there, or that there is none |
| `SecretMasking.SecretMasker.Mask` | apps/api/src/services/runbook-params.ts:120-132 | One pass emits and consumes exactly what the position-by-position definition says |
| `SecretMasking.SecretMasker.Push` | apps/api/src/services/runbook-params.ts:134-143 | A chunk lets out, and holds back, exactly what the state machine of the specification does |
| `SecretMasking.SecretMasker.Flush` | apps/api/src/services/runbook-params.ts:144-148 | The end of the stream emits the masking of what was held back and leaves nothing |
| `Utf8Size.DecodeOfEncode` | apps/api/src/services/runbook-executor.service.ts:198-203 | Encoding a text as RFC 3629 says and decoding the bytes gives the text with every lone half of a pair replaced, and nothing else changed |
| `Utf8Size.EncodedSize` | apps/api/src/services/runbook-executor.service.ts:226-243 | The size the cap counts is the number of bytes of the encoding |
| `Utf8Size.RecodeAt` | apps/api/src/services/runbook-executor.service.ts:198-203 | Exactly the lone halves are replaced |
| `Utf8Size.TruncateIsFit` | apps/api/src/services/runbook-executor.service.ts:198-203 | Cutting the bytes and decoding them keeps the whole characters that fit, without any replacement characters at the end |
| `Utf8Size.EncodeConcatIff` | apps/api/src/services/runbook-executor.service.ts:279-286 | Encoding two texts apart gives the bytes of encoding them together exactly when the cut does not separate the halves of a pair |
| `Utf8Size.TruncateFits` | apps/api/src/services/runbook-executor.service.ts:198-204 | What is kept has at most as many bytes as there is room, and it is everything exactly when the bytes of everything fit |
| `Utf8Size.FitIsLongest` | apps/api/src/services/runbook-executor.service.ts:198-204 | No cut between characters that fits the room is longer than the one kept |
| `Utf8Size.ByteLengthConcat` | apps/api/src/services/runbook-executor.service.ts:226-243 | Counting two pieces separately differs from counting them together exactly by two bytes for a surrogate pair cut between them |
| `Utf8Size.RecodeConcatIff` | apps/api/src/services/runbook-executor.service.ts:279-286 | Storing two texts apart gives what storing them together would exactly when the cut does not separate the halves of a pair |
| `OutputPipeline.NothingLostOrDuplicated` | apps/api/src/services/runbook-executor.service.ts:206-298 | Over every interleaving of output and flushes, failing ones included, the texts appended, the in-flight and the pending text together are exactly the accepted text, all of it when it fits; the column holds the bytes of each appended text in turn, and the encodings of all three never exceed `maxBytes` bytes |
| `OutputPipeline.ColumnBytes` | apps/api/src/services/runbook-executor.service.ts:279-286 | The encoding of the column is the bytes that were sent, one text after the other |
| `OutputPipeline.ColumnHasNoNul` | apps/api/src/services/runbook-executor.service.ts:226-232 | The column never holds a NUL, which the database rejects |
| `OutputPipeline.CleanAt` | apps/api/src/services/runbook-executor.service.ts:226-232 | Exactly the NULs of a text are replaced |
| `OutputPipeline.CapIsExact` | apps/api/src/services/runbook-executor.service.ts:226-248 | A stream is truncated exactly when the bytes of its encoding plus two for each surrogate pair cut between pieces exceed the cap, otherwise keeps everything, and never keeps more bytes than the cap |
| `OutputPipeline.KeptIsPrefixIff` | apps/api/src/services/runbook-executor.service.ts:198-248 | For all pieces, whatever halves of characters they carry, the kept text is the stream unit by unit up to replaced halves, and is a prefix of it exactly when nothing was cut or the part kept of the piece that was cut holds no lone half |
| `OutputPipeline.KeptIsPrefix` | apps/api/src/services/runbook-executor.service.ts:226-248 | When no piece carries half a character the kept text is a prefix of the whole, and all of it exactly when it fits |
| `OutputPipeline.MaskedPairIsOvercounted` | apps/api/src/services/runbook-executor.service.ts:215-243 | For every cap and every list of secrets whose longest has two units or more, a text of exactly that many bytes with one wide character, in which no secret occurs, is truncated |
| `OutputPipeline.CutHalfIsReplaced` | apps/api/src/services/runbook-executor.service.ts:198-243 | For every cap from seven on and every such list, a text whose kept part is no prefix of the masked stream |
| `OutputPipeline.FinalFlushStoresAll` | apps/api/src/services/runbook-executor.service.ts:272-298 | After the last successful flush nothing is pending, the texts appended make up the accepted text, the column holds them as UTF-8 within `maxBytes` bytes, and the truncation flag is right |
| `OutputPipeline.AppendedApartIff` | apps/api/src/services/runbook-executor.service.ts:279-286 | Appending texts one by one stores what appending them at once would, exactly when no flush takes text ending in a high half whose low half comes later |
| `OutputPipeline.ColumnIsTextIff` | apps/api/src/services/runbook-executor.service.ts:279-286 | The column is the text appended exactly when that text holds no lone half and no flush cuts a pair |
| `OutputPipeline.StoredOutputIsMasked` | apps/api/src/services/runbook-executor.service.ts:206-298 | Untruncated, the stored column is the leftmost-longest masking of everything the host printed, followed by the program's notes, exactly when that holds no lone half and no flush cut a pair; in general it is a prefix of it exactly when, besides, the cut replaced no half and the kept text holds none; it is truncated exactly when its bytes and two for each pair cut between pieces exceed the cap, and never holds more than `maxBytes` bytes |
| `OutputPipeline.WholeOutputIsStored` | apps/api/src/services/runbook-executor.service.ts:206-298 | When no piece carries half a character the column is a prefix of what was offered, however the flushes fall, and all of it exactly when it fits |
| `OutputPipeline.PiecesAreTheStream` | apps/api/src/services/runbook-executor.service.ts:215-222 | The pieces offered to a buffer make up the masked stream |
| `OutputPipeline.StreamBuffer.Push` | apps/api/src/services/runbook-executor.service.ts:215-217 | A chunk goes through the masker, and what comes out is accepted under the cap |
| `OutputPipeline.StreamBuffer.Note` | apps/api/src/services/runbook-executor.service.ts:223-226 | A note is accepted after everything the masker held back |
| `OutputPipeline.StreamBuffer.AcceptText` | apps/api/src/services/runbook-executor.service.ts:226-243 | Accepting text appends, counts and truncates as the specification's buffer does |
| `OutputPipeline.StreamBuffer.Take` | apps/api/src/services/runbook-executor.service.ts:244-248 | Taking a buffer returns its pending text and leaves it empty with its counters untouched |
| `OutputPipeline.HostOutput.FlushBegin` | apps/api/src/services/runbook-executor.service.ts:272-283 | A flush takes both buffers and the flags not yet stored, and does nothing when there is nothing to store |
| `OutputPipeline.HostOutput.FlushCommitted` | apps/api/src/services/runbook-executor.service.ts:284-291 | A committed flush appends the taken text once, as UTF-8, and remembers the flags it stored |
| `OutputPipeline.HostOutput.FlushRejected` | apps/api/src/services/runbook-executor.service.ts:291-296 | A failed flush puts the taken text back in front of what came since |
| `OutputPipeline.FailedFlushIsUndone` | apps/api/src/services/runbook-executor.service.ts:272-298 | A flush that fails leaves both streams as if it had not begun, whatever arrived meanwhile |
| `RemoteStreams.MarkerIsStripped` | apps/api/src/services/remote-exec.service.ts:214-248 | Whatever the chunking, a leading marker is removed and reported, and nothing else is changed |
| `RemoteStreams.FilterState` | apps/api/src/services/remote-exec.service.ts:223-241 | Where the filter stands after some chunks depends only on their concatenation |
| `RemoteStreams.LeadingMarker.Push` | apps/api/src/services/remote-exec.service.ts:223-241 | A chunk moves the object as the specification's filter moves |
| `RemoteStreams.LeadingMarker.Flush` | apps/api/src/services/remote-exec.service.ts:243-247 | The end of the stream lets out what was held back |
| `RemoteStreams.CapKeepsPrefix` | apps/api/src/services/remote-exec.service.ts:164-187 | Whatever the chunking, exactly the first `maxBytes` bytes are kept, and truncation is reported exactly when there were more |
| `RemoteStreams.OutputCollector.Push` | apps/api/src/services/remote-exec.service.ts:175-187 | A chunk is kept, cut or dropped as the specification's collector does |
| `RunbookProtocol.AtMostOnce` | apps/api/src/services/runbook-executor.service.ts:307-827 | Over every interleaving of all replicas, failing statements and the handler that then fails the whole run while tasks go on included, a run becomes active at most once and leaves at most once, its end is announced at most once, and no host is started twice |
| `RunbookProtocol.EndedForGood` | apps/api/src/services/runbook-executor.service.ts:448-827 | In every continuation of every run of the system an ended run keeps its status, host rows only move from pending to running to a terminal status, and once all are terminal nothing more is started |
| `RunbookProtocol.EndedByItsExecutor` | apps/api/src/services/runbook-executor.service.ts:551-827 | When its executor ended a run, through its hosts or through `failWholeRun` with tasks still at work, every host row is terminal and the stored summary is that of the rows; `failWholeRun` leaves it failed; and when through its hosts, each final status holds exactly when rows, failure limit, cancel and shutdown call for it, and failed and timed-out hosts number at most max(1, M) - 1 + c |
| `RunbookOutcomes.StatusFollowsRowsAndHistory` | apps/api/src/services/runbook-executor.service.ts:551-586 | For every history: a run that its executor ended through its hosts is cancelled exactly when the executor saw a request to cancel and heard of no shutdown; if neither, it has succeeded exactly when there are hosts and all succeeded, failed exactly when none did or too many failed, partially failed exactly when some did and some did not and not too many failed; and after a shutdown it has failed |
| `RunbookOutcomes.AskedIff` | apps/api/src/modules/runbooks/runbook.service.ts:808-818 | A request to cancel is stored exactly when somebody made one while the run was active |
| `RunbookOutcomes.NoHostIsForgotten` | apps/api/src/services/runbook-executor.service.ts:448-539 | When the executor was through its hosts and no route dropped any, a host that was not started was cancelled by a shutdown or a cancel, or skipped because too many had failed, and the row of every other one says how its one script ended |
| `RunbookOutcomes.NoStartOnceHalted` | apps/api/src/services/runbook-executor.service.ts:448-456 | Once a call has seen a cancel, a shutdown, the loss of its run or too many failures, no host still waiting is started in any continuation |
| `RunbookOutcomes.TurnSays` | apps/api/src/services/runbook-executor.service.ts:441-462 | A waiting host whose turn comes, within the concurrency, is cancelled after a cancel, a shutdown or a loss, skipped after too many failures, and started otherwise |
| `RunbookOutcomes.LoadSays` | apps/api/src/services/runbook-executor.service.ts:370-393 | A call that finds the run is not its own leaves everything alone, one that cannot read its parameters goes on to fail the run, and any other queues exactly the pending hosts |
| `RunbookProtocol.TimesIsCount` | apps/api/src/services/runbook-executor.service.ts:350-361 | The number of rows of a status is the number of places where it stands |
| `RunbookProtocol.CrashFailsTheRun` | apps/api/src/services/runbook-executor.service.ts:688-827 | There is an interleaving in which a script succeeded, the statement storing that failed, and the handler failed the run, its row included |
| `RunbookOutcomes.FailuresNeverExceedTheLimit` | apps/api/src/services/runbook-executor.service.ts:441-539 | At every moment, also after a statement failed, the failures an executor has counted are those of its tasks, and at most max(1, M) - 1 + c |
| `RunbookOutcomes.ConcurrencyIsKept` | apps/api/src/services/runbook-executor.service.ts:441-531 | At no moment are more hosts worked on than the concurrency of the run allows, one at least |
| `RunbookOutcomes.UnapprovedNeverRuns` | apps/api/src/modules/runbooks/runbook.service.ts:735-769 | Nothing of a run that nobody approves is ever started |
| `RunbookOutcomes.RoutesSay` | apps/api/src/modules/runbooks/runbook.service.ts:735-818 | Approving queues exactly a run that waits, rejecting and expiring end exactly such a one, cancelling also a queued one, and they change nothing else |
| `RunbookOutcomes.RejectedNeverRan` | apps/api/src/modules/runbooks/runbook.service.ts:771-779 | A run that was rejected or has expired never ran |
| `RunbookProgress.RunCanFinish` | apps/api/src/services/runbook-executor.service.ts:366-586 | From every reachable state in which a call owns its run and is still at it, steps of that call alone bring the run to an announced end, through its hosts, or by failing it if that is what the call is doing |
| `RunbookProgress.UndecodableRunFails` | apps/api/src/services/runbook-executor.service.ts:388-393 | A call that cannot read its parameters goes on to fail the run and starts nothing |
| `RunbookProgress.FaultsAreHandledOnce` | apps/api/src/services/runbook-executor.service.ts:819-828 | A failed statement of the call has the handler fail the run, a second one ends the call |
| `RunbookProgress.ThrowFreesSlot` | apps/api/src/services/runbook-executor.service.ts:532-548 | A failed statement of a task frees its slot, leaves the other tasks alone, and has the handler fail the run |
| `RunbookProgress.BeatingRunIsNotReaped` | apps/api/src/services/runbook-executor.service.ts:427-437 | A reaper leaves a run alone whose owner wrote a heartbeat at or after its cutoff |
| `RunbookProgress.BeatSays` | apps/api/src/services/runbook-executor.service.ts:427-437 | A heartbeat of the owner stores its moment and nothing else, one of another call tells that call the run is lost |
| `RunbookProgress.LostCallGivesUp` | apps/api/src/services/runbook-executor.service.ts:411-551 | A call that has learnt that its run is lost ends without deciding anything |
| `RunbookProgress.DecisionNeedsTheRun` | apps/api/src/services/runbook-executor.service.ts:581-586 | A call that finds at the end that its run is no longer its own changes nothing and announces nothing |
| `RunbookProgress.GoneIsGone` | apps/api/src/services/runbook-executor.service.ts:405-439 | A process that is gone changes nothing more |
| `RunbookProgress.ReapedInOneGo` | apps/api/src/services/runbook-executor.service.ts:714-787 | A reaper or a shutdown that nobody interferes with leaves the run failed, its running hosts failed, its pending ones skipped, every other row as it was, and the summary of these rows; only a reaper announces it |
| `RunbookProtocol.RunKeepsInv` | apps/api/src/services/runbook-executor.service.ts:307-827 | Every reachable state satisfies the protocol's invariants: running rows have their task at work or lost it to a failed statement, settled tasks have terminal rows, slots and failures are within bounds, and a closer's summary is that of rows it saw |
| `RunbookProtocol.ReapedSummaryHoldsIff` | apps/api/src/services/runbook-executor.service.ts:714-787 | In every reachable world the summary a reaper or a shutdown stored is that of the rows it read, and it is that of the rows now exactly when every host started between its two updates of the rows, and still running when it read them, runs still or has failed |
| `RunbookProtocol.ReapedSummaryMayBeWrong` | apps/api/src/services/runbook-executor.service.ts:455-769 | There is an interleaving after which the only host succeeded and the reaper's summary says it failed |
| `RunbookProtocol.CountsAddUp` | apps/api/src/services/runbook-executor.service.ts:350-361 | The five counts of a summary add up to the number of hosts, whatever the rows say |
| `RunbookProtocol.Summarize` | apps/api/src/services/runbook-executor.service.ts:350-361 | The loop counts each status, and everything that is none of the other four as failed |
| `RunbookProtocol.RowsBounded` | apps/api/src/services/runbook-executor.service.ts:441-539 | Failed host rows number at most the failures counted plus the tasks under way |
| `RunbookProtocol.RunTable.ClaimRun` | apps/api/src/services/runbook-executor.service.ts:314-320 | A claim succeeds exactly on a queued run and sets its owner and heartbeat; otherwise nothing changes |
| `RunbookProtocol.RunTable.SettleHost` | apps/api/src/services/runbook-executor.service.ts:444-446 | One host row changes exactly when its status is among those asked for |
| `RunbookProtocol.RunTable.RetireHosts` | apps/api/src/services/runbook-executor.service.ts:688-693 | Every host row with one of the given statuses gets the new one, and no other row changes |
| `RunbookProtocol.RunTable.MarkHostsLost` | apps/api/src/services/runbook-executor.service.ts:759-768 | Running rows become failed and pending rows skipped |
| `RunbookProtocol.RunTable.FinalizeRun` | apps/api/src/services/runbook-executor.service.ts:551-586 | The run gets the summary of the rows and the status that `RunbookOutcomes.StatusFollowsRowsAndHistory` describes, if it is still this holder's, and is left alone otherwise |
| `RunbookProtocol.PoolState.CountOutcome` | apps/api/src/services/runbook-executor.service.ts:526-529 | Counting an outcome raises the failures and sets the stop flag as the protocol's step does |
| `JobLock.NoTwoUnexpired` | apps/api/src/services/job-lock.service.ts:62-125 | Over every interleaving with stale clocks two sessions never both hold an unexpired lease, and the row names the one that does |
| `JobLock.OverlapOnlyAfterDeadline` | apps/api/src/services/job-lock.service.ts:159-201 | Two bodies run at once only after one was taken over at or past the deadline the row gave it |
| `JobLock.AcquisitionsTtlApart` | apps/api/src/services/job-lock.service.ts:159-201 | The next acquisition comes no earlier than the last matching renewal or release allows, and at least the TTL after this one if that does not fall short of it |
| `JobLock.LeaseKeepsTtlIff` | apps/api/src/services/job-lock.service.ts:102-201 | Over all runs, also with several calls of one process at once, a lease ends where the acquisition or the last matching renewal or release put it; so a session has its whole TTL exactly when that is no renewal from before its acquisition and no earlier release |
| `JobLock.ShortLeaseIsTaken` | apps/api/src/services/job-lock.service.ts:62-125 | In every run in which that falls short of the TTL, any process can take the row over before the TTL has passed |
| `JobLock.OwnDeadlineEndsLease` | apps/api/src/services/job-lock.service.ts:102-201 | When no renewal or release touches another session's lease, a lease ends only by the deadline the session itself wrote, and acquisitions with `holdUntilExpiry` are always the TTL apart |
| `JobLock.OneCallReleasesOwn` | apps/api/src/services/job-lock.service.ts:119-201 | Where no process calls again before its call has ended, every matching release is that of the row's owner, and none cuts a session short that holds until expiry |
| `JobLock.EarlierCallEndsLease` | apps/api/src/services/job-lock.service.ts:119-201 | In every run in which an earlier call of the owner's process, one that does not hold until expiry, still runs, its end is the end of the owner's lease |
| `JobLock.SecondCallOfOneProcess` | apps/api/src/services/job-lock.service.ts:62-201 | A trace in which a process calls again after its lease expired under a running body, and wins |
| `JobLock.LateRenewalCutsTtl` | apps/api/src/services/job-lock.service.ts:102-125 | A trace in which a late renewal of an earlier session halves a held lease and a third session takes over |
| `JobLock.SchedulerLockTable.UpdateExpired` | apps/api/src/services/job-lock.service.ts:62-70 | The conditional update takes the row exactly when its lease has expired, and touches no other lock |
| `JobLock.SchedulerLockTable.Create` | apps/api/src/services/job-lock.service.ts:81-93 | The insert succeeds exactly when there is no row of that name |
| `JobLock.SchedulerLockTable.Renew` | apps/api/src/services/job-lock.service.ts:102-109 | A renewal succeeds exactly for the holder of an unexpired lease and touches no other lock |
| `JobLock.SchedulerLockTable.Release` | apps/api/src/services/job-lock.service.ts:119-125 | A release expires this holder's row and touches no other lock |
| `JobLock.RenewedOrTaken` | apps/api/src/services/job-lock.service.ts:62-125 | At every moment a lease can be renewed by its holder or taken by anybody, never both, and a released one can be taken at once |
| `HeartbeatSchedule.ExpectedIsNextOrAfter` | apps/api/src/services/heartbeat-schedule.ts:89-105 | The expected run is the next run or the one after it, the next exactly when the ping is earlier than it by more than the tolerance |
| `HeartbeatSchedule.WaitsForNextIff` | apps/api/src/services/heartbeat-schedule.ts:85-105 | A completion waits for the next run exactly when it is earlier than that by more than a minute, widened by a shift of the zone, or half the gap to the run after, whichever is less |
| `HeartbeatSchedule.FastClockIsForgiven` | apps/api/src/services/heartbeat-schedule.ts:20-105 | With runs two minutes apart or more, a ping at most a minute before its run never waits for that same run |
| `HeartbeatSchedule.StuckLibraryIsPassed` | apps/api/src/services/heartbeat-schedule.ts:100-102 | Where the library hands an instant back for itself, the run after is still found |
| `HeartbeatSchedule.ExpectedIsMonotone` | apps/api/src/services/heartbeat-schedule.ts:96-105 | A later ping never waits for an earlier run |
| `HeartbeatSchedule.AfterPingNotDue` | apps/api/src/services/heartbeat-schedule.ts:112-120 | A completion ping never sets a deadline that is already due |
| `HeartbeatSchedule.EditNeverDue` | apps/api/src/services/heartbeat-schedule.ts:167-174 | An edit never sets a deadline that is already due |
| `HeartbeatSchedule.EarlyStartNeverPostpones` | apps/api/src/services/heartbeat-schedule.ts:132-146 | A start ping keeps the expected run, and before that run it never moves an alert later |
| `HeartbeatSchedule.StartSetsAlert` | apps/api/src/services/heartbeat-schedule.ts:132-146 | Within a minute of the expected run, or when nothing is expected, the alert is the longest run, or the grace, after the start; before that it is that or the present alert, whichever comes first |
| `HeartbeatSchedule.PingSetsDeadlines` | apps/api/src/services/heartbeat-schedule.ts:112-120 | A completion expects the next one after the period, or at the run waited for, and alerts the grace after it |
| `HeartbeatSchedule.InitialDeadlines` | apps/api/src/services/heartbeat-schedule.ts:152-162 | Only an armed heartbeat expects anything before its first ping: its first period or run |
| `HeartbeatSchedule.EditedDeadlines` | apps/api/src/services/heartbeat-schedule.ts:167-174 | After an edit the deadlines are those of the last completion if both are still to come, and otherwise those of a completion now |
| `HeartbeatMonitor.IncidentMatchesStatus` | apps/api/src/services/heartbeat.service.ts:296-388 | Over every interleaving of pings and sweeps an incident is open exactly when the row is down, or late and announced; each entry into down is one fail alert, and each recovery closes an open incident |
| `HeartbeatMonitor.NoEarlyDown` | apps/api/src/services/heartbeat.service.ts:308-370 | A sweep that marks a row down judged the deadline the row has now and had reached it |
| `HeartbeatMonitor.MovedRowIsLeftAlone` | apps/api/src/services/heartbeat.service.ts:350-370 | A row whose status or deadline changed since the sweep read it is not touched and raises no alert |
| `HeartbeatMonitor.OneTransitionPerSweep` | apps/api/src/services/heartbeat.service.ts:308-360 | The two reads of a sweep propose both transitions for a row only if its alert deadline moved in between, and then at most one is applied; a row in one state gets at most one proposal, straight to down when that deadline has passed too |
| `HeartbeatMonitor.Heartbeat.RecordPing` | apps/api/src/services/heartbeat-ping.service.ts:50-130 | A check-in changes the row, raises the alerts and yields the duration as `LogLineSays`, `StartSays`, `CompletionRecords`, `SuccessSays` and `FailSays` describe field by field |
| `HeartbeatMonitor.CheckedInIsLeftAlone` | apps/api/src/services/heartbeat-ping.service.ts:85-100 | After a success at t on a heartbeat not paused by hand, and until anything but sweeps and log lines happens, both deadlines stay those of t: t plus the period, or the run expected next, and the grace after it; no sweep whose moment has not reached the second marks it down, and none that has not reached the first marks it late |
| `HeartbeatMonitor.StartedIsLeftAlone` | apps/api/src/services/heartbeat-ping.service.ts:66-73 | After a start no sweep marks the heartbeat down before the alert that the start set |
| `HeartbeatMonitor.OverdueIsMarkedDown` | apps/api/src/services/heartbeat.service.ts:308-370 | A sweep at or after the alert deadline marks the heartbeat down, with one alert for a run not completed, no sign of life ever, or a missed run |
| `HeartbeatMonitor.OverdueIsMarkedLate` | apps/api/src/services/heartbeat.service.ts:308-370 | A sweep between the two deadlines marks it late, and says so if asked to |
| `HeartbeatMonitor.LogLineSays` | apps/api/src/services/heartbeat-ping.service.ts:56-130 | A log line changes nothing but the time of the last ping |
| `HeartbeatMonitor.StartSays` | apps/api/src/services/heartbeat-ping.service.ts:56-73 | A start is recorded, resumes what pings resume, leaves any other status alone, and sets the deadlines of its run |
| `HeartbeatMonitor.CompletionRecords` | apps/api/src/services/heartbeat-ping.service.ts:74-92 | A completion records its time and exit code, and how long the run took if one was seen to start; one paused by hand stays as it is |
| `HeartbeatMonitor.SuccessSays` | apps/api/src/services/heartbeat-ping.service.ts:91-100 | A success brings the heartbeat up, sets both deadlines, and announces a recovery exactly when down, or late and announced |
| `HeartbeatMonitor.FailSays` | apps/api/src/services/heartbeat-ping.service.ts:91-112 | A failure brings it down, sets both deadlines, and is announced, with its kind, unless it was down |
| `HeartbeatMonitor.Heartbeat.ApplySweepTransition` | apps/api/src/services/heartbeat.service.ts:350-370 | A transition is applied exactly when the row is still as the sweep saw it, and only then alerts |
| `HeartbeatMonitor.PingFits` | apps/api/src/services/heartbeat-ping.service.ts:60-130 | A ping keeps incident, status and alert log in step |
| `HeartbeatMonitor.SweepFits` | apps/api/src/services/heartbeat.service.ts:350-370 | A sweep step keeps incident, status and alert log in step |
| `AccessGrants.SingleClaimant` | apps/api/src/services/access-grant.service.ts:726-934 | Given that calls end within the stale-claim time of their claim, at most one call works on a grant's host access, and the row shows its claim |
| `AccessGrants.ClaimIsFresh` | apps/api/src/services/access-grant-sweeper.ts:60-75 | While a call works, the sweeper never takes its claim for stale |
| `AccessGrants.NothingAllowedMeanwhile` | apps/api/src/services/access-grant.service.ts:505-514 | While a call works on a grant's host access nobody, whatever their role, may extend or revoke it |
| `AccessGrants.PermissionsByRole` | apps/api/src/services/access-grant.service.ts:505-514 | For every role and every row: who may extend and who may revoke, and when |
| `AccessGrants.PermittedMayClaim` | apps/api/src/services/access-grant.service.ts:505-514 | What is permitted is what a call then started can claim |
| `AccessGrants.OutcomeSays` | apps/api/src/services/access-grant.service.ts:735-897 | What each outcome of a call does to the row: a successful extension sets the expiry and clears the attempts, a failed one gives the claim back, a successful revocation ends the grant, a failed one counts an attempt and fails the row at the fifth |
| `AccessGrants.OnlyExtensionsMoveExpiry` | apps/api/src/services/access-grant.service.ts:735-764 | Nothing but a successful extension moves the expiry |
| `AccessGrants.LateIff` | apps/api/src/services/access-grant.service.ts:847-874 | A claim counts as late exactly when a revocation made it more than a quarter of an hour after it had read the row |
| `AccessGrants.RevokedIsAbsorbing` | apps/api/src/services/access-grant.service.ts:847-934 | No step changes the row of a revoked grant |
| `AccessGrants.AlertsAreBounded` | apps/api/src/services/access-grant.service.ts:880-934 | Failed means the attempts are used up, which means that somebody has been alerted at some time; without that no alert is open; at most one is raised per extension unless a revocation claimed late; and a resolve comes at most once and only after an alert |
| `AccessGrants.ExhaustionIsAnnounced` | apps/api/src/services/access-grant.service.ts:862-890 | Unless a revocation claimed late, running out of attempts raises exactly one alert if the call that used them up had read them as not used up, and none otherwise, which takes an extension |
| `AccessGrants.ExhaustionAlertsIff` | apps/api/src/services/access-grant.service.ts:862-890 | In every reachable world the call about to record a failure that uses up the attempts alerts exactly when its reading was not failed and below the maximum; if the row was below the maximum, a reading at it is from before the last extension |
| `AccessGrants.AlertsSinceExhaustion` | apps/api/src/services/access-grant.service.ts:862-890 | Over all runs the alerts since the last extension are one if the call that used up the attempts had read them as not used up, and one for each later failure of a call that claimed late |
| `AccessGrants.ExhaustionIsSilentIff` | apps/api/src/services/access-grant.service.ts:862-890 | Over all runs the attempts are used up and nobody has been alerted since the last extension exactly when the call that used them up had read them as used up before that extension, and no late call has failed since |
| `AccessGrants.IncidentOutlivesGrantIff` | apps/api/src/services/access-grant.service.ts:862-934 | Over all runs a revoked grant leaves an announced failure unresolved exactly when the call that revoked it had read the attempts as not used up; with a reading from after the last extension and no late claim, exactly when they are not used up, and then the last alert came before that extension |
| `AccessGrants.ExtensionLeavesIncident` | apps/api/src/services/access-grant.service.ts:741-934 | A trace in which a failure is announced, the grant is extended and then revoked, and the incident stays open |
| `AccessGrants.OldReadingSilencesExhaustion` | apps/api/src/services/access-grant.service.ts:847-934 | A trace in which a call with such a reading exhausts the attempts and nobody is alerted |
| `AccessGrants.LateClaimAlertsTwice` | apps/api/src/services/access-grant.service.ts:847-890 | A trace in which a call claims late, fails, and alerts a second time |
| `AccessGrants.RetryDueWhere` | apps/api/src/services/access-grant-sweeper.ts:43-55 | The clause selects exactly the rows whose own retry delay has passed, and every row never tried |
| `AccessGrants.RetryDelays` | apps/api/src/services/access-grant-sweeper.ts:30-36 | No wait before the first attempt; then one, two, four and eight minutes, and a quarter of an hour from the fifth on |
| `AccessGrants.DelayCapped` | apps/api/src/services/access-grant-sweeper.ts:32-34 | From five attempts on the delay is the maximum |
| `AccessGrants.CapIsReached` | apps/api/src/services/access-grant-sweeper.ts:43-50 | Once the delay has reached the maximum it stays there, so the loop may stop |
| `AccessGrants.HostExpiryIsBackstop` | apps/api/src/services/access-grant.service.ts:151-168 | The host's own expiry never comes before the grant's, and at most a day after it for an account and less than a minute for a key |
| `AccessGrants.AccessGrant.ClaimForRevoke` | apps/api/src/services/access-grant.service.ts:847-858 | A revocation claims the row exactly when its status is still the one read |
| `AccessGrants.AccessGrant.ClaimForExtend` | apps/api/src/services/access-grant.service.ts:741-745 | An extension claims the row exactly when it is active and not expired |
| `AccessGrants.AccessGrant.ReleaseStale` | apps/api/src/services/access-grant-sweeper.ts:61-65 | The sweeper releases a claim exactly when it is older than the stale-claim time |
| `AccessGrants.AccessGrant.RecordFailure` | apps/api/src/services/access-grant.service.ts:866-874 | A failed revocation stores the attempts, and the row fails exactly when they reach the maximum |
| `AccessGrants.AccessGrant.RecordRevoked` | apps/api/src/services/access-grant.service.ts:892-897 | A successful revocation ends the grant and keeps its attempts |
| `AccessGrants.AccessGrant.RecordExtended` | apps/api/src/services/access-grant.service.ts:760-764 | A successful extension reactivates the row with the new expiry and no attempts |
| `AccessGrants.AccessGrant.RestoreActive` | apps/api/src/services/access-grant.service.ts:755-758 | A failed extension gives the claim back and changes neither expiry nor attempts |
| `DriftDiff.DiffUsers` | apps/api/src/services/drift-diff.ts:184-219 | Each account on one side only and each account whose fields differ is reported exactly once, with both values and the severity that `UserIsRated` states on the two lists |
| `DriftDiff.DiffStringSet` | apps/api/src/services/drift-diff.ts:249-261 | Each rule or unit on one side only is reported exactly once, with the severity of its category |
| `DriftDiff.DiffCrontabs` | apps/api/src/services/drift-diff.ts:270-284 | Each crontab on one side only and each whose hash differs is reported exactly once |
| `DriftDiff.PatchIsCurrent` | apps/api/src/services/drift-diff.ts:184-284 | Patching the baseline with the full change set gives exactly the current content |
| `DriftDiff.NoChangeIffEqual` | apps/api/src/services/drift-diff.ts:455 | Nothing is reported exactly when the contents are equal |
| `DriftDiff.SortedOrderIsUnique` | apps/api/src/services/drift-diff.ts:373-377 | Items with distinct keys have one order by severity and key, whatever order they were found in |
| `DriftDiff.SortItemsSorts` | apps/api/src/services/drift-diff.ts:373-377 | Sorting yields that order and the same items |
| `DriftDiff.FingerprintIdentifiesContent` | apps/api/src/services/drift-diff.ts:455-464 | Against one baseline two scans have the same fingerprint exactly when their content is the same |
| `DriftDiff.TruncateKeepsCountAndSeverity` | apps/api/src/services/drift-diff.ts:397-407 | Truncating sorted lists keeps the total count and the maximum severity |
| `DriftDiff.ChangesSeverity` | apps/api/src/services/drift-diff.ts:89-97 | The loop finds the most serious severity, or info when there is no item |
| `DriftSnapshots.DiffSnapshots` | apps/api/src/services/drift-diff.ts:409-468 | A category is skipped exactly when one side could not collect it, reported exactly when both did and what can be compared differs, which `DriftReports` states on the snapshots themselves, and then with the right severity, count and fingerprint |
| `DriftSnapshots.DiffGroups` | apps/api/src/services/drift-diff.ts:221-247 | Each member on one side only, of a group both sides know about, is reported exactly once, a new one as critical |
| `DriftSnapshots.GroupsDifferIff` | apps/api/src/services/drift-diff.ts:221-247 | Group members differ exactly when somebody is a member on one side only of a group that neither side leaves unknown |
| `DriftSnapshots.DiffPorts` | apps/api/src/services/drift-diff.ts:286-304 | Each port on one side only, and each that both sides saw served by different processes, is reported exactly once |
| `DriftSnapshots.PortsDifferIff` | apps/api/src/services/drift-diff.ts:286-304 | Ports differ exactly when their addresses do or some port is known to be served by another process |
| `DriftSnapshots.DiffAuthorizedKeys` | apps/api/src/services/drift-diff.ts:310-342 | Each key on one side only is reported exactly once, a new one as critical exactly when its user may become root |
| `DriftSnapshots.KeysDifferIff` | apps/api/src/services/drift-diff.ts:310-342 | Authorized keys differ exactly when some user holds some fingerprint on one side only |
| `DriftReports.UsersDifferIff` | apps/api/src/services/drift-diff.ts:178-219 | Users differ exactly when somebody is an account, by the last entry of the name, on one side and not with that uid, gid, home and shell on the other |
| `DriftReports.UserIsRated` | apps/api/src/services/drift-diff.ts:184-219 | A reported account carries what each side says of it; it is critical exactly when it has uid 0 now and had not before, and information exactly when it is gone |
| `DriftReports.SudoersDifferIff` | apps/api/src/services/drift-diff.ts:249-261 | Sudoers rules differ exactly when a rule is on one side only |
| `DriftReports.UnitsDifferIff` | apps/api/src/services/drift-diff.ts:249-261 | Units differ exactly when a unit is on one side only |
| `DriftReports.StringIsRated` | apps/api/src/services/drift-diff.ts:428-443 | A new sudoers rule is critical, and everything else about rules and units information |
| `DriftReports.CrontabsDifferIff` | apps/api/src/services/drift-diff.ts:270-284 | Crontabs differ exactly when the maps of their hashes do |
| `DriftReports.CrontabIsRated` | apps/api/src/services/drift-diff.ts:270-284 | A new or changed crontab is a warning and carries both hashes, a missing one information |
| `DriftReports.MembersDifferIff` | apps/api/src/services/drift-diff.ts:221-247 | Groups differ exactly when somebody is in a group on one side only and each side lists the group, always would, or could read the rules that name it |
| `DriftReports.MemberIsRated` | apps/api/src/services/drift-diff.ts:221-247 | A new member is critical, a missing one information |
| `DriftReports.ListenersDifferIff` | apps/api/src/services/drift-diff.ts:286-304 | Ports differ exactly when something listens on an address on one side only, or an address is known on both sides to be served by different processes |
| `DriftReports.PortIsRated` | apps/api/src/services/drift-diff.ts:286-304 | A port that is new or served otherwise is a warning, a closed one information |
| `DriftReports.HoldersDifferIff` | apps/api/src/services/drift-diff.ts:310-342 | Keys differ exactly when a user holds a key of some fingerprint on one side only |
| `DriftReports.KeyIsRated` | apps/api/src/services/drift-diff.ts:310-342 | A new key is critical when its user may become root and a warning otherwise, a missing one information |
| `DriftReports.MayBecomeRootIff` | apps/api/src/services/drift-diff.ts:152-165 | By the newest data there is, root, accounts of uid 0, members of listed groups and users that a rule names may become root, and everybody if a rule is for everybody |
| `DriftReports.EveryDifferenceIsReported` | apps/api/src/services/drift-diff.ts:184-342 | What the two sides do not have alike is reported by exactly one item, in the list that says how |
| `DriftReports.MostSerious` | apps/api/src/services/drift-diff.ts:89-97 | A category is critical exactly when an item is, and information exactly when all are |
| `DriftReports.SortedMeans` | apps/api/src/services/drift-diff.ts:373-377 | In a sorted list no item stands above a more serious one, and items alike in that stand in the order of their keys |
| `DriftReports.LessMeans` | apps/api/src/services/drift-diff.ts:373-377 | One key comes before another exactly when they agree up to a place where it ends or has the smaller unit |
| `DriftReports.StoredLists` | apps/api/src/services/drift-diff.ts:397-407 | Of each list its first 200 items are stored |
| `DriftHistory.DriftIsReported` | apps/api/src/services/drift.service.ts:252-420 | In every history whose last acceptance was of a snapshot from which the latest scan departed only in ways already reported, each category in which the latest scan departs from the baseline was reported with that very change since the baseline |
| `DriftHistory.ReportShowsTheDrift` | apps/api/src/services/drift.service.ts:270-292 | That report, applied to the baseline, gives exactly what the latest scan found |
| `DriftHistory.RunKeepsInv` | apps/api/src/services/drift.service.ts:235-472 | Every history has exactly one baseline once it has a snapshot, at most `keep` snapshots, and an incident that is open exactly when some event is not acknowledged |
| `DriftHistory.AcceptingTheLatestCovers` | apps/api/src/services/drift.service.ts:383-386 | Accepting without pinning always accepts a snapshot that does not differ from the latest, so nothing is left unreported |
| `DriftHistory.UnpinnedHidesNothing` | apps/api/src/services/drift.service.ts:374-393 | In every history in which no acceptance is pinned everything is reported |
| `DriftHistory.AcceptKeepsReported` | apps/api/src/services/drift.service.ts:374-420 | Accepting a snapshot that does not differ from the latest keeps everything reported |
| `DriftHistory.PinningHidesDriftIff` | apps/api/src/services/drift.service.ts:275-393 | Whatever snapshot is accepted, drift stays unreported exactly when the latest scan differs from it in a way not reported since it; where nothing was recorded after it, exactly when the latest scan differs from it |
| `DriftHistory.PinningMayHideDrift` | apps/api/src/services/drift.service.ts:275-393 | A host that changed and changed back: accepting the snapshot in between leaves drift that nobody is told about |
| `DriftHistory.HiddenDriftStaysHidden` | apps/api/src/services/drift.service.ts:275-281 | Scanning the unchanged host again does not report such drift |
| `DriftHistory.UnchangedHostIsSilent` | apps/api/src/services/drift.service.ts:275-281 | A scan that finds the host as the last one left it records nothing and alerts nobody |
| `DriftHistory.ResolveFollowsTrigger` | apps/api/src/services/drift.service.ts:340-472 | A resolve is only ever raised over an open incident |
| `DriftHistory.KeepNewestCount` | apps/api/src/services/drift.service.ts:235-245 | Pruning leaves at most `n` rows beside the baseline, and drops no baseline |
| `DriftHistory.DroppedIsOld` | apps/api/src/services/drift.service.ts:235-245 | A dropped row is not the baseline, and at least `n` newer ones beside the baseline stay |
| `DriftHistory.NewEvents` | apps/api/src/services/drift.service.ts:271-293 | The loop records an event for exactly the categories that differ and were not reported alike by the previous scan against this baseline |
| `DriftHistory.ServerDrift.TakeSnapshot` | apps/api/src/services/drift.service.ts:252-300 | A scan changes snapshots, events and alerts as the specification's transaction does |
| `DriftHistory.ScanSays` | apps/api/src/services/drift.service.ts:252-300 | A scan adds one event for exactly the categories in which it departs from the baseline and the scan before, unless older than the baseline, did not depart in just that way; it alerts exactly when it adds any, and is kept |
| `DriftHistory.FirstScanSays` | apps/api/src/services/drift.service.ts:252-300 | The first scan becomes the baseline and reports nothing |
| `DriftHistory.ServerDrift.AcceptBaseline` | apps/api/src/services/drift.service.ts:374-428 | Accepting moves the baseline flag, acknowledges the events it covers, resolves when that empties the open set, and fails exactly when there is no such snapshot |
| `DriftHistory.AcceptSays` | apps/api/src/services/drift.service.ts:374-428 | Accepting makes one snapshot the only baseline, acknowledges exactly the events of scans up to it, and resolves exactly when events were open before and none is after |
| `DriftHistory.AcceptNothing` | apps/api/src/services/drift.service.ts:374-393 | With no such snapshot nothing changes |
| `DriftHistory.ServerDrift.AcknowledgeDriftEvent` | apps/api/src/services/drift.service.ts:431-472 | Acknowledging changes one event once, and resolves when it was the last open one |
| `DriftHistory.AcknowledgeSays` | apps/api/src/services/drift.service.ts:431-472 | Acknowledging an open event closes that one, and the incident with the last; any other attempt changes nothing |
| `RateLimiter.EvictionIsInvisible` | apps/api/src/middleware/rate-limit.ts:121-163 | For every non-decreasing sequence of hits the limiter that sweeps lazily answers like one that never evicts |
| `RateLimiter.AnswerIs` | apps/api/src/middleware/rate-limit.ts:121-163 | From the hits alone: a hit is allowed exactly when fewer than the limit came before it in its window, is told what is left, when the window ends and the whole seconds until then rounded up, and is flagged exactly when just the limit came before it |
| `RateLimiter.OnlyRecentBuckets` | apps/api/src/middleware/rate-limit.ts:126-133 | After every hit each bucket kept is live or ended less than a minute ago, and buckets are swept once a minute at most |
| `RateLimiter.SlidingBound` | apps/api/src/middleware/rate-limit.ts:121-163 | Never more than twice the limit is allowed for a key in a half-open interval of one window's length |
| `RateLimiter.AllowedIsCount` | apps/api/src/middleware/rate-limit.ts:121-163 | What the bound counts are the allowed hits of the key in the interval |
| `RateLimiter.FirstRejectionOncePerWindow` | apps/api/src/middleware/rate-limit.ts:143-158 | A hit is flagged exactly when it is the first rejected one of its window |
| `RateLimiter.OneFlagPerRejectingWindow` | apps/api/src/middleware/rate-limit.ts:143-158 | Every window that rejects has exactly one flagged hit |
| `RateLimiter.FixedWindowCounter.HitKey` | apps/api/src/middleware/rate-limit.ts:121-163 | One hit changes the buckets and answers as the specification's counter does |

## Left out

- SSH transport, HTTP routes, the web interface, alert delivery, Prisma and Postgres themselves: a failed statement changes nothing, and everything inside one transaction under a lock is one step.
- Locks and alerts: an alert is raised at the step that decides it; a failed or reordered delivery after commit is not modelled.
- Error texts: an invalid line, a rejected schedule or a refused edit is an outcome without its message.
- The scheduling library's own parser and run times: a parameter of `CronSchedule.ScheduleOk`, and an arbitrary set of run instants in `HeartbeatSchedule`; a zone's offset is an arbitrary function of the instant.
- Regular expressions: each pattern is a direct recogniser of the strings it matches.
- Cryptography: tokens and encrypted parameters are opaque, and a fingerprint is the sorted change set itself, as if hashing were injective.
- SingleClaimant: assumes, as the code does, that a revoke or extend call ends or dies within the stale-claim time of its claim.
- RunbookProtocol: one run at a time, because no statement joins two runs; the choice of the oldest queued run, the process-wide session limit, and the contents of scripts and outputs are not part of it.
- RunbookProtocol.RunTable and PoolState: each method is one statement or one piece of bookkeeping; their interleaving is in the state machine, not in the class.
- The text of sudoers rules: a rule comes with the users it grants rights to (`sudoersSubjects`).
- Item labels and summaries of drift events: text computed from the item.
- Drift events recorded without a snapshot number, which no current code writes.
- Vault notices, job metadata, audits, licensing, discovery, metrics, backups and the log viewer.
- Which schedules and timezones a heartbeat can follow: a parameter of `CronMonitor.MonitorCronEntry`.
- CleanLabel: a label whose eightieth unit is the first half of a wide character is cut before that character; the lone half that the code would keep cannot be stored as UTF-8.
- The database's handling of a lone half of a surrogate pair: the driver is taken to send it as a replacement character.
- Rotation of a heartbeat's token on a crontab line (`rewriteCronEntryToken`): the same line rewriting with another token.
- Manual pause, resume and change of `notifyOnLate` on a heartbeat.
