# parted wrapper model

A Dafny model of the `parted` wrapper of elemental-cli
(`pkg/partitioner/parted.go`). The model has three parts:

- **PartedCall session.** This object collects the pending operations for one device: a table wipe, a table label, partitions to create, partition numbers to delete and flag changes. `WriteChanges` hands them to `parted` in one invocation, through an abstract runner.
- **optionsBuilder.** This encoder turns the pending operations into `parted`'s argument list:
  - the preamble `--script --machine -- <dev> unit s`;
  - then `mklabel`, every `rm`, every `mkpart` and every `set` group;
  - or nothing at all.
- **Report parsers.** These read `parted --machine ... unit s print` output: the header line (last sector, logical sector size, table label) and the partition lines.

Modules:

- `Wrappers`: Option.
- `GoStrings`: the Go standard-library behaviour the wrapper relies on:
  - 64-bit `uint`/`int`;
  - `strings.Contains`, `strings.TrimSpace` with `unicode.IsSpace`;
  - `bufio.ScanLines`;
  - `%d`, `strconv.ParseUint` with its range error, `strconv.Atoi`.
- `Regexp`: leftmost-first backtracking matching, as Go's `regexp` does it, for the anchored patterns the parsers use. These are built from literals, `(.*)` and `(\d+)`. The module proves a sound round trip: render groups into a pattern, then match, and the groups come back.
- `PartedTypes`: Partition, partFlag, errors, and the pending state as a value.
- `PartedEncoder`: optionsBuilder as functions, with lemmas on the layout of the argument list, label resolution, partition names, file-system tokens and extents.
- `PartedReport`: the parsers as functions, with lemmas for reading a header line and partition lines back, and the extent round trip with the encoder.
- `PartedSession`: the `PartedCall` class, whose methods update its fields in place, and the `Runner` with a ghost log of invocations. The loop-built operations (optionsBuilder, parseHeaderFields, GetPartitions) are methods with loops, each proved equal to its specifying function.

Details of the code that the model keeps, where a reader might expect otherwise:

- An unnamed GPT partition is called `part<Number>`, from the caller's `Partition.Number`, not its position in the queue.
- The FAT test is a case-sensitive substring test for `fat`. `"FAT32"` passes through unchanged (`FsTokenCaseSensitive`).
- The label test is a substring test. A label such as `xgptx` is kept, and every partition is then named `primary` (`OtherLabelNames`, `LookalikeLabel`).
- `WriteChanges` drops the wipe, the creations and the deletions after running `parted`, even when `parted` failed. It never drops the flag changes, so every later `WriteChanges` sends them again (`AfterWrite`).
- `GetPartitions` drops conversion errors. Its size is `end - start + 1` in `uint` arithmetic, whatever the line's own size field says.
- A ':' in a free-text field shifts the later groups, because the `(.*)` groups are greedy. On `/dev/sda:100s:scsi:512:512:gpt:ATA:FOO:;`, whose model is `ATA:FOO`, the label read is `gpt:ATA`, not `gpt`; the last sector and the sector size still come back (`ModelColonShiftsLabel`, `ModelColonExample`).

A record's fields are *fitting* when they can be written into their line and read back unchanged:
- its free-text fields hold no ':', no ';' and no line break (header: device, transport, table label, model and flags; partition: file system, name and flags);
- a header's device does not start with white space;
- a partition's number is not negative.

`HeaderFits` and `PartitionFits` state this. The read-back lemmas below require it.

## Model

| member | source | states |
|---|---|---|
| PartedSession.PartedCall.constructor | pkg/partitioner/parted.go:57-59 | a new call holds its device and runner, no wipe, an empty label and nothing queued |
| PartedSession.PartedCall.OptionsBuilder | pkg/partitioner/parted.go:61-118 | the loops build exactly `Options` of the current fields, whose layout the PartedEncoder lemmas state |
| PartedSession.AppendRmGroups | pkg/partitioner/parted.go:74-76 | the rm loop appends one `rm <n>` group per queued deletion, in queue order |
| PartedSession.AppendMkpartGroups | pkg/partitioner/parted.go:78-102 | the mkpart loop appends one mkpart group per queued creation, in queue order |
| PartedSession.MkpartArgs | pkg/partitioner/parted.go:79-101 | the tokens the mkpart loop body appends for one partition are `MkpartGroup` of it |
| PartedSession.AppendSetGroups | pkg/partitioner/parted.go:104-111 | the set loop appends one `set <n> <flag> on/off` group per queued flag change, in queue order |
| PartedSession.PartedCall.WriteChanges | pkg/partitioner/parted.go:120-131 | with nothing pending: returns ("", None), runs nothing and changes nothing. Otherwise: runs `parted` once with the argument list and returns that run's output and error unchanged. It then clears the wipe, creations and deletions whatever the outcome, and keeps device, label and flags |
| PartedSession.Runner.Run | pkg/partitioner/parted.go:126 | each call appends its command line, output and error to the log; the error, if any, is a run failure; their values are left open |
| PartedSession.AfterWrite | pkg/partitioner/parted.go:127-129 | after a run, the next WriteChanges is a no-op exactly when no flag change was ever queued. Otherwise it sends the preamble and every flag change again |
| PartedSession.PartedCall.SetPartitionTableLabel | pkg/partitioner/parted.go:133-135 | only the label changes |
| PartedSession.PartedCall.CreatePartition | pkg/partitioner/parted.go:137-139 | the partition is appended after the earlier creations; nothing else changes |
| PartedSession.PartedCall.DeletePartition | pkg/partitioner/parted.go:141-143 | the number is appended after the earlier deletions; nothing else changes |
| PartedSession.PartedCall.SetPartitionFlag | pkg/partitioner/parted.go:145-147 | the flag change is appended after the earlier ones; nothing else changes |
| PartedSession.PartedCall.WipeTable | pkg/partitioner/parted.go:149-151 | only the wipe flag changes |
| PartedSession.PartedCall.Print | pkg/partitioner/parted.go:153-156 | runs `parted` once with the preamble and `print` and returns that run's output and error unchanged; no pending field changes |
| PartedSession.PartedCall.ParseHeaderFields | pkg/partitioner/parted.go:159-170 | returns `HeaderField`: the group of the first trimmed report line matching the header pattern, or "" with an error |
| PartedSession.ScanFirstMatch | pkg/partitioner/parted.go:162-168 | the scan stops at, and returns the submatches of, the first line that matches once trimmed; None when no line does |
| PartedSession.PartedCall.GetLastSector | pkg/partitioner/parted.go:173-180 | returns `LastSector`: 0 with an error without a header, else ParseUint of the header's second group |
| PartedSession.PartedCall.GetSectorSize | pkg/partitioner/parted.go:183-190 | returns `SectorSize`: 0 with an error without a header, else ParseUint of the header's fourth group |
| PartedSession.PartedCall.GetPartitionTableLabel | pkg/partitioner/parted.go:193-195 | returns `TableLabel`, the header's sixth group |
| PartedSession.PartedCall.GetPartitions | pkg/partitioner/parted.go:198-230 | the loop returns `PartitionsIn`: one partition per matching line, in line order |
| PartedEncoder.KnownLabel | pkg/partitioner/parted.go:64 | definition: the label check passes when the label contains "msdos" or "gpt" anywhere; EffectiveLabel, OtherLabelNames and LookalikeLabel state what follows |
| PartedEncoder.Preamble | pkg/partitioner/parted.go:117 | definition: `--script --machine -- <dev> unit s`; OptionsLength states where it sits |
| PartedEncoder.MklabelOps | pkg/partitioner/parted.go:70-72 | definition: `mklabel <effective label>` with a wipe, nothing otherwise; OptionsMklabel states it |
| PartedEncoder.RmGroup | pkg/partitioner/parted.go:75 | definition: `rm <n>` for one deletion; OptionsRm places it |
| PartedEncoder.PartName | pkg/partitioner/parted.go:79-86 | definition of the partition name; MkpartGroupTokens, UnknownLabelNames and OtherLabelNames state the rule |
| PartedEncoder.FsToken | pkg/partitioner/parted.go:90-94 | definition of the file-system token from `fat\|vfat`; FsTokenFat and FsTokenCaseSensitive state the rule |
| PartedEncoder.EndSector | pkg/partitioner/parted.go:100 | definition: StartS+SizeS-1 modulo 2^64; EndSectorSpan states the wrap |
| PartedEncoder.Extent | pkg/partitioner/parted.go:96-101 | definition of the two extent tokens; ExtentValues and ExtentRoundTrip state them |
| PartedEncoder.MkpartGroup | pkg/partitioner/parted.go:88-101 | definition of one creation's five tokens; MkpartGroupTokens states them |
| PartedEncoder.SetGroup | pkg/partitioner/parted.go:105-110 | definition: `set <n> <flag> on/off`; OptionsSet places it |
| PartedEncoder.Operations | pkg/partitioner/parted.go:70-111 | definition of the operation tokens in section order; OperationsLength and OptionsSplit state their layout |
| PartedEncoder.Options | pkg/partitioner/parted.go:61-118 | definition of optionsBuilder's result; OptionsEmptyIff, OptionsLength, OptionsMklabel, OptionsRm, OptionsMkpart and OptionsSet state it |
| PartedReport.ReportLines | pkg/partitioner/parted.go:162-163 | definition: the scanner's lines of the trimmed report; ReportOfLines states it on joined lines |
| PartedReport.FirstMatch | pkg/partitioner/parted.go:163-168 | definition of the first trimmed line's submatches; FirstMatchNone, FirstMatchAt and FirstMatchShape state it |
| PartedReport.HeaderField | pkg/partitioner/parted.go:159-170 | definition of parseHeaderFields; HeaderMissing, HeaderRead and HeaderFieldIs state it |
| PartedReport.NumResult | pkg/partitioner/parted.go:178-179 | definition: strconv's value and error as the getter returns them |
| PartedReport.LastSector | pkg/partitioner/parted.go:173-180 | definition of GetLastSector; HeaderMissing, HeaderNumbers and HeaderRead state it |
| PartedReport.SectorSize | pkg/partitioner/parted.go:183-190 | definition of GetSectorSize; HeaderMissing, HeaderNumbers and HeaderRead state it |
| PartedReport.TableLabel | pkg/partitioner/parted.go:193-195 | definition of GetPartitionTableLabel; HeaderMissing and HeaderRead state it |
| PartedReport.PartitionOf | pkg/partitioner/parted.go:211-225 | definition of one partition from a line's submatches; PartitionOfGroups and ExtentReadBack state it |
| PartedReport.PartitionOfLine | pkg/partitioner/parted.go:209-226 | definition: the partition of a matching trimmed line; PartitionLineParses and NoPartition state it |
| PartedReport.Partitions | pkg/partitioner/parted.go:207-229 | definition of the scan's result over lines; PartitionsAppend, PartitionsSkip and PartitionsReadBack state it |
| PartedReport.PartitionsIn | pkg/partitioner/parted.go:198-230 | definition of GetPartitions' result; GetPartitions is proved equal to it |
| PartedReport.FilterMap | pkg/partitioner/parted.go:208-227 | the kept values are never more than the lines |
| Regexp.Match | pkg/partitioner/parted.go:164 | definition of leftmost-first anchored matching; MatchTyped, MatchSound, MatchRender and TooFewSeparators state it |
| Regexp.Greedy | pkg/partitioner/parted.go:160 | definition of greedy backtracking over one group's length; GreedyResult and GreedySkipsLonger state it |
| Regexp.DigitRun | pkg/partitioner/parted.go:199 | the longest run of digits at the start, and the first non-digit after it |
| GoStrings.Contains | pkg/partitioner/parted.go:64 | definition of the substring test; ContainsIff states it |
| GoStrings.TrimLeft | pkg/partitioner/parted.go:162 | a suffix that does not start with white space, and the whole text when it does not |
| GoStrings.TrimRight | pkg/partitioner/parted.go:162 | a prefix that does not end with white space, and the whole text when it does not |
| GoStrings.LineEnd | pkg/partitioner/parted.go:163 | the first line break, or the end of the text, with no line break before it |
| GoStrings.DropCR | pkg/partitioner/parted.go:163 | definition: one trailing carriage return is cut; ScanJoinedLines uses it |
| GoStrings.NatToString | pkg/partitioner/parted.go:98-100 | `%d` of a number is a non-empty digit string; NatToStringValue states its value |
| GoStrings.ParseUint | pkg/partitioner/parted.go:178 | definition of strconv.ParseUint(s, 10, 0); ParseUintOfNatToString and ParseUintOfDigits state it |
| GoStrings.Atoi | pkg/partitioner/parted.go:211 | definition of strconv.Atoi; AtoiOfIntToString states it |
| PartedEncoder.EffectiveLabel | pkg/partitioner/parted.go:63-68 | the label used is the stored one exactly when it contains "msdos" or "gpt", otherwise "gpt"; it always passes the check |
| PartedEncoder.OptionsEmptyIff | pkg/partitioner/parted.go:113-115 | the argument list is empty exactly when there is no wipe, no deletion, no creation and no flag change |
| PartedEncoder.OptionsLength | pkg/partitioner/parted.go:70-117 | a non-empty list starts with `--script --machine -- dev unit s` and has length 6 + 2·[wipe] + 2·deletions + 5·creations + 4·flag changes |
| PartedEncoder.OperationsLength | pkg/partitioner/parted.go:70-111 | the operations hold 2 tokens for a wipe, 2 per deletion, 5 per creation and 4 per flag change |
| PartedEncoder.OptionsSplit | pkg/partitioner/parted.go:70-117 | proof step (one definition unfolded): a non-empty list is the preamble, then mklabel, the rm groups, the mkpart groups and the set groups, in that order |
| PartedEncoder.OptionsMklabel | pkg/partitioner/parted.go:63-72 | with a wipe, tokens 6-7 are `mklabel` and the stored label if it contains "msdos" or "gpt", else "gpt" |
| PartedEncoder.OptionsRm | pkg/partitioner/parted.go:74-76 | the i-th deletion is `rm <n>` at offset 6 + 2·[wipe] + 2i |
| PartedEncoder.OptionsMkpart | pkg/partitioner/parted.go:78-102 | the i-th creation is its mkpart group at offset 6 + 2·[wipe] + 2·deletions + 5i |
| PartedEncoder.OptionsSet | pkg/partitioner/parted.go:104-111 | the i-th flag change is `set <n> <flag> on/off` at offset 6 + 2·[wipe] + 2·deletions + 5·creations + 4i |
| PartedEncoder.RmSection | pkg/partitioner/parted.go:74-76 | the rm section holds 2 tokens per deletion, the i-th pair for deletion i |
| PartedEncoder.MkpartLength | pkg/partitioner/parted.go:78-102 | the mkpart section holds 5 tokens per creation |
| PartedEncoder.MkpartSection | pkg/partitioner/parted.go:78-102 | the i-th five tokens of the mkpart section are creation i's group |
| PartedEncoder.SetSection | pkg/partitioner/parted.go:104-111 | the set section holds 4 tokens per flag change, the i-th four for change i |
| PartedEncoder.MkpartGroupTokens | pkg/partitioner/parted.go:79-101 | a mkpart group is `mkpart`, then the name, the fat32-or-hint token, the start, and `100%` or the wrapped end sector |
| PartedEncoder.UnknownLabelNames | pkg/partitioner/parted.go:79-86 | under a label with neither word, partitions are named PLabel, else `part<Number>` |
| PartedEncoder.OtherLabelNames | pkg/partitioner/parted.go:63-86 | a label other than "gpt" that contains "msdos" or "gpt" is kept, and every partition is then named "primary" |
| PartedEncoder.LookalikeLabel | pkg/partitioner/parted.go:64 | "xgptx" passes the label check and is kept |
| PartedEncoder.FsTokenFat | pkg/partitioner/parted.go:90-94 | the token is fat32 exactly when the hint contains "fat", and the hint itself otherwise |
| PartedEncoder.FsTokenCaseSensitive | pkg/partitioner/parted.go:90 | "VFAT" and "FAT32" pass through unchanged; "vfat" and "fat16" become fat32 |
| PartedEncoder.EndSectorSpan | pkg/partitioner/parted.go:100 | the end sector is StartS+SizeS-1 when that fits in 64 bits, otherwise it wraps below the start; end - start + 1 always gives SizeS back |
| PartedEncoder.ExtentValues | pkg/partitioner/parted.go:96-101 | the extent is two tokens: the start, then "100%" for size 0 or the end sector, each of which ParseUint reads back exactly |
| PartedEncoder.WholeDiskFatGroup | pkg/partitioner/parted.go:78-101 | {Number 1, start 2048, size 0, vfat} under GPT gives `mkpart part1 fat32 2048 100%` |
| PartedReport.HeaderMissing | pkg/partitioner/parted.go:159-195 | without a matching line, the label getter gives "" and an error, and the number getters give 0 and an error |
| PartedReport.HeaderNumbers | pkg/partitioner/parted.go:173-190 | once a header is found, the number getters never give a syntax error; only a number past 64 bits fails, with the largest uint |
| PartedReport.HeaderDigits | pkg/partitioner/parted.go:160 | the last-sector and sector-size groups of the first header match are non-empty digit strings |
| PartedReport.MatchHeaderDigits | pkg/partitioner/parted.go:160 | a header match has eight groups; the second and fourth are digits |
| PartedReport.HeaderGroupDigits | pkg/partitioner/parted.go:160 | groups the header pattern can capture have digits in its `(\d+)` positions 1 and 3 |
| PartedReport.HeaderRead | pkg/partitioner/parted.go:159-195 | when a header line written from a record with fitting fields comes after lines that are not headers, the getters return the record's last sector, logical sector size and table label |
| PartedReport.HeaderFound | pkg/partitioner/parted.go:162-167 | with fitting fields, the first match of such a report is the header line with the record's fields as groups |
| PartedReport.HeaderLineMatches | pkg/partitioner/parted.go:160-164 | a header line with fitting fields is its own trim and matches with exactly those fields as groups |
| PartedReport.HeaderLineText | pkg/partitioner/parted.go:160 | a header line is the record's fields joined by ':', with an 's' after the last sector and a final ';' |
| PartedReport.ShiftedLineMatches | pkg/partitioner/parted.go:160-164 | when the model is a + ":" + b, with a and b and the other text fields fitting and neither the transport nor the label starting with a digit, the line is that of the record with label + ":" + a and model b, and matches with that record's fields as groups |
| PartedReport.SplitLabelLine | pkg/partitioner/parted.go:160-164 | a header line whose label holds one ':' of its own, with the other text fields fitting and neither the transport nor the label starting with a digit, matches with every field in place: the device and transport groups still stop at their own ':' |
| PartedReport.ModelColonShiftsLabel | pkg/partitioner/parted.go:159-195 | after lines that are not headers, a header line whose model is a + ":" + b (other fields as for ShiftedLineMatches) makes the label getter return the label followed by ":" + a, and the number getters still return the record's last sector and sector size |
| PartedReport.ModelColonExample | pkg/partitioner/parted.go:159-195 | on `<dev>:100s:scsi:512:512:gpt:ATA:FOO:;` the getters give the label "gpt:ATA", the last sector 100 and the sector size 512 |
| PartedReport.HeaderFieldIs | pkg/partitioner/parted.go:165-166 | proof step (one definition unfolded): a field of the header parse is that group of the first match |
| PartedReport.HeaderGroupsAt | pkg/partitioner/parted.go:160 | proof step (one definition unfolded): groups 2, 4 and 6 of a header match are the last sector, the logical size and the label |
| PartedReport.NumberField | pkg/partitioner/parted.go:178-179 | GetLastSector converts a decimal field back to its number with no error |
| PartedReport.SizeField | pkg/partitioner/parted.go:188-189 | GetSectorSize converts a decimal field back to its number with no error |
| PartedReport.LastSectorOf | pkg/partitioner/parted.go:173-180 | a first header match written from a record gives its last sector |
| PartedReport.SectorSizeOf | pkg/partitioner/parted.go:183-190 | a first header match written from a record gives its logical sector size |
| PartedReport.TableLabelOf | pkg/partitioner/parted.go:193-195 | a first header match written from a record gives its table label |
| PartedReport.HeaderGroupCount | pkg/partitioner/parted.go:160 | `HeaderPattern`, the regex of line 160 as tokens, has eight groups |
| PartedReport.HeaderShape | pkg/partitioner/parted.go:160 | `HeaderPattern`, the regex of line 160 as tokens, has eight groups: digits at 1, 3 and 4. Every group is followed by a delimiter, it ends in ';' and it has seven ':' |
| PartedReport.PartitionGroupCount | pkg/partitioner/parted.go:199 | `PartitionPattern`, the regex of line 199 as tokens, has seven groups |
| PartedReport.PartitionShape | pkg/partitioner/parted.go:199 | `PartitionPattern`, the regex of line 199 as tokens, has seven groups: digits at 0-3. Every group is followed by a delimiter, and it ends in ';' |
| PartedReport.FirstMatchShape | pkg/partitioner/parted.go:164 | a first match is the whole trimmed line followed by one group per pattern group, and the pattern matches the line with them |
| PartedReport.FirstMatchStep | pkg/partitioner/parted.go:163-167 | proof step (one definition unfolded): from line i, the first match is line i's if it matches, else the first match after it |
| PartedReport.FirstMatchNone | pkg/partitioner/parted.go:163-169 | there is no first match exactly when no line matches once trimmed |
| PartedReport.FirstMatchAt | pkg/partitioner/parted.go:163-167 | after non-matching lines, the first match is line i's or a later one's |
| PartedReport.PartitionLineMatches | pkg/partitioner/parted.go:199-209 | a partition line with fitting fields is its own trim and matches with exactly those fields as groups |
| PartedReport.PartitionLineParses | pkg/partitioner/parted.go:209-225 | such a line yields its number, start, end - start + 1 (wrapped) as size, its name, and "" as file system |
| PartedReport.PartitionOfGroups | pkg/partitioner/parted.go:211-225 | the converted groups of a record give its number, start and name exactly, and the size from start and end |
| PartedReport.PartitionOfMatch | pkg/partitioner/parted.go:209-226 | proof step (one definition unfolded): a line contributes a partition exactly when it matches, and then the one its eight submatches give |
| PartedReport.PartitionsSnoc | pkg/partitioner/parted.go:208-226 | proof step (one definition unfolded): one more line appends its partition, if it has one, after the earlier ones |
| PartedReport.PartitionsAppend | pkg/partitioner/parted.go:207-229 | the partitions of concatenated lines are the partitions of each part, in order |
| PartedReport.PartitionsSkip | pkg/partitioner/parted.go:208-227 | a line that does not match is skipped |
| PartedReport.NoPartition | pkg/partitioner/parted.go:210 | proof step (one definition unfolded): a single non-matching line gives no partition |
| PartedReport.PartitionsReadBack | pkg/partitioner/parted.go:198-230 | a report of partition lines written from records with fitting fields gives one partition per line, in order, duplicates kept |
| PartedReport.ExtentRoundTrip | pkg/partitioner/parted.go:216 | a line with fitting fields whose start and end are the encoder's extent tokens for a sized partition reads back with that partition's start and size, even where the end wrapped |
| PartedReport.ExtentReadBack | pkg/partitioner/parted.go:211-216 | such a record converts to the encoded start and size |
| PartedReport.ExtentNumbers | pkg/partitioner/parted.go:216 | the numbers behind the extent tokens are the start and an end from which end - start + 1 gives the size |
| PartedReport.ReportOfLines | pkg/partitioner/parted.go:162-163 | text joined from clean lines, unpadded at both ends, is scanned back into the same lines |
| Regexp.FindStringSubmatch | pkg/partitioner/parted.go:164 | a match is the whole text followed by one group per pattern group |
| Regexp.MatchTyped | pkg/partitioner/parted.go:160 | every match has one group per pattern group. A `(.*)` group has no line break; a `(\d+)` group is a non-empty digit string |
| Regexp.MatchSound | pkg/partitioner/parted.go:160 | the groups of a match, rendered back into the pattern, give the matched text |
| Regexp.MatchRender | pkg/partitioner/parted.go:160 | a rendering of fitting groups into a delimited pattern matches with exactly those groups, despite greedy backtracking |
| Regexp.MatchRenderStar | pkg/partitioner/parted.go:160 | the `(.*)` step of that: backtracking stops at the delimiter after the group |
| Regexp.MatchRenderDigits | pkg/partitioner/parted.go:199 | the `(\d+)` step of that: the digit run ends at the literal after the group |
| Regexp.MatchRenderStarOneMore | pkg/partitioner/parted.go:160 | the `(.*)` step when the later groups hold one separator too many: if the rest cannot match past the next separator, the group still stops at its delimiter |
| Regexp.GreedyResult | pkg/partitioner/parted.go:160 | a greedy group captures a prefix no longer than the first try, and the rest of the pattern matches what follows it |
| Regexp.GreedySkipsLonger | pkg/partitioner/parted.go:160 | when the text after position m holds exactly the separators the rest of the pattern needs, every longer candidate for `(.*)` fails |
| Regexp.TooFewSeparators | pkg/partitioner/parted.go:160 | a line with fewer of some separator than the pattern has does not match |
| Regexp.RenderCountExact | pkg/partitioner/parted.go:160 | a rendering of fitting groups holds exactly the pattern's separators |
| Regexp.RenderCountAtLeast | pkg/partitioner/parted.go:160 | a rendering holds at least the pattern's separators |
| Regexp.TypedDigits | pkg/partitioner/parted.go:160 | group j of a match is a non-empty digit string when position j of the pattern is `(\d+)` |
| Regexp.FitsByGroup | pkg/partitioner/parted.go:199 | groups that are digits in the pattern's digit positions, and free text elsewhere, fit the pattern |
| Regexp.GroupBit | pkg/partitioner/parted.go:199 | the digit-position mask of a pattern is its first group's kind plus that of the rest, shifted |
| Regexp.RenderEndsWith | pkg/partitioner/parted.go:160 | a pattern ending in ';' renders to text ending in ';' |
| GoStrings.TrimSpace | pkg/partitioner/parted.go:162 | the trim starts and ends with non-space, and an unpadded string is its own trim |
| GoStrings.TrimSpaceInfix | pkg/partitioner/parted.go:164 | the trim is an infix of the text with only white space cut on either side |
| GoStrings.TrimLeftSpace | pkg/partitioner/parted.go:164 | only white space is cut on the left |
| GoStrings.TrimRightSpace | pkg/partitioner/parted.go:164 | only white space is cut on the right |
| GoStrings.ScanLines | pkg/partitioner/parted.go:162-163 | no scanned line holds a line break |
| GoStrings.ScanJoinedLines | pkg/partitioner/parted.go:162-163 | lines without line breaks or trailing carriage returns are scanned back from their joined text |
| GoStrings.ContainsIff | pkg/partitioner/parted.go:64 | the label test finds a word exactly when it occurs at some position |
| GoStrings.ContainsInfix | pkg/partitioner/parted.go:90 | containing "vfat" implies containing "fat", so the `fat\|vfat` alternative adds nothing |
| GoStrings.NatToStringValue | pkg/partitioner/parted.go:100 | `%d` of a number denotes it, with no leading zero |
| GoStrings.IntToString | pkg/partitioner/parted.go:75 | `%d` of an integer starts with '-' exactly when it is negative |
| GoStrings.ParseUintOfNatToString | pkg/partitioner/parted.go:178 | ParseUint reads back exactly what `%d` writes, for every 64-bit uint |
| GoStrings.AtoiOfIntToString | pkg/partitioner/parted.go:211 | Atoi reads back exactly what `%d` writes, for every 64-bit int |
| GoStrings.ParseUintOfDigits | pkg/partitioner/parted.go:178 | a digit string never gives a syntax error; past 64 bits it gives the largest uint and a range error |

## Left out

- The runner: `v1.Runner` is not part of this model. `Runner.Run` returns an arbitrary output and either no error or a run failure, and logs the command line with both. `parted`'s own behaviour is not modelled.
- `*Partition` pointers: CreatePartition stores the partition by value, so a caller changing a queued partition after queueing it is not modelled.
- A nil `*Partition` cannot be expressed: in the code, queueing nil makes optionsBuilder panic when it reads the partition's fields.
- Strings are sequences of characters: Go's byte strings and UTF-8 decoding are not modelled. `unicode.IsSpace` is modelled on code points.
- `bufio.Scanner`'s 64 KiB token limit (a longer line stops the scan with an error that the wrapper ignores) is not modelled.
- The regular-expression engine: only the fragment the two patterns use is modelled, which is anchored literals, `(.*)` and `(\d+)`.
- ParseUint: reports a syntax error for every string that is empty or holds a non-digit. strconv reads left to right and reports the first problem it meets, so "99999999999999999999x" is a range error there (the largest uint), while "1x99999999999999999999" is a syntax error in both. The parsers only hand it `(\d+)` groups, which cannot hold a non-digit.
- Atoi: the same difference. strconv.Atoi("99999999999999999999x") gives the largest int64 with a range error, where the model gives 0 with a syntax error. Only a `(\d+)` group reaches it.
- Go's `int` is modelled as a 64-bit integer (`Int64`), as on a 64-bit target.
- `constants.GPT` lives in a package that is not part of this model; it is taken to be "gpt".
- `pkg/utils/common.go` and the `cmd/` files are not part of this model. They are process execution, file copying, CLI wiring and configuration loading.
