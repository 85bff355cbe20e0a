# Media metadata editor — verified model of the write-decision core

This project models, in Dafny, the core of a Windows video-tag editor
written in C#. That core decides what gets written to media files, where
it gets written, and what gets reported:

- **Capability lookup and field policy.** `CapabilitySvc` looks up a
  capability matrix. It normalises the extension (leading dots trimmed,
  lower-cased) and maps the entry's text to `Unknown`, `Supported`,
  `Conditional` or `Unsupported`. `MainViewModel.UpdateFieldSupport` uses
  these lookups to count, for each form field, the loaded files that
  support it. From that count and `ShowHiddenFields` it sets the field's
  `IsEnabled` flag and its tooltip.
- **Tag backend.** `TagLibSvc.TryWriteBasic` decides which edit keys reach
  which tag slot. Year is written only when it parses as an unsigned
  32-bit integer. `ReadTags` projects a tag back to a dictionary.
- **External tools.** `TryWriteWithAtomicParsley` and
  `TryWriteWithExifTool` map a field to command-line arguments and escape
  quotes. They refuse an unmapped field or an unconfigured executable
  without starting anything, and they interpret the exit code.
- **Presets and settings.** `PresetSvc` edits a list of presets keyed by a
  case-insensitive name. `SettingsSvc` has defaults, overridden lookup by
  lookup from a configuration file.
- **The main view model.** It holds two lists, `Files` and
  `SelectedFiles`:
  - `AddFiles`, `RemoveSelected`, `ClearAll` and `Dedupe` edit those
    lists in place.
  - `ApplyAsync` makes one report per target file, in order. For each
    file it makes a backup if none exists, tries TagLib, then falls back
    through AtomicParsley-title, ExifTool-title, AtomicParsley-comment
    and ExifTool-comment, stopping at the first success.
  - `RemoveSubstringAsync` strips a substring, ignoring case, from the
    first checked field of every target.
  - The backup suffix `.bak_mme` is added when backing up and stripped
    when restoring.

Everything outside these programs is a parameter of the model:
- what the file system holds (`onDisk`, `existing`);
- what TagLib finds in a file, and whether saving throws (`MediaFile`);
- the outcome of each external process (`ProcessRun`);
- the contents of the configuration, capability-matrix and preset files;
- the answers to dialogs (`confirmed`, `answer`).

Stateful objects are Dafny classes whose methods carry `modifies` clauses:
- `MainViewModel` and `FieldVM`;
- `CapabilitySvc`, with its nullable matrix;
- `PresetSvc`, with its backing file.

The `foreach` loops of the modelled view-model code are `for` loops.
Each is proved against a specification, and the properties of the
specification functions are proved as lemmas:
- the constructor's two loops (Core/ViewModels.cs:112 and 114): the
  thirteen field view models with their keys and labels, and the stored
  presets in their order;
- `AddFiles` (line 143), in `AppendNew`: `NewPaths`;
- `RemoveSelected` (line 163), in `RemoveEachSelected`: `RemoveAll`,
  which for a list without repeats is the order-preserving filter
  `Unselected`;
- `Dedupe`'s refill (line 179), in `Refill`: Files becomes the given
  list. The list it is given is `Deduped`, which models the `GroupBy`
  query rather than a loop;
- `ApplyAsync` (line 204), in `RunBatch`: `Batch`;
- `RemoveSubstringAsync` (line 272), in `StripAll`: `RemoveLog`;
- `UpdateFieldSupport` (lines 351-354), in `CountSupporting`, `CountAll`
  and `ShowAll`: `CountSupported` per field, and the state the field
  policy gives for that count.

The loops of `PreviewSelected`, `SavePreset` and `RestoreBackupDialog`
belong to user-interface code that is left out.

Files, one module each:

| file | module | contents |
|---|---|---|
| `text.dfy` | `Text` | ASCII case fold and the string operations the core uses |
| `models.dfy` | `Models` | the enums and records of Core/Models.cs |
| `settings.dfy` | `Settings` | SettingsSvc |
| `presets.dfy` | `Presets` | PresetSvc |
| `taglib.dfy` | `TagBackend` | TagLibSvc |
| `external_tools.dfy` | `ExternalTools` | ExternalToolsSvc |
| `capability.dfy` | `Capability` | CapabilitySvc |
| `backup.dfy` | `Backup` | backup naming |
| `file_list.dfy` | `FileList` | FileItem, and the Files-list specifications |
| `field_support.dfy` | `FieldSupport` | the field-visibility policy |
| `write_cascade.dfy` | `WriteCascade` | the per-file step and the batch of ApplyAsync |
| `substring_removal.dfy` | `SubstringRemoval` | the per-file step of RemoveSubstringAsync |
| `main_view_model.dfy` | `MainView` | FieldVM, MainViewModel and its loops |

Where the code and the system's written description differ, this model
follows the code:
- **Missing matrix entry.** A missing matrix entry, a missing `formats`
  node or a null matrix gives `Unknown`, not `Unsupported`. `Unknown`
  counts as supporting the field.
- **Failed reload.** A reload that finds no file, or cannot read or parse
  it, sets the matrix to null. It does not keep the previous one. Only a
  blank file leaves the previous matrix in place.
- **Property names.** Property names in the matrix are matched exactly.
  Only the extension key is normalised.
- **`.flv`.** `.flv` is not an allowed extension, although the open
  dialog offers it.
- **Settings.** Settings handle a failing lookup by keeping the overrides
  already assigned before the exception, not by falling back to the
  defaults.
- **Support levels.** The four support levels of the code are kept as
  they are.

## Model

| member | source | states |
|---|---|---|
| Models.FieldStatusMembers | Core/Models.cs:5 | FieldStatus has exactly the five members Preview, Success, Partial, Failed, Unsupported, numbered 0..4 in order |
| Models.CapabilitySupportMembers | Core/Models.cs:6 | CapabilitySupport has exactly four members; Unknown is the default, numbered 0 |
| Models.FreshRecordDefaults | Core/Models.cs:8-27 | a fresh Preset, FieldResult and FileReport have empty strings and collections, status Preview and a null backup path |
| Settings.FirstFault | Core/Services.cs:25-47 | the index of the first lookup that throws: every earlier lookup succeeds |
| Settings.LoadSettings | Core/Services.cs:16-48 | each setting takes the file's value when its lookup comes before the first exception, else its default; every setting is a default or a value from the file; no file or an unreadable file gives the defaults |
| Backup.OriginalPath | Core/ViewModels.cs:375-376 | restore is refused exactly when the name lacks the suffix; otherwise its original's backup path is the name |
| Backup.RestoreUndoesBackup | Core/ViewModels.cs:375-376 | stripping the suffix from a backup path gives the original back |
| Backup.BackupPathInjective | Core/ViewModels.cs:211 | two different files never share a backup path |
| Capability.GetSupportMeaning | Core/Services.cs:229-248 | GetSupport is Unknown exactly when the entry is missing; Supported exactly for text "true" and Unsupported exactly for "unsupported", ignoring case; Conditional otherwise |
| Capability.ExtensionKeyNormalises | Core/Services.cs:234 | an extra leading dot or lower-casing does not change the lookup key |
| Capability.SameKeySameSupport | Core/Services.cs:234-245 | extensions with the same key have the same support |
| Capability.TrimDotsUpperMkv | Core/Services.cs:234 | TrimStart('.') of ".MKV" is "MKV" |
| Capability.TrimDotsDoubleMkv | Core/Services.cs:234 | TrimStart('.') of "..mkv" is "mkv" |
| Capability.LowerMkv | Core/Services.cs:234 | ToLowerInvariant of "MKV" and of "mkv" is "mkv" |
| Capability.MkvKeys | Core/Services.cs:234 | ".MKV", "..mkv" and "mkv" all have the key "mkv" |
| Capability.MkvSpellingsAgree | Core/Services.cs:234-245 | ".MKV", "mkv" and "..mkv" look up the same support in every matrix |
| Capability.CapabilitySvc.constructor | Core/Services.cs:209-211 | the matrix starts null and is then loaded |
| Capability.CapabilitySvc.LoadMatrix | Core/Services.cs:213-225 | a missing or unreadable file or a parse failure nulls the matrix; a blank file keeps the previous one; otherwise the parsed document is stored |
| Capability.CapabilitySvc.ReloadIfPossible | Core/Services.cs:227 | behaves as LoadMatrix, so a failed reload discards the loaded matrix |
| Capability.CapabilitySvc.Support | Core/Services.cs:229-233 | with a null matrix every lookup is Unknown |
| Presets.FindByName | Core/Services.cs:78 | the index of the first preset whose name matches ignoring case, None exactly when none matches |
| Presets.WithoutLosesOnlyMatch | Core/Services.cs:93-95 | Remove loses exactly the first matching preset: with it added back, the multiset of presets is the old one; without a match nothing is lost |
| Presets.WithoutAt | Core/Services.cs:79 | entries before the removed one keep their index, later ones move up by one |
| Presets.EqualsIgnoreCaseSwap | Core/Services.cs:78 | equality ignoring case is transitive in the form the name lookups need |
| Presets.WithoutRemovesName | Core/Services.cs:93-95 | with unique names, the removed name is no longer found |
| Presets.WithoutKeepsUnique | Core/Services.cs:93-95 | Remove keeps names unique |
| Presets.UpsertKeepsNamesUnique | Core/Services.cs:77-80 | AddOrReplace keeps names unique |
| Presets.UpsertFindsPreset | Core/Services.cs:77-80 | after AddOrReplace, the name is found at the last position |
| Presets.UpsertKeepsOthers | Core/Services.cs:77-80 | every preset of another name survives AddOrReplace before the new one |
| Presets.PresetSvc.constructor | Core/Services.cs:53 | the service starts over the given file |
| Presets.PresetSvc.GetAll | Core/Services.cs:56-69 | a missing, blank or corrupt file reads as no presets |
| Presets.PresetSvc.AddOrReplace | Core/Services.cs:71-85 | stores Upsert of what GetAll read unless the write throws, in which case nothing changes; an unreadable file becomes [p] |
| Presets.PresetSvc.Remove | Core/Services.cs:87-99 | writes Without(name) only when a match exists and the write succeeds; otherwise the file is unchanged |
| TagBackend.TagMapMeaning | Core/Services.cs:113-118 | ReadTags' dictionary holds a key exactly when that slot is set (non-empty text, non-empty list, non-zero year), with lists joined by ";" and the year in decimal |
| TagBackend.ReadTags | Core/Services.cs:104-123 | an unopenable or tagless file gives an empty dictionary; otherwise the tag's projection |
| TagBackend.TryWriteBasic | Core/Services.cs:130-150 | succeeds exactly when the file opens with a tag and saves; the message is the open or save exception, or "Cannot open tag"; failure leaves the file unchanged; success stores the edited tag |
| TagBackend.EditedIgnoresOtherKeys | Core/Services.cs:139-144 | keys other than the six basic ones have no effect |
| TagBackend.WriteThenReadTitle | Core/Services.cs:113-139 | a non-empty Title written is read back unchanged |
| TagBackend.WriteThenReadYear | Core/Services.cs:117-143 | a year written as its decimal digits is read back unchanged |
| TagBackend.UnparsableYearSkipped | Core/Services.cs:143 | a Year value that does not parse leaves the year untouched |
| TagBackend.BlankArtistReadsAsEmptyEntry | Core/Services.cs:141 | a blank Artist is stored as [""] and reads back as a present, empty entry |
| TagBackend.TitleWrittenNonNumericYearSkipped | Core/Services.cs:139-144 | edits {Title: "New", Year: "abc"} change the title and nothing else |
| ExternalTools.EscapeQuotes | Core/Services.cs:203 | the output is the input lengthened by one per double quote |
| ExternalTools.Escape | Core/Services.cs:203 | null gives ""; the length grows by the number of quotes; every quote in the output follows a backslash |
| ExternalTools.EscapedQuotesArePrefixed | Core/Services.cs:203 | every quote of the escaped text follows a backslash |
| ExternalTools.UnescapeEscape | Core/Services.cs:203 | reading `\"` as a quote recovers the original text from its escaped form |
| ExternalTools.Outcome | Core/Services.cs:170-176 | success exactly on exit code 0, with an empty error; a non-zero exit gives stderr, or "Exit N" when stderr is empty; a thrown or null start gives its message |
| ExternalTools.AtomicParsleyArgs | Core/Services.cs:163-168 | arguments exist exactly for the lower-cased fields title and comment |
| ExternalTools.TryWriteWithAtomicParsley | Core/Services.cs:157-177 | an empty executable or an unmapped field fails without starting a process; a process starts exactly otherwise; success exactly on exit 0 |
| ExternalTools.ExifToolTag | Core/Services.cs:185-191 | a tag switch exists exactly for the lower-cased fields title, comment and director |
| ExternalTools.TryWriteWithExifTool | Core/Services.cs:179-201 | the same shape as AtomicParsley, with "ExifTool not configured" and "Field not mapped" |
| ExternalTools.EscapeQuotesOfQuoteFree | Core/Services.cs:203 | a value without double quotes is not changed by escaping |
| ExternalTools.ExifToolTitleUnquoted | Core/Services.cs:187-193 | a quote-free title value, spaces included, stands unquoted after `-Title=` in the ExifTool command line |
| ExternalTools.FieldCaseIrrelevant | Core/Services.cs:163-185 | the case of the field name does not change either tool's result |
| ExternalTools.AtomicParsleyTitleCarriesValue | Core/Services.cs:165 | the title argument is EscapeQuotes of the value between `--title "` and a closing quote, and Unescape inverts EscapeQuotes |
| ExternalTools.TrailingBackslashEscapesClosingQuote | Core/Services.cs:203 | backslashes are not escaped: the value `C:\` leaves `C:\"` on the command line, which reads back with the closing quote taken as part of the value |
| FieldSupport.CountSupported | Core/ViewModels.cs:353-358 | the count of files that do not mark the field Unsupported is at most the number of files |
| FieldSupport.CountSupportedIsCountTrue | Core/ViewModels.cs:353-358 | the loop's counter is the number of files whose support is not Unsupported |
| FieldSupport.CountStep | Core/ViewModels.cs:356-357 | one more file adds one exactly when its support is not Unsupported |
| FieldSupport.CountTrueZeroIff | Core/ViewModels.cs:357 | no flag is set exactly when the count is zero |
| FieldSupport.CountTrueFullIff | Core/ViewModels.cs:357 | every flag is set exactly when the count is the length |
| FieldSupport.CountZeroIffNoneCounts | Core/ViewModels.cs:353-360 | the count is 0 exactly when every file marks the field Unsupported |
| FieldSupport.CountFullIffAllCount | Core/ViewModels.cs:353-362 | the count equals the number of files exactly when no file marks the field Unsupported |
| FieldSupport.NoFilesEnablesAll | Core/ViewModels.cs:359 | with no files the field is enabled with tooltip "No files" |
| FieldSupport.DisabledExactlyWhenUnsupportedEverywhere | Core/ViewModels.cs:359-360 | a field is disabled exactly when there are files, none supports it and hidden fields are not shown; IsEnabled then equals ShowHiddenFields |
| FieldSupport.VisibilityAllIff | Core/ViewModels.cs:359-362 | the tooltip is "Supported in all" exactly when there are files and all support the field |
| FieldSupport.SupportedInAllExactly | Core/ViewModels.cs:354-362 | "Supported in all" appears exactly when there are files and every one counts |
| FieldSupport.PartialSupportTooltip | Core/ViewModels.cs:361 | with some but not all files counting, the field is enabled with "Supported k/total" and 0 < k < total |
| FieldSupport.NoMatrixCountsEverything | Core/ViewModels.cs:353-362 | without a matrix every file counts, so every field reads "Supported in all" once there is a file |
| FileList.GetExtension | Core/ViewModels.cs:47 | Path.GetExtension: "" or a dot-led suffix of the path with no further dot or separator |
| FileList.ExtensionOfSuffix | Core/ViewModels.cs:47 | a name ending in a dot-led suffix with no dot or separator has that extension |
| FileList.BackupSuffixIsExtension | Core/ViewModels.cs:211 | ".bak_mme" has the form of an extension |
| FileList.BackupSuffixNotSupported | Core/Services.cs:16 | ".bak_mme" is not an allowed extension |
| FileList.BackupIsNotSupported | Core/ViewModels.cs:149-150 | a backup file has extension ".bak_mme", which AddFiles refuses |
| FileList.FlvNotAdmitted | Core/Services.cs:16 | a ".flv" file is never added |
| FileList.FileItem.constructor | Core/ViewModels.cs:45 | the item holds the given path |
| FileList.FileItem.Extension | Core/ViewModels.cs:47 | the lower-cased extension of the path, "" or starting with a dot |
| FileList.NewPaths | Core/ViewModels.cs:143-153 | the paths already loaded stay in front, and at most one path is added per input path |
| FileList.NewPathsAreAdmissible | Core/ViewModels.cs:147-152 | every added path is non-blank, exists, has an allowed extension, and comes from the input |
| FileList.NewPathsStayDistinct | Core/ViewModels.cs:151-152 | AddFiles never creates a case-insensitive duplicate |
| FileList.NewPathsStep | Core/ViewModels.cs:143-153 | one iteration appends the path exactly when it is admissible and absent ignoring case |
| FileList.NewPathsExtends | Core/ViewModels.cs:147-152 | one more input path either appends itself or changes nothing |
| FileList.ContainsIgnoreCaseGrows | Core/ViewModels.cs:151 | a present path stays present when more are appended |
| FileList.NewPathsCoverAdmissible | Core/ViewModels.cs:147-152 | every admissible input path is in the list afterwards, up to case |
| FileList.NewPathsIgnoreInadmissible | Core/ViewModels.cs:147-150 | an inadmissible path changes nothing |
| FileList.Deduped | Core/ViewModels.cs:177 | the result is no longer than the list, and holds only items of the list |
| FileList.DedupedPrefix | Core/ViewModels.cs:177 | order is kept: deduplicating a prefix gives a prefix of the result |
| FileList.DedupedKeepsPath | Core/ViewModels.cs:177 | every path of the list is still represented |
| FileList.DedupedCovers | Core/ViewModels.cs:177 | a path is represented afterwards exactly when it was before |
| FileList.DedupedDistinct | Core/ViewModels.cs:177 | no two items of the result share a path, ignoring case |
| FileList.DedupedOfDistinct | Core/ViewModels.cs:177 | a list without duplicates is unchanged |
| FileList.DedupedIdempotent | Core/ViewModels.cs:177 | deduplicating twice is deduplicating once |
| FileList.DedupedKeepsFirst | Core/ViewModels.cs:177 | the first item with each path is the one kept |
| FileList.RemoveFirst | Core/ViewModels.cs:163 | Files.Remove changes nothing when the object is absent, and otherwise drops one item; only items of the list remain, and every other item remains |
| FileList.RemoveFirstAt | Core/ViewModels.cs:163 | with the first occurrence at i, the result is the items before i followed by the items after i |
| FileList.RemoveFirstKeepsOrder | Core/ViewModels.cs:163 | Files.Remove drops the object at its first position and keeps the items before and after it in their order |
| FileList.IndexOf | Core/ViewModels.cs:163 | the first position of the object: it is there and not earlier |
| FileList.RemoveAll | Core/ViewModels.cs:162-163 | only listed items remain, and every unselected item remains |
| FileList.RemoveFirstDistinct | Core/ViewModels.cs:163 | in a list without repeats, the removed object is gone |
| FileList.RemoveAllExact | Core/ViewModels.cs:162-163 | without repeats, exactly the unselected items remain |
| FileList.Unselected | Core/ViewModels.cs:162-163 | exactly the items of the list that are not selected |
| FileList.UnselectedCongruent | Core/ViewModels.cs:162-163 | the filter depends only on which items are selected |
| FileList.RemoveFirstOfUnselected | Core/ViewModels.cs:163 | removing one more object from the filtered list is filtering by the larger selection |
| FileList.RemoveAllKeepsOrder | Core/ViewModels.cs:162-163 | without repeats, RemoveSelected leaves the unselected items in their original order, which is the order ApplyAsync then follows |
| SubstringRemoval.StripField | Core/ViewModels.cs:280-286 | only the chosen field changes, and never grows; other fields and an unknown key change nothing |
| SubstringRemoval.Render | Core/ViewModels.cs:277-289 | a log line starts with the path; what follows is exactly ",NO_TAG" for a file that did not open, ",ERR," and then the message for a failure, ",OK," and then the field, the old text, "->" and the new text for a success, and these three forms never overlap |
| SubstringRemoval.StripFile | Core/ViewModels.cs:276-289 | NO_TAG exactly when opening fails; OK exactly when the switch does not dereference a missing tag and the save succeeds; the save or null-reference message otherwise; the file changes only on OK |
| SubstringRemoval.AbsentSubstringKeepsTitle | Core/ViewModels.cs:282 | a title without the substring is unchanged and logged on both sides |
| SubstringRemoval.AbsentSubstringKeepsPerformers | Core/ViewModels.cs:284 | performers without the substring are unchanged |
| SubstringRemoval.RepeatedSubstringEmptiesTitle | Core/ViewModels.cs:282 | a title made of copies of the substring, in any case, becomes empty |
| Text.TrimLeadingDots | Core/Services.cs:234 | drops exactly the leading dots |
| Text.TrimLeadingDotsOfLower | Core/Services.cs:234 | trimming and lower-casing commute |
| Text.NatToString | Core/ViewModels.cs:156 | decimal digits with no leading zero, denoting the number |
| Text.RemoveIgnoreCaseNoOccurrence | Core/ViewModels.cs:282 | Replace(sub, "") leaves text without an occurrence unchanged |
| Text.RemoveIgnoreCaseRepeated | Core/ViewModels.cs:282 | Replace(sub, "") empties a repetition of sub |
| Text.ParseUintOfToString | Core/Services.cs:143 | uint.TryParse accepts the decimal text of any uint |
| Text.ParseUintRejectsLetters | Core/Services.cs:143 | uint.TryParse refuses text with a letter in it |
| WriteCascade.PlanOrder | Core/ViewModels.cs:221-241 | the attempts are AP-title, Exif-title, AP-comment, Exif-comment |
| WriteCascade.PlanSkipsBlank | Core/ViewModels.cs:222-232 | only present, non-blank Title and Comment values are ever tried |
| WriteCascade.CascadeWroteIff | Core/ViewModels.cs:221-241 | `wrote` holds exactly when some attempt succeeds |
| WriteCascade.CascadeCalls | Core/ViewModels.cs:224-239 | the calls made are the attempts up to the first success, or all of them |
| WriteCascade.CascadeMessages | Core/ViewModels.cs:225-244 | without a success every attempt leaves its "AP:"/"Exif:" error, in order |
| WriteCascade.CascadeAppend | Core/ViewModels.cs:232 | the comment block runs only when the title block did not write |
| WriteCascade.TwoStepCascade | Core/ViewModels.cs:224-230 | one field's block: ExifTool is tried only after AtomicParsley fails |
| WriteCascade.FileStep | Core/ViewModels.cs:206-250 | the report names the file with one "Write" entry; only the backup can be added to the files on disk |
| WriteCascade.PrimarySuccessMakesNoExternalCall | Core/ViewModels.cs:215-218 | a successful primary write gives Success/"TagLib" and no external call |
| WriteCascade.CopyFailureIsFailed | Core/ViewModels.cs:209-250 | a failed backup copy gives Failed with its message, and nothing is written |
| WriteCascade.ExistingBackupKept | Core/ViewModels.cs:212 | an existing backup is never copied over |
| WriteCascade.BackupExistsAfterStep | Core/ViewModels.cs:209-213 | after a step that did not fail, with backups on, the backup exists |
| WriteCascade.FallbackOutcome | Core/ViewModels.cs:219-244 | when TagLib fails: Success/"External" if some attempt succeeds, otherwise Partial with the errors joined by "; " and every attempt made |
| WriteCascade.TryBothTools | Core/ViewModels.cs:224-230 | one field's block computes that block's cascade |
| WriteCascade.ProcessFile | Core/ViewModels.cs:206-251 | the loop body computes the file's step |
| WriteCascade.RunFallback | Core/ViewModels.cs:221-241 | the title block then the comment block compute the full cascade |
| WriteCascade.Batch | Core/ViewModels.cs:204-252 | one report per target, in target order, each naming its file with one "Write" entry |
| WriteCascade.BatchStep | Core/ViewModels.cs:204-252 | the batch over one more target extends by that target's step |
| WriteCascade.BatchPrefix | Core/ViewModels.cs:204-252 | a file's report does not depend on later targets |
| WriteCascade.BatchWithoutBackup | Core/ViewModels.cs:209-213 | without backups, each report is the file's step on its own, and no file is created |
| WriteCascade.BatchExistingWithoutBackup | Core/ViewModels.cs:209 | without backups, the files on disk are unchanged |
| MainView.FieldVM.constructor | Core/ViewModels.cs:53-58 | a new field is checked and enabled, with empty value and tooltip |
| MainView.FieldVM.ShowSupport | Core/ViewModels.cs:359-362 | IsEnabled and Tooltip take the policy's values, and the check mark and value are kept |
| MainView.CheckedValues | Core/ViewModels.cs:200 | the edit dictionary has exactly the checked fields' keys |
| MainView.CheckedValuesHoldValues | Core/ViewModels.cs:200 | each checked field's key maps to its own value |
| MainView.ChosenField | Core/ViewModels.cs:268 | the first checked field's key, or "Title" when none is checked |
| MainView.CountSupporting | Core/ViewModels.cs:353-358 | the inner loop counts the files whose support is not Unsupported |
| MainView.CountsExtend | Core/ViewModels.cs:351-358 | appending the next field's count keeps the counts right |
| MainView.CountAll | Core/ViewModels.cs:351-358 | one correct count per field |
| MainView.ShowAll | Core/ViewModels.cs:351-363 | every field gets the policy's state for its count, and nothing else of it changes |
| MainView.AddIfNew | Core/ViewModels.cs:145-153 | a fresh item is appended exactly when the path is admissible and absent ignoring case; duplicates of objects are never created |
| MainView.AppendNew | Core/ViewModels.cs:143-155 | the paths become NewPaths; loaded items stay in front, in order |
| MainView.RunBatch | Core/ViewModels.cs:204-252 | the loop computes the batch |
| MainView.StripAll | Core/ViewModels.cs:272-290 | the loop computes the removal log |
| MainView.MainViewModel.constructor | Core/ViewModels.cs:94-114 | the thirteen fields in order with their labels, all checked and enabled; empty lists; the stored presets in their order; status "Ready" |
| MainView.MainViewModel.UpdateFieldSupport | Core/ViewModels.cs:348-365 | every field shows the policy's state for the current files, with check marks and values kept |
| MainView.MainViewModel.Targets | Core/ViewModels.cs:196 | SelectedFiles when it is non-empty, else Files; empty exactly when both are |
| MainView.MainViewModel.AddFiles | Core/ViewModels.cs:140-158 | Files' paths become NewPaths of the old ones; loaded items stay in front, in order; the status is "N files loaded"; field support is refreshed |
| MainView.MainViewModel.RemoveEachSelected | Core/ViewModels.cs:162-163 | Files becomes RemoveAll of the selection, nothing else changes |
| MainView.MainViewModel.RemoveSelected | Core/ViewModels.cs:160-166 | the selected items are removed, the selection is empty, and field support is refreshed |
| MainView.MainViewModel.ClearAll | Core/ViewModels.cs:168-173 | both lists are empty and every field is enabled with "No files" |
| MainView.MainViewModel.Refill | Core/ViewModels.cs:178-179 | Files becomes the given items, in order |
| MainView.MainViewModel.Dedupe | Core/ViewModels.cs:175-181 | Files becomes Deduped of the old Files, and field support is refreshed |
| MainView.MainViewModel.ApplyAsync | Core/ViewModels.cs:194-258 | without targets or confirmation nothing happens; otherwise the reports, backups and calls are the batch over the targets' paths with the checked values, and the status ends "Ready" |
| MainView.MainViewModel.RemoveSubstringAsync | Core/ViewModels.cs:261-290 | a cancelled or empty answer does nothing; otherwise the log is the removal over the targets for the chosen field |

## Left out

- The WPF user interface is left out: dialogs, all `MessageBox` calls,
  `AddFilesDialog`, `PreviewSelected`, `SavePreset`, `DeletePreset`,
  `ExportReport`, `ToggleTheme`, `OpenCapability`, the `RelayCommand` and
  `ObservableObject` plumbing, Helpers/SelectedItemsBehavior.cs, and the
  PromptWindow and MainWindow code. Dialog answers are parameters instead.
- The ListBox binding of Helpers/SelectedItemsBehavior.cs is left out, and
  with it the way it prunes SelectedFiles when items leave the list box.
  RemoveSelected and ClearAll clear SelectedFiles themselves, so this
  matters only for Dedupe. In the running application, its `Files.Clear()`
  deselects every item, and the binding then removes them from
  SelectedFiles. `MainView.MainViewModel.Dedupe` keeps SelectedFiles as
  the view model's own code does. After a Dedupe,
  the model's ApplyAsync and RemoveSubstringAsync therefore target the old
  selection, whereas the application targets all files.
- `RestoreBackupDialog` is modelled only for its suffix logic (`OriginalPath`).
  The `File.Copy` onto the original is a side effect on the file system.
- Starting processes and reading stderr are one oracle value per call
  (`ProcessRun`). The source does not enforce its time-outs: it ignores
  the result of `WaitForExit(15000)` and `WaitForExit(20000)`, and
  `StandardError.ReadToEnd()` then waits until the tool closes stderr,
  normally when it exits. A slow tool therefore ends as an ordinary
  `Exited` after an unbounded wait, or never. `ExitCodeThrows` covers only
  the case where stderr closes while the process is still running.
- `ExternalTools.Escape` follows the source, which escapes only double
  quotes. A value ending in a backslash therefore runs into the closing
  quote of its argument for any reader that treats `\"` as a quote (see
  `ExternalTools.TrailingBackslashEscapesClosingQuote`). How the tools
  themselves split their command line is not modelled.
- The ExifTool switches `-Title=`, `-Comment=` and `-Director=` are not
  quoted in the source. Under the usual Windows command-line splitting, a
  value with a space therefore becomes several arguments (see `ExternalTools.ExifToolTitleUnquoted`). The
  model keeps the command line as the source builds it. What ExifTool
  then writes for such a value is not modelled.
- TagLib's `File.Create` and `Save`, `File.Copy` and `File.Exists` are
  oracles: `MediaFile`, `FileEnv.copyError`, `onDisk` and `existing`.
- JSON parsing and serialisation are oracles. These are the
  configuration, matrix and preset files. A preset list is assumed to
  round-trip through JSON.
- The report and log file writes and their time-stamped names are left
  out. The model returns the report list and the log entries instead.
  `SubstringRemoval.Render` gives the text of each log line.
- `lock (locker)` and `async`/`await` are left out, because the model is
  sequential.
- `OrdinalIgnoreCase` and `ToLowerInvariant` are approximated by an ASCII
  case fold. Non-ASCII letters compare exactly.
- `EndsWith(".bak_mme")` is modelled as an ordinal suffix test.
- `Path.GetExtension` is modelled for Windows separators only. It does not
  model invalid-path exceptions, which the AddFiles catch would swallow.
- A path that appears twice among the targets gets the same oracle answers
  both times. Only the set of existing files carries state between files.
- C# null strings and arrays are modelled as "" and []. `Value ?? ""` and
  `tag.Title ?? ""` are therefore the identity.
- The edit dictionary of ApplyAsync is built with an `OrdinalIgnoreCase`
  comparer. The model uses an exact-key map, in `MainView.CheckedValues`,
  `TagBackend.TryWriteBasic` and `TagBackend.EditedIgnoresOtherKeys`. With
  the thirteen fixed field keys the difference cannot be observed. A
  lower-case key such as "title" would edit the title in C#, but is
  ignored in the model.
- `ToDictionary` in ApplyAsync would throw on a duplicate key. It cannot
  throw here, because the thirteen field keys differ even ignoring case,
  so the throw is not modelled.
- The matrix lookup's `catch` turning exceptions into `Unknown` is not
  modelled, since no step of the lookup can fail in the model.
- `MainView.MainViewModel.UpdateFieldSupport` computes every field's
  count before assigning any field. The source interleaves counting and
  assigning per field. The result is the same, because counting reads
  only the files and the matrix.
- `MainView.MainViewModel.AddFiles`: the freshness of each new
  `FileItem` is stated per step in `MainView.AddIfNew`. It is not carried
  through the loop. Only the absence of repeated objects is.
- `MainView.MainViewModel.ApplyAsync`: the intermediate status
  "Processing..." is not observable in the postcondition. Only the final
  "Ready" is stated.
- `MainView.MainViewModel.RemoveSubstringAsync` returns the log entries
  and the file states. Whether `Save` changes a file is the `MediaFile`
  oracle's `saveError`.
- `SettingsSvc.MaxBatchDefault` and `MediaInfoPath` are loaded but not
  used by the core.
