# Bookaneer back-end model

A Dafny 4.11 model of the parts of Bookaneer's back end that carry state machines, loops and arithmetic, with
proofs of what they promise. `dafny verify dfyconfig.toml` checks the whole project.

| files | what they model |
|---|---|
| `Template`, `TemplateLoops`, `TemplateFacts`, `TemplateFields`, `TemplateValues`, `TemplateCheck`, `TemplateOrder` | the naming template language: blocks, ordered textual substitution, and a parser with a one-pass renderer as reference; what each variable prints and depends on |
| `Text`, `Paths`, `PathFacts`, `Naming`, `NamingFacts`, `PathInfo`, `Rename`, `RenameFacts` | Go's string and path functions, the destination of a book file, reading it back, the batch rename |
| `CommandProtocol`, `CommandSafety`, `CommandCancel`, `CommandOnce`, `CommandHistory`, `Scheduler`, `Tasks` | the command queue as interleaved atomic steps, whole-run safety, what the table says about the run, the scheduler object, scheduled tasks |
| `HubProtocol`, `Hub` | the WebSocket hub: channel lifetime and delivery |
| `Import`, `ImportSafety`, `PendingImport`, `QueueLife`, `Downloads`, `QueueFacts` | the import of a finished download, the recovery run, the life of a queue row |
| `Streams`, `Direct`, `DirectStatus`, `DirectFacts` | the embedded downloader: preview, retry, replay and copy, and the statuses it shows |
| `Sql`, `DirWalk`, `DirTree`, `LibraryScan`, `ScanIndex`, `ScanNames` | SQLite's LIKE on paths, the directory walk, the library scanner |
| `DiskTree`, `TreeCopy`, `RootFolder` | moving a root folder: tree copy against rename, path rewriting |
| `Dice`, `ContentCheck`, `ContentFacts` | the bigram score and the content verdict |
| `Isbn` | the check digits of ISO 2108 |
| `Options` | the optional value they share |

Tables are maps of rows, the disk is a map from paths to contents, time is an integer clock. A protocol is a set of
atomic steps with an invariant over every run; where the source is an object, a class has one method per step or
operation whose contract ties the object's state to the specification, and the lemmas are about the specification.
What a call into the outside returns (a failing write, an order of map keys, the split of a body into reads) is a
parameter or a nondeterministic choice, so every result holds for all of them.

## Where the code gives less than it seems to

- **Naming.** `$Series` is a prefix of two other tokens, and kept blocks are substituted before the joined text is
  substituted again. A template such as `$SeriesPos{ition}` is therefore read as `$SeriesPosition`. It is not enough
  that no block or `$SeriesPosition` directly follows `$Series`: `Template.ExpandIsRender` has the exact condition,
  `TemplateFacts.SafeTemplateRenders` a check on the template, `TemplateFacts.SplitTemplateMisread` the failing family.
  So the position can have influence although the template does not name it (`TemplateFields.IgnoresPositionIff`).
- **Template check.** The comment says that only known variables are accepted; `$Ti$Authortle` is accepted too
  (`TemplateCheck.CutTokenAccepted`, `TemplateCheck.CutAcceptedIff`).
- **Reading back.** An author with a slash comes back as author and title (`PathInfo.SlashAuthorSplits`), a title that
  ends in the extension comes back without it (`PathInfo.ExtensionTitleShortens`); `PathInfo.FolderLayoutRoundTrip` has
  the exact condition.
- **Rename.** Two files with one target overwrite each other (`Rename.SharedTargetLosesFile`; the exact conditions are
  `Rename.IterationKeepsIff`, `Rename.BatchKeepsIff` and `Rename.WorkingBatchKeepsIff`). The batch leaves `$Quality`
  empty (`Rename.BatchErasesQuality`), while the sample shown for a template fills it
  (`internal/core/naming/engine.go:297-309`).
- **Scheduler.** The row is still queued between the query and the mark, so a slow worker allows a second dispatch
  of every queued command (`CommandOnce.SlowWorkerRunsTwice`; the exact condition for at most one call between two
  starts is `CommandOnce.OncePerStartIff`); a worker's last write replaces `cancelled`, and
  `CommandCancel.StaysCancelledIffQuiet` has the exact condition under which that cannot happen any more.
- **Import.** Errors of the clean-up query and deletion are ignored (`ImportSafety.SecondRowIff`), a failure after the
  clean-up leaves the book without a row (`ImportSafety.HasRowIff`), and another book's file can be overwritten before
  the table refuses the row (`ImportSafety.SharedDestinationOverwrites`, `ImportSafety.BytesKeptIff`).
- **Queue.** A restarted download is added without its save path (`QueueLife.StalePathIsLost`,
  `QueueLife.LivePathIff`), and deleting a download client can strand its rows (`QueueLife.DeletingClientStrands`).
- **Downloader.** The response after a solved challenge is not checked for HTML again (`Direct.PageIsKeptIff`), so a
  second challenge page becomes the file (`Direct.SecondChallengeBecomesFile`). Two downloads under one id take each
  other's status back (`DirectStatus.SharedIdRegresses`; the exact condition is `DirectStatus.ForwardIffNewIds`).
- **Scanner.** The filter is `LIKE root || '%'`: rows outside the root that it selects, such as those of a sibling
  `/lib2` or of `/LIB`, are removed by a scan of `/lib` (`LibraryScan.OutsideRowsKeptIff`,
  `LibraryScan.SiblingRowsRemoved`), and an unreachable root loses all its rows
  (`LibraryScan.MissingRootEmptiesIndex`).
- **Migration.** The same filter selects rows by case-insensitive match and wildcards, while the folder path is
  rewritten by a case-sensitive text search (`RootFolder.RewritesDiverge`, `RootFolder.RewritesAgreeIff`). The two
  root paths are compared before a slash at their end is cut off, so moving a root to its own path with a slash more
  moves every author folder onto itself and loses it (`RootFolder.MoveOntoItselfLoses`). An error may come after the
  commit, with all three tables rewritten (`RootFolder.RootFolders.MoveRootFolder`).
- **Content check.** An empty author list counts as a full score, so a first author can make a file a mismatch
  (`ContentCheck.AddingAuthors`).

## Model

| member | source | states |
|---|---|---|
| `Template.ExpandIsRender` | internal/core/naming/engine.go:157-242 | For every template whose `$`s all start known variables and all `$`-free values, the block pass plus the ten ordered replace passes leave no `$`, equal a one-pass longest-match rendering of the parsed template when no `$Series` is completed to a longer token, and (for positions shorter than the series title plus eight) equal it only then |
| `Template.PassText` | internal/core/naming/engine.go:222-242 | One textual replace pass, read on parsed segments: it fires at its own tokens and at a `$Series` that the text after it completes, and nowhere else |
| `Template.PassesAreOneReading` | internal/core/naming/engine.go:222-242 | Ten passes against one reading: no `$` is left; equal when seamless; strictly shorter otherwise under the short-position guard |
| `Template.ContainsIsParsed` | internal/core/naming/engine.go:198-220 | The substring test of a block finds a token exactly when the parsed block has that variable, or, for `$Series`, one of the two longer variables |
| `Template.PresentIsKept` | internal/core/naming/engine.go:198-220 | A block is kept exactly when all its variables have values and `$SeriesPosition` also has a series name |
| `Template.ConditionalsLayout` | internal/core/naming/engine.go:174-196 | The text between the two stages is the layout of the parsed template: every kept block replaced by its own substitution |
| `Template.LongestVar` | internal/core/naming/engine.go:222-242 | The reading used as reference picks the longest known token at a `$`, and none where no token starts |
| `TemplateLoops.ReplaceTokens` | internal/core/naming/engine.go:222-242 | The replacement loop computes the composition of the ten passes |
| `TemplateLoops.NextPiece` | internal/core/naming/engine.go:176-194 | One turn of the block loop: what is written and how far the index moves account for the whole rest |
| `TemplateLoops.ProcessConditionals` | internal/core/naming/engine.go:174-196 | The buffer loop computes the block pass for every template, unclosed braces included |
| `TemplateFacts.SafeTemplateRenders` | internal/core/naming/engine.go:157-242 | A check on the template alone (no `$Series` before a beginning of `Name` or `Position` that a block or `$SeriesPosition` could finish) guarantees the one-pass rendering for all values |
| `TemplateFacts.SplitTemplateMisread` | internal/core/naming/engine.go:174-242 | Every template that cuts `Name` or `Position` in two, half after `$Series` and half in a block, is rendered differently from its reading (`Position` when the value is shorter than the series title plus eight) |
| `TemplateFields.ExpandIgnoresOriginalName` | internal/core/naming/engine.go:157-242 | Without `$OriginalName` in the template its value has no influence |
| `TemplateFields.ExpandIgnoresAuthor` | internal/core/naming/engine.go:157-242 | Without `$Author` in the template the field behind it has no influence |
| `TemplateFields.ExpandIgnoresSortAuthor` | internal/core/naming/engine.go:157-242 | Without `$SortAuthor` in the template the field behind it has no influence |
| `TemplateFields.ExpandIgnoresTitle` | internal/core/naming/engine.go:157-242 | Without `$Title` in the template the field behind it has no influence |
| `TemplateFields.ExpandIgnoresYear` | internal/core/naming/engine.go:157-242 | Without `$Year` in the template the field behind it has no influence |
| `TemplateFields.ExpandIgnoresFormat` | internal/core/naming/engine.go:157-242 | Without `$Format` in the template the field behind it has no influence |
| `TemplateFields.ExpandIgnoresQuality` | internal/core/naming/engine.go:157-242 | Without `$Quality` in the template the field behind it has no influence |
| `TemplateFields.ExpandIgnoresSeries` | internal/core/naming/engine.go:157-242 | Without `$Series` in the template, and so without its longer forms, the series has no influence |
| `TemplateFields.IgnoresPositionIff` | internal/core/naming/engine.go:157-242 | A template without `$SeriesPosition` does not depend on the position exactly when the text after the block pass does not contain it either |
| `TemplateValues.PrintsAuthor` | internal/core/naming/engine.go:222-242 | The template `$Author` prints the author |
| `TemplateValues.PrintsSortAuthor` | internal/core/naming/engine.go:222-242 | The template `$SortAuthor` prints the sort author |
| `TemplateValues.PrintsTitle` | internal/core/naming/engine.go:222-242 | The template `$Title` prints the title |
| `TemplateValues.PrintsSeries` | internal/core/naming/engine.go:222-242 | The template `$Series` prints the series |
| `TemplateValues.PrintsSeriesName` | internal/core/naming/engine.go:222-242 | The template `$SeriesName` prints the series |
| `TemplateValues.PrintsSeriesPosition` | internal/core/naming/engine.go:222-242 | The template `$SeriesPosition` prints the series position |
| `TemplateValues.PrintsYear` | internal/core/naming/engine.go:222-242 | The template `$Year` prints the year |
| `TemplateValues.PrintsFormat` | internal/core/naming/engine.go:222-242 | The template `$Format` prints the format |
| `TemplateValues.PrintsQuality` | internal/core/naming/engine.go:222-242 | The template `$Quality` prints the quality |
| `TemplateValues.PrintsOriginalName` | internal/core/naming/engine.go:222-242 | The template `$OriginalName` prints the original name |
| `TemplateValues.TitleAndYear` | internal/core/naming/engine.go:174-242 | `$Title{ ($Year)}` prints the title, and the year in brackets when there is one |
| `TemplateValues.UnclosedBrace` | internal/core/naming/engine.go:177-183 | A brace that is not closed is printed as it is |
| `TemplateValues.SeriesPositionBeforeSeriesName` | internal/core/naming/engine.go:223-241 | A field printed for `$SeriesPosition` that is the text `$SeriesName` is replaced once more: this pass comes later |
| `TemplateValues.SeriesNameBeforeSortAuthor` | internal/core/naming/engine.go:223-241 | A field printed for `$SeriesName` that is the text `$SortAuthor` is replaced once more: this pass comes later |
| `TemplateValues.SortAuthorBeforeOriginalName` | internal/core/naming/engine.go:223-241 | A field printed for `$SortAuthor` that is the text `$OriginalName` is replaced once more: this pass comes later |
| `TemplateValues.OriginalNameBeforeAuthor` | internal/core/naming/engine.go:223-241 | A field printed for `$OriginalName` that is the text `$Author` is replaced once more: this pass comes later |
| `TemplateValues.AuthorBeforeSeries` | internal/core/naming/engine.go:223-241 | A field printed for `$Author` that is the text `$Series` is replaced once more: this pass comes later |
| `TemplateValues.SeriesBeforeTitle` | internal/core/naming/engine.go:223-241 | A field printed for `$Series` that is the text `$Title` is replaced once more: this pass comes later |
| `TemplateValues.TitleBeforeYear` | internal/core/naming/engine.go:223-241 | A field printed for `$Title` that is the text `$Year` is replaced once more: this pass comes later |
| `TemplateValues.YearBeforeFormat` | internal/core/naming/engine.go:223-241 | A field printed for `$Year` that is the text `$Format` is replaced once more: this pass comes later |
| `TemplateValues.FormatBeforeQuality` | internal/core/naming/engine.go:223-241 | A field printed for `$Format` that is the text `$Quality` is replaced once more: this pass comes later |
| `TemplateFacts.EmptyVariableErased` | internal/core/naming/engine.go:174-220 | A variable without a value disappears together with every block that has it |
| `TemplateCheck.IsValidTemplate` | internal/core/naming/engine.go:312-328 | The removal loop and the scan for `$` accept exactly the templates that the ordered removals leave without `$` |
| `TemplateCheck.KnownVariablesAccepted` | internal/core/naming/engine.go:312-328 | Every template of known variables only is accepted |
| `TemplateCheck.AcceptedIffKnown` | internal/core/naming/engine.go:312-328 | When no `$` that starts no known token is cut short, directly before another `$`, at a beginning of one, exactly the templates of known variables are accepted |
| `TemplateCheck.CutTokenAccepted` | internal/core/naming/engine.go:312-328 | A token cut in two by another one, other than the longer forms of `$Series`, is accepted exactly when the cutting token is removed first, although its `$` starts no known variable |
| `TemplateCheck.CutAcceptedIff` | internal/core/naming/engine.go:312-328 | Any text behind a `$` that starts no known variable, cut by any known variable: accepted exactly when taking the variable away joins the two sides to a token that is removed later |
| `TemplateOrder.AuthorFirst` | internal/core/naming/engine.go:313-320 | `$S$AuthorortAuthor` is accepted: `$Author` is removed before `$SortAuthor` |
| `TemplateOrder.SortAuthorBeforeTitle` | internal/core/naming/engine.go:313-320 | `$T$SortAuthoritle` is accepted |
| `TemplateOrder.TitleBeforeSeries` | internal/core/naming/engine.go:313-320 | `$S$Titleeries` is accepted |
| `TemplateOrder.SeriesBeforeSeriesName` | internal/core/naming/engine.go:313-320 | `$S$SerieseriesName` is accepted |
| `TemplateOrder.SeriesBeforeSeriesPosition` | internal/core/naming/engine.go:313-320 | `$S$SerieseriesPosition` is accepted |
| `TemplateOrder.YearAfterSeriesName` | internal/core/naming/engine.go:313-320 | `$S$YeareriesName` is not accepted |
| `TemplateOrder.YearAfterSeriesPosition` | internal/core/naming/engine.go:313-320 | `$S$YeareriesPosition` is not accepted |
| `TemplateOrder.YearBeforeFormat` | internal/core/naming/engine.go:313-320 | `$F$Yearormat` is accepted |
| `TemplateOrder.FormatBeforeQuality` | internal/core/naming/engine.go:313-320 | `$Q$Formatuality` is accepted |
| `TemplateOrder.QualityBeforeOriginalName` | internal/core/naming/engine.go:313-320 | `$O$QualityriginalName` is accepted |
| `Naming.CollapseRepeated` | internal/core/naming/engine.go:279-294 | The loop drops exactly the repeated neighbours |
| `Naming.CollapseNoDouble` | internal/core/naming/engine.go:279-294 | No two neighbouring occurrences are left |
| `Naming.SanitizeFilenameShape` | internal/core/naming/engine.go:258-267 | A sanitized stem has no slash, no two neighbouring dots, and no dot at either end |
| `Naming.RelativeNames` | internal/core/naming/engine.go:138 | The cleaned relative path is the folder's names followed by the file, and has no `..` |
| `Naming.DestinationBelowRoot` | internal/core/naming/engine.go:121-147 | For an absolute root and a format without dots and separators: neither folder nor file contains `..`, the file is one component ending in the lowercased extension, and the full path is the cleaned root followed by those names |
| `Naming.DestinationIgnoresOriginalName` | internal/core/naming/engine.go:121-147 | Without `$OriginalName` the destination does not depend on the file's present name |
| `NamingFacts.ColonSpelled` | internal/core/naming/engine.go:244-256 | A colon becomes a space, nothing, or in every other mode a space and a dash; a text without colons stays |
| `NamingFacts.SpacesBecomeDots` | internal/core/naming/engine.go:157-172 | With the replacement of spaces a name that needs no other change has a dot for every space and is the same elsewhere |
| `NamingFacts.CollapsePair` | internal/core/naming/engine.go:279-294 | Of two neighbouring occurrences one goes, wherever they stand |
| `NamingFacts.CollapseNothing` | internal/core/naming/engine.go:279-294 | A text without neighbouring occurrences stays |
| `Naming.TrimPart` | internal/core/naming/engine.go:169 | Trimming takes the longest runs of cut characters from both ends and nothing from between |
| `NamingFacts.BadSpelled` | internal/core/naming/engine.go:258-277 | The characters that become underscores: eight in a file name, the same without the slash in a folder |
| `NamingFacts.PlainStays` | internal/core/naming/engine.go:157-277 | A name without colons, slashes, bad characters, runs and cut characters at its ends goes through all steps unchanged |
| `NamingFacts.LowerSpelled` | internal/core/naming/engine.go:133 | Lower-casing moves the letters A to Z by 32 and leaves every other character |
| `NamingFacts.ExtensionOnce` | internal/core/naming/engine.go:130-134 | The extension is appended unless the name ends in it already |
| `NamingFacts.DefaultDestination` | internal/core/naming/engine.go:53-59 | With the default settings a book with plain names goes to root, author, `author - title.format` |
| `Paths.JoinBelow` | internal/core/naming/engine.go:139 | Joining a rooted path with a relative one without `..` appends its names to the root's components |
| `Paths.CleanPathNotEmpty` | internal/wanted/fileutil.go:80-84 | A cleaned path is never empty |
| `PathFacts.OneMoreElement` | internal/core/naming/engine.go:138-139 | What one more element of a path does to its cleaned components: empty and `.` nothing, `..` takes a name away, anything else is added |
| `PathFacts.CleanSpelled` | internal/core/naming/engine.go:138-139 | A cleaned path is its components with slashes between them, behind a slash if it was absolute |
| `PathFacts.RelSpelled` | internal/core/library/scanner.go:315 | A relative path goes up as often as the base has names of its own, and then down the target's |
| `PathFacts.BaseSpelled` | internal/core/naming/engine.go:420 | The base of a path is its last element |
| `PathFacts.DirSpelled` | internal/core/library/scanner.go:237 | The directory of a path is the cleaned path without its last element |
| `PathFacts.ExtSpelled` | internal/core/library/scanner.go:239 | The extension stands from the last dot of the last element on |
| `PathInfo.FolderLayoutReadBack` | internal/core/library/scanner.go:314-339 | What the parser returns for a path printed with folder `$Author` and file `$Title`, for every author and title: its folders may be none, one or more |
| `PathInfo.FolderLayoutRoundTrip` | internal/core/library/scanner.go:314-339 | Printing and parsing give back author and title exactly when the author is one folder name, no normalising or sanitizing step changes author or title, and the title does not end in the file's extension; a book without an author comes back exactly when its title is unchanged, without the extension, and has no ` - ` behind its first character |
| `PathInfo.SlashAuthorSplits` | internal/core/library/scanner.go:331-339 | An author `a/b` that no step changes is read back as author `a` and title `b` |
| `PathInfo.ExtensionTitleShortens` | internal/core/library/scanner.go:314-339 | A title that ends in the file's own extension loses it |
| `PathInfo.RootLayoutRoundTrip` | internal/core/library/scanner.go:325-330 | A root-level `$Author - $Title` file gives both back exactly when no step changes the printed name and its first ` - ` is the template's own; for a book without an author, exactly when the steps leave the bare title, with no ` - ` behind its first character |
| `PathInfo.RootLayoutNeedsAuthor` | internal/core/library/scanner.go:325-330 | With a format that has no dash, a book without an author never comes back from that layout |
| `PathInfo.ReadBack` | internal/core/naming/engine.go:121-147 | For every folder template the path of a printed file relative to its root is the printed names |
| `Rename.Library.Relocate` | internal/core/naming/engine.go:435-474 | One file: directory, rename, row, rename back on a table error, verdict by verdict |
| `Rename.Library.PreviewRenameAll` | internal/core/naming/engine.go:347-349 | The dry run lists exactly the moves, changes nothing, and Total = Renamed + Skipped |
| `Rename.Library.RenameAll` | internal/core/naming/engine.go:356-478 | Disk and table end as the iterations leave them; the listed moves are those of the dry run; Total = Renamed + Skipped + Errors |
| `Rename.RowsKeepTheirFiles` | internal/core/naming/engine.go:417-475 | With distinct targets that are no other file's path, every row's path holds that file's original content after every iteration, table errors included |
| `Rename.IterationKeepsIff` | internal/core/naming/engine.go:445-468 | One iteration leaves every row with its file exactly unless it moves a file and not its row, and either does not rename back or takes away by renaming back the file of the row that already had the target |
| `Rename.BatchKeepsIff` | internal/core/naming/engine.go:427-475 | Over a batch every row keeps its original content after every iteration exactly when no iteration loses a file in the state it starts from, vacated targets included |
| `Rename.WorkingBatchKeepsIff` | internal/core/naming/engine.go:427-475 | When every call works, the same holds exactly when no file that has to move finds its target taken, read off the starting table, disk and targets: by a file listed earlier at its target, or by any other row's file where it was |
| `Rename.BatchErasesQuality` | internal/core/naming/engine.go:401-422 | The batch fills in no quality, so `$Quality` and every block that has it disappear from the printed name |
| `Rename.ErrorFreeRunArrives` | internal/core/naming/engine.go:417-475 | Without errors every listed row is at its target and no other row changed |
| `Rename.SecondRunSkips` | internal/core/naming/engine.go:417-424 | After an error-free run a second one skips everything, if `$OriginalName` is unused |
| `Rename.SharedTargetLosesFile` | internal/core/naming/engine.go:453-468 | Two files with one target: the first file is overwritten and its row is left without a file |
| `RenameFacts.RenameOneSpelled` | internal/core/naming/engine.go:417-475 | One file: each verdict exactly over where the file is, which calls work, and whether another row has the target; a renamed one has file and row at the full path, with the relative path beside it, and every other row and file stays |
| `RenameFacts.MovesSpelled` | internal/core/naming/engine.go:420-432 | The n-th listed move is that of the n-th file that is not where it belongs: book, old path, new path |
| `RenameFacts.ErrorsSpelled` | internal/core/naming/engine.go:441-468 | The listed errors are exactly the verdicts other than skipped and renamed, with the file's id |
| `RenameFacts.RowsAreNamed` | internal/core/naming/engine.go:458-461 | After an error-free batch every listed row has the naming engine's full path and, if it moved, its relative path |
| `RenameFacts.BatchLineSpelled` | internal/core/naming/engine.go:401-422 | The context of a batch line: the query's columns, four characters of the release date, no quality, the file's name |
| `CommandProtocol.EveryRunKeepsInv` | internal/scheduler/scheduler.go:153-238 | In every interleaving, double dispatch, failing writes, crashes and restarts included: the semaphore's length is the number of live workers and within the limit, every stored cancel function belongs to a live worker of its command, every running row has the live worker that wrote it or a recorded failed write |
| `CommandProtocol.StepKeepsInv` | internal/scheduler/scheduler.go:153-238 | Each atomic step keeps these invariants |
| `CommandProtocol.InitInv` | internal/scheduler/scheduler.go:82-93 | A new scheduler satisfies them, also for a non-positive limit |
| `CommandProtocol.RunningMeansExecuting` | internal/scheduler/scheduler.go:153-238 | In runs whose result writes and recoveries work, every running row has the live worker that wrote it, without exception |
| `CommandSafety.NoCommandLost` | internal/scheduler/commands.go:129-169 | A row once queued keeps its identity through every run and is queued, terminal, or running under the live worker that marked it, or awaiting recovery |
| `CommandSafety.StartRecovers` | internal/scheduler/commands.go:156-169 | After a start whose recovery works no row is running, and what was running is queued again |
| `CommandCancel.CancelledStays` | internal/scheduler/commands.go:92-126 | A row cancelled while the dispatcher does not hold it and its workers have made their last write stays cancelled in every run, and its handler is never called again |
| `CommandCancel.StaysCancelledIffQuiet` | internal/scheduler/scheduler.go:153-238 | A cancelled row stays cancelled in every continuation exactly when it is in that state; otherwise a continuation overwrites it, with a full semaphore too |
| `CommandSafety.PromptRunsAreExclusive` | internal/scheduler/scheduler.go:153-238 | When each worker marks its row before the next query: one worker per command, its cancel function is stored, and no handler runs twice between two starts |
| `CommandSafety.InitExclusive` | internal/scheduler/scheduler.go:82-93 | A new scheduler is in such a state |
| `CommandSafety.CancelReachesExecuting` | internal/scheduler/commands.go:92-100 | In such runs a cancellation signals whichever worker executes the command |
| `CommandOnce.SlowWorkerRunsTwice` | internal/scheduler/scheduler.go:153-203 | While the process runs, every queued command with a registered handler can have it called twice before the next start, whatever the limit, the dispatcher and the workers are doing |
| `CommandOnce.OncePerStartIff` | internal/scheduler/scheduler.go:153-238 | A handler is called at most once between two starts, in every continuation, exactly when its command cannot be dispatched (not queued, no registered handler, or the process is down) and either has not been called and at most one of dispatcher and workers holds it, or has been called once and nobody does |
| `CommandHistory.EveryRowIsExplained` | internal/scheduler/scheduler.go:188-237 | In every run of a new scheduler each status in the table was written for what happened: running by a worker that marked it, completed after a handler that returned nil, failed after one that returned an error or for want of a handler, cancelled by a cancellation, each with the time of that write |
| `CommandHistory.CompletedMeansReturned` | internal/scheduler/scheduler.go:223-234 | From a new scheduler a row is completed only if a worker of its command ran the handler with success and wrote that at the row's end time |
| `CommandHistory.FailedMeansError` | internal/scheduler/scheduler.go:210-234 | A row is failed only if a worker of its command ran the handler with an error, or found none, and wrote that at the row's end time |
| `CommandHistory.NothingFails` | internal/scheduler/scheduler.go:210-237 | A run in which every queued name has a handler and every call succeeds leaves no row failed |
| `CommandHistory.ResultIsWritten` | internal/scheduler/scheduler.go:223-237 | What a handler returned is what its worker's last write records: completed for nil, failed for an error |
| `CommandHistory.CalledOnlyWhenMarked` | internal/scheduler/scheduler.go:193-221 | A handler is called only by a worker that has marked the row running |
| `CommandHistory.RowWritten` | internal/scheduler/commands.go:129-153 | The fields each write leaves in a row, with their times; recovery only queues what was running |
| `CommandHistory.InitIsNew` | internal/scheduler/scheduler.go:82-93 | A new scheduler has no rows and no workers, the given handlers, and the given limit or three |
| `CommandHistory.FirstComeFirstServed` | internal/scheduler/commands.go:103-126 | In every run the dispatcher takes a command that no queued one was queued before |
| `CommandOnce.OneMoreCallIff` | internal/scheduler/scheduler.go:153-238 | At most one more call can come exactly when the command cannot be dispatched and at most one of dispatcher and workers is on the way to the handler |
| `CommandOnce.NoMoreCallsIff` | internal/scheduler/scheduler.go:153-238 | No more call can come exactly when the command cannot be dispatched and nobody is on the way to the handler |
| `CommandSafety.AheadNeverGrows` | internal/scheduler/commands.go:103-126 | Between starts the queued commands ahead of a command never become more |
| `CommandSafety.DispatchShortensTheQueue` | internal/scheduler/commands.go:103-126 | With distinct queue times they become fewer each time the first one leaves the queue |
| `Scheduler.Scheduler.constructor` | internal/scheduler/scheduler.go:82-93 | A limit of zero or less becomes three |
| `Scheduler.Scheduler.QueueCommand` | internal/scheduler/commands.go:16-39 | Inserts one queued row with priority 0; a payload that cannot be encoded or an insert that fails changes nothing |
| `Scheduler.Scheduler.NextQueued` | internal/scheduler/commands.go:103-126 | The query returns a queued row that no queued row comes before, or none when none is queued |
| `Scheduler.Scheduler.FetchCommand` | internal/scheduler/scheduler.go:155-161 | The dispatcher's query is the protocol's fetch |
| `Scheduler.Scheduler.TryAcquire` | internal/scheduler/scheduler.go:164-171 | A free slot starts a worker, a full semaphore drops the command |
| `Scheduler.Scheduler.RegisterCancel` | internal/scheduler/scheduler.go:180-186 | The cancel function is stored under the command |
| `Scheduler.Scheduler.UpdateStatus` | internal/scheduler/commands.go:129-153 | The status table after an update; a missing row is not created |
| `Scheduler.Scheduler.MarkRunning` | internal/scheduler/scheduler.go:193-197 | Marks the row, or leaves at once when the write fails |
| `Scheduler.Scheduler.CallHandler` | internal/scheduler/scheduler.go:221 | The handler call of a marked worker |
| `Scheduler.Scheduler.FinishCommand` | internal/scheduler/scheduler.go:210-237 | The last write: failed for an unknown handler or an error, completed otherwise, over any earlier cancellation |
| `Scheduler.Scheduler.DeleteCancel` | internal/scheduler/scheduler.go:187-191 | The deferred removal of the cancel function |
| `Scheduler.Scheduler.ReleaseSlot` | internal/scheduler/scheduler.go:177 | The deferred release of the slot |
| `Scheduler.Scheduler.SignalCancel` | internal/scheduler/commands.go:93-97 | Signals the worker whose cancel function is stored, if any |
| `Scheduler.Scheduler.WriteCancelled` | internal/scheduler/commands.go:99 | Writes cancelled whatever the status was |
| `Scheduler.Scheduler.StartLoop` | internal/scheduler/scheduler.go:103-112 | Recovery, which may fail, and the loop |
| `Tasks.Table.DueTasks` | internal/scheduler/tasks.go:31-45 | Exactly the tasks whose next run has come, each once |
| `Tasks.Table.UpdateNextRun` | internal/scheduler/tasks.go:48-59 | The next run is one interval after the time of the write |
| `Tasks.Table.RunDue` | internal/scheduler/tasks.go:68-79 | One due task: queued exactly when the insert works, next due an interval later exactly when both writes work, and on schedule unless only the second fails |
| `Tasks.Table.CheckScheduledTasks` | internal/scheduler/tasks.go:62-80 | Every due task is queued once if its insert works, no other task is queued, a task whose next run is written is next due an interval later, and all tasks with working writes stay spaced by their intervals |
| `Tasks.AtMostOnePerInterval` | internal/scheduler/tasks.go:62-80 | T seconds hold at most 1 + T / interval times of any sequence spaced by the interval |
| `Tasks.OnTimeIsSparse` | internal/scheduler/tasks.go:62-80 | What every check keeps of a table bounds the automatic queueings of each task in every stretch of time |
| `Tasks.TimesSpelled` | internal/scheduler/tasks.go:62-80 | The times of a task are those of its queueings in the log, one by one |
| `Tasks.WindowCounts` | internal/scheduler/tasks.go:62-80 | The size of a window is the number of queueings whose times lie in it |
| `Tasks.Table.CheckAtEveryTick` | internal/scheduler/scheduler.go:133-150 | Over any number of ticks a task whose next run was written after every queueing is queued at most 1 + T / interval times in any T seconds |
| `HubProtocol.EveryRunKeepsInv` | api/v1/ws/hub.go:56-98 | In every interleaving no message is sent on a closed channel and none is closed twice; a channel is closed exactly when its client was added and is gone; at most 256 messages wait; received ++ buffered is what was sent, in order |
| `HubProtocol.QuietMeansComplete` | api/v1/ws/hub.go:56-74 | Between broadcasts a client that never overflowed has received or buffered exactly the broadcasts since it joined, each once |
| `HubProtocol.SerialBroadcastsArriveInOrder` | api/v1/ws/hub.go:56-74 | When broadcasts do not overlap, every client gets them in the order in which they were made |
| `HubProtocol.FullMeans256` | api/v1/ws/hub.go:67-72 | A client overflows at a broadcast exactly when 256 messages wait for it; otherwise the broadcast is the last of them |
| `HubProtocol.FewBroadcastsFit` | api/v1/ws/hub.go:101-110 | In every run of at most 256 broadcasts no client overflows, whoever receives how slowly |
| `HubProtocol.InitInv` | api/v1/ws/hub.go:49-53 | A new hub satisfies the invariant |
| `Hub.Hub.AddClient` | api/v1/ws/hub.go:83-88 | Adds the client with an empty open channel |
| `Hub.Hub.RemoveClient` | api/v1/ws/hub.go:90-98 | Closes the channel on the first removal only, and never panics |
| `Hub.Hub.TrySend` | api/v1/ws/hub.go:67-72 | Sends unless the buffer is full, and then asks for a removal |
| `Hub.Hub.Broadcast` | api/v1/ws/hub.go:56-74 | In any order of clients: every member with room has the message last in its buffer, exactly the full ones are to be removed, and the whole is a run of the protocol |
| `Hub.Hub.ReceiveNext` | api/v1/ws/hub.go:145-153 | The writer takes the oldest message |
| `Import.Service.CopyFile` | internal/wanted/fileutil.go:13-28 | A missing source leaves the destination untouched; a copy that stops leaves a prefix |
| `Import.Service.RegisterFile` | internal/wanted/import_book.go:92-182 | From the copied file to the finished row, with every exit |
| `Import.Service.ReplaceFile` | internal/wanted/import_book.go:70-90 | The old row goes first, then the file is copied unless it is in place |
| `Import.Service.ImportCompletedDownload` | internal/wanted/import_book.go:18-197 | The whole import with every early exit, as a function of the state and of which calls fail |
| `ImportSafety.BytesSurvive` | internal/wanted/import_book.go:18-197 | At every exit the download's bytes exist at the source or the destination |
| `ImportSafety.StaysOnePerBook` | internal/wanted/import_book.go:70-76 | No book gains a second file row as long as the query and the deletion of the old row work |
| `ImportSafety.ResultIff` | internal/wanted/import_book.go:18-182 | An import ends well, or fails at the queue's update, exactly when the guard on its inputs for inserting a row holds |
| `ImportSafety.StoppedIff` | internal/wanted/import_book.go:18-160 | Each error of an import, exactly over the inputs: the first step that fails |
| `ImportSafety.DoneSpelled` | internal/wanted/import_book.go:78-182 | Success leaves a row under the path the naming engine gives for book, format and local path, with the number of bytes and the result of the content check |
| `ImportSafety.SecondRowIff` | internal/wanted/import_book.go:70-76 | Their failures are ignored: the exact condition on the inputs under which an import leaves its book with two rows |
| `ImportSafety.SuccessMeansImported` | internal/wanted/import_book.go:70-182 | After success the book has exactly one row, its path holds the source's original bytes, its size is their number, and the queue row is completed |
| `ImportSafety.OthersUntouched` | internal/wanted/import_book.go:18-197 | At every exit other books' rows are unchanged, and so are their files unless source or destination is one of them |
| `ImportSafety.BytesKeptIff` | internal/wanted/import_book.go:83-182 | The exact condition on the inputs under which a file on disk, of whatever book, loses its bytes: a copy onto it begins and the bytes differ, or it is the source of an import that succeeds and removes it |
| `ImportSafety.SharedDestinationOverwrites` | internal/wanted/import_book.go:83-160 | If the destination is another book's file, a copy that begins replaces its bytes, by all or a part of the download, before the table refuses the new row |
| `ImportSafety.HasRowIff` | internal/wanted/import_book.go:70-160 | The exact condition on the inputs under which the book has a row afterwards: the old row goes before the copy, so any later failure leaves the book without one |
| `ImportSafety.QueueAfter` | internal/wanted/import_book.go:162-165 | Apart from its own row's status an import does not touch the queue |
| `PendingImport.ImportOne` | internal/wanted/import.go:179-210 | One row: marked failed when its file is gone, imported otherwise |
| `PendingImport.ImportAll` | internal/wanted/import.go:178-212 | The loop's state and its counter are those of the single turns |
| `PendingImport.ImportPendingCompletedDownloads` | internal/wanted/import.go:142-213 | All rows are collected first, then taken one by one; a failing query ends the run with nothing changed |
| `PendingImport.VerdictIsStatus` | internal/wanted/import.go:179-210 | The rows split exactly into imported, marked failed and import errors, and each ends with the status its verdict says |
| `PendingImport.GoneMeansMissing` | internal/wanted/import.go:186-194 | A row is marked failed exactly when its file was not on disk at its turn |
| `PendingImport.PendingOnlyShrinks` | internal/wanted/import.go:145-151 | Whatever goes wrong, a run makes no row pending that was not selected |
| `PendingImport.CleanRunEmptiesPending` | internal/wanted/import.go:142-213 | After a run without errors nothing is pending, even with several rows for one book or one path |
| `PendingImport.SecondRunDoesNothing` | internal/wanted/import.go:142-213 | So a second run changes nothing |
| `QueueLife.EveryRunKeepsReachable` | internal/wanted/import.go:22-138 | Over all runs of grabs, polls, views, restarts and imports a row without a client has a save path |
| `QueueLife.StepKeepsReachable` | internal/wanted/queue.go:71-113 | Each step keeps this: the view writes no path and a poll only non-empty ones |
| `QueueLife.SavePathIsSomewhere` | internal/wanted/fileutil.go:80-84 | The expected path of a manual grab is empty exactly when folder, author and file name are |
| `QueueLife.GrabFileIsNamed` | internal/wanted/grab.go:131-141 | The file of a manual grab always has a name, whatever the titles are |
| `QueueFacts.GrabbedRow` | internal/wanted/grab.go:143-161 | After a manual grab the client has the author's folder below the download directory, and the row's path is the file name joined to the folder the client was given |
| `QueueFacts.GrabFileSpelled` | internal/wanted/grab.go:131-141 | The file is named after the release, or after author and title, with underscores for nine characters and the format behind it unless unknown or there already |
| `QueueFacts.PolledRow` | internal/wanted/import.go:66-135 | The row after a poll: status and non-empty path of a known download, a new id and `queued` for a lost one with a URL, everything else as before |
| `QueueFacts.ShownRowIs` | internal/wanted/queue.go:71-94 | The view takes over the status of a live embedded download and nothing else |
| `QueueFacts.OutsideSteps` | internal/wanted/queue.go:115-180 | News of a download, a restart that forgets all of them, and a removed row |
| `QueueFacts.PollCounts` | internal/wanted/import.go:103-131 | A poll of a known download counts as completed or failed exactly when its row is so afterwards, and as imported exactly when it is completed and its import inserts a row and closes the queue row |
| `QueueFacts.RunCounts` | internal/wanted/import.go:58-131 | The counters of a run start at zero and add up step by step |
| `QueueFacts.StepCounts` | internal/wanted/import.go:142-213 | Only polls complete or fail a download; the recovery run adds its successful imports |
| `QueueFacts.OpenRowsArePolled` | internal/wanted/import.go:33-38 | A processing run polls exactly the rows that are neither completed nor failed |
| `QueueLife.CompletedIsImportedOrPending` | internal/wanted/import.go:145-151 | No embedded download is stranded: once completed, its book has a file row or the pending query selects it |
| `QueueLife.DeletingClientStrands` | migrations/012_fix_broken_foreign_keys.sql:16 | Deleting a download client clears the client of its rows; the promise survives exactly when they all have a path |
| `QueueLife.StalePathIsLost` | internal/wanted/queue.go:71-180 | Where a restarted download is shown before a poll sees its path, the recovery run looks at the path of the first attempt: it gives the row up exactly when nothing is there, and marks it failed wherever the file is |
| `QueueLife.LivePathIff` | internal/wanted/queue.go:71-180 | The recorded path is the live one exactly when a poll saw it before the view, or when the first path was right |
| `Downloads.GrabRelease` | internal/wanted/grab.go:131-161 | Client and row of a manual grab: the file name from release title or author and title, the author's folder, and the path expected in it |
| `Downloads.GrabFromIndexer` | internal/wanted/grab.go:33-54 | An indexer grab records its client and no path |
| `Downloads.RestartDownload` | internal/wanted/queue.go:148-180 | A lost download is added again without a save path; without a URL nothing happens |
| `Downloads.UpdateWithPath` | internal/wanted/import.go:85-97 | The path is written only when there is one |
| `Downloads.PollOne` | internal/wanted/import.go:66-135 | One row of the polling loop is one poll step, with its share of the counters |
| `Downloads.ProcessDownloads` | internal/wanted/import.go:22-138 | The recovery run, whose failure is only logged, followed by exactly one poll for every row that is active after it, is a run of the protocol, and the counters are those of its steps; if the active rows cannot be listed there is no result |
| `Downloads.PollAll` | internal/wanted/import.go:66-135 | The polling loop extends the run by its polls, row by row |
| `Downloads.GetDownloadQueue` | internal/wanted/queue.go:71-94 | Every row of the queue is shown with the live status of its embedded download, and keeps it exactly when the write works |
| `Downloads.OtherRows` | internal/wanted/import.go:66-135 | Polling or showing one row leaves the other rows alone |
| `Streams.ReadFull` | internal/download/direct/download_file.go:140-142 | The preview is the beginning of the body, shorter than asked only at its end, and nothing is lost |
| `Streams.Body.Read` | internal/download/direct/download_file.go:230 | A read delivers the next bytes; its end or error is sticky |
| `Streams.Replay.Read` | internal/download/direct/download_file.go:222 | Reading the preview and then the body delivers each byte once, in order |
| `Direct.OutFile.Write` | internal/download/direct/download_file.go:232 | A full disk takes what fits and reports an error |
| `Direct.Copy` | internal/download/direct/download_file.go:221-259 | For every split into reads the file is the whole body, or the part a full disk takes; the error tells which, and progress never exceeds the file |
| `Direct.Client.Obtain` | internal/download/direct/download_file.go:115-191 | Which response is used, or which error ends the download, for every status, page and bypass outcome; after a bypass the replay starts empty |
| `Direct.Client.Retry` | internal/download/direct/download_file.go:154-186 | The branches after a recognised challenge |
| `Direct.Client.Save` | internal/download/direct/download_file.go:192-270 | Directory, file, copy and the final fields |
| `Direct.Client.DownloadFile` | internal/download/direct/download_file.go:115-270 | A completed download's file is the whole body of the response finally used, with downloaded = size = file length; a failed one leaves a prefix of what arrived or no file |
| `Direct.CompletesIff` | internal/download/direct/download_file.go:115-270 | The exact condition under which a download completes |
| `Direct.PageIsKeptIff` | internal/download/direct/download_file.go:136-191 | A completed download is an HTML page exactly when the first page was one and the retry after the solved challenge is one too |
| `Direct.SecondChallengeBecomesFile` | internal/download/direct/download_file.go:154-191 | A second challenge page answered with OK completes the download and is the whole file |
| `DirectFacts.StopsIff` | internal/download/direct/download_file.go:115-191 | Every reason to stop before a file is made, exactly over the inputs; a challenge is decided by the first 4096 bytes |
| `DirectFacts.UsesIff` | internal/download/direct/download_file.go:130-191 | The response that is used: the first if it is no page, otherwise the retry of a solved challenge |
| `DirectFacts.FileSpelled` | internal/download/direct/download_file.go:192-259 | The file stands below the folder under the server's name, or under the item's with `.epub` where there is none, and holds the beginning of the body that fits |
| `DirectFacts.PercentSpelled` | internal/download/direct/download_file.go:238-242 | A published progress is the percentage of the announced length |
| `DirectFacts.CompletedMeansFinished` | internal/download/direct/download_file.go:261-269 | In every run an item shows completed only if its own worker ended with success |
| `DirectFacts.FailedMeansFinished` | internal/download/direct/client.go:208-215 | In every run an item shows failed only if a worker of an item under its id ended without success |
| `Direct.Client.Add` | internal/download/direct/client.go:176-205 | Adds a queued item below the given folder or the configured one, in place of an item that has the id |
| `Direct.Client.UpdateStatus` | internal/download/direct/client.go:208-215 | Writes status and message of the item under the id, if there is one |
| `Direct.Client.Remove` | internal/download/direct/client.go:218-239 | Removes the item and, if asked, its file |
| `DirectStatus.EveryRunMovesForward` | internal/download/direct/client.go:176-252 | With distinct ids, in every interleaving of additions, workers and removals the status seen for an id only moves queued, downloading, one end state, gone |
| `DirectStatus.StepMovesForward` | internal/download/direct/client.go:208-215 | Each step moves every id forward or leaves it |
| `DirectFacts.ForwardSpelled` | internal/download/direct/client.go:176-252 | Moving forward spelled out: queued, downloading, completed or failed, gone, and an end does not change into the other |
| `DirectStatus.QuietMeansEnded` | internal/download/direct/download_file.go:261-269 | When no worker is left everything shown has ended |
| `DirectStatus.SharedIdRegresses` | internal/download/direct/client.go:178-196 | If two downloads get one id, a completed one can turn into a failed one |
| `DirectStatus.ForwardIffNewIds` | internal/download/direct/client.go:176-252 | From every state that satisfies the invariant, a list of additions moves forward in every interleaving exactly when its ids are distinct and unused |
| `DirWalk.WalkStaysBelow` | internal/core/library/scanner.go:76-93 | Everything the walk reports is at or below the root |
| `DirWalk.WalkSkipsHidden` | internal/core/library/scanner.go:88-93 | No reported path leads through a hidden directory below the root |
| `DirWalk.WalkOnce` | internal/core/library/scanner.go:76-119 | No file is reported twice |
| `DirTree.WalkIff` | internal/core/library/scanner.go:75-119 | The walk reports a file exactly when it is reached through readable directories whose names do not start with a dot |
| `DirTree.PathIsJoined` | internal/core/library/scanner.go:76 | The path of an entry is the root and the names on the way to it with slashes between them |
| `Sql.PrefixIsUnder` | internal/core/library/scanner.go:68 | The LIKE filter selects every path with the prefix, even if the prefix contains wildcards |
| `Sql.UnderLiteral` | internal/core/library/scanner.go:68 | Without wildcards in the root the filter is the prefix test up to the case of letters |
| `Sql.OneCharacter` | internal/core/library/scanner.go:68 | An underscore takes one character, whichever it is; other characters take themselves in either case |
| `Sql.AnyBeginning` | internal/core/library/scanner.go:68 | A percent sign takes any beginning of the text |
| `LibraryScan.Scanner.FindOrCreateAuthor` | internal/core/library/scanner.go:341-379 | An author of that name up to case; if there was none, exactly one row is new, below the root; names stay distinct up to case |
| `LibraryScan.Scanner.FindOrCreateBook` | internal/core/library/scanner.go:381-424 | A book of the author by title or sort title up to case; if there was none, exactly one row is new; titles of one author stay distinct |
| `LibraryScan.Scanner.MatchFileToBook` | internal/core/library/scanner.go:236-267 | A match by file name in the author's folder, else by folder name in the folder above; none only if neither exists |
| `LibraryScan.Scanner.DiscoverBookFromFile` | internal/core/library/scanner.go:271-305 | The book stands for the author and title guessed from path, metadata and defaults; the catalogue only grows |
| `LibraryScan.Scanner.BookFor` | internal/core/library/scanner.go:294-302 | Author first, then the author's book; both must work |
| `LibraryScan.Scanner.BookOfFile` | internal/core/library/scanner.go:160-180 | The book of a new file: a match, or the one guessed from it |
| `LibraryScan.Scanner.AddNewFile` | internal/core/library/scanner.go:149-196 | Adds exactly one row with the size on disk and a matching or discovered book, or none; it does not fail without cause |
| `LibraryScan.Scanner.UpdateFileIfChanged` | internal/core/library/scanner.go:198-226 | Only the size of this row changes, to the size on disk, unless the file or the update fails |
| `LibraryScan.Scanner.RemoveFile` | internal/core/library/scanner.go:228-234 | Only this row goes |
| `LibraryScan.Scanner.Visit` | internal/core/library/scanner.go:76-118 | The callback for one event: directories that cannot be read, unsupported files, known and new files |
| `LibraryScan.Scanner.WalkFiles` | internal/core/library/scanner.go:75-119 | What the walk's callback leaves in tables and counters after all events |
| `LibraryScan.Scanner.RemoveMissing` | internal/core/library/scanner.go:124-132 | In any order, exactly the selected rows that were not found are removed, as far as the deletions work |
| `LibraryScan.Scanner.ScanPath` | internal/core/library/scanner.go:63-134 | What a whole scan does, with or without errors, and that it reports none when nothing goes wrong |
| `LibraryScan.CleanScanIsIndex` | internal/core/library/scanner.go:63-134 | After a scan without errors the rows of the filter are exactly the supported files the walk reached, with their sizes; Total = New + Updated; Removed = old minus found; rows outside the filter are untouched |
| `ScanIndex.SupportedIffEbook` | internal/core/library/scanner.go:22-28 | The supported files are those that end in `.epub`, `.mobi`, `.azw3`, `.pdf` or `.cbz`, in any case |
| `ScanIndex.EbooksAreIndexed` | internal/core/library/scanner.go:95-118 | After a scan without errors every visited file with one of the five endings has a row with its size |
| `ScanIndex.OnlyEbooksAreAdded` | internal/core/library/scanner.go:95-118 | With or without errors no path gains a row but that of a visited file with one of the five endings |
| `ScanIndex.OthersAreRemoved` | internal/core/library/scanner.go:95-132 | A row below the root survives exactly when it is that of such a visited file or cannot be removed |
| `ScanIndex.EveryEbookHasItsRow` | internal/core/library/scanner.go:63-134 | After a scan without errors every such file of the tree that is reached without a dotted directory has a row with its size on disk |
| `ScanNames.SameNameSpelled` | internal/core/library/scanner.go:345 | Two names are the same exactly when they are equal letter by letter up to case |
| `ScanNames.GuessSpelled` | internal/core/library/scanner.go:271-292 | Author and title of a new file: from the metadata of an EPUB file, then from its path, then `Unknown Author` and the file's name |
| `ScanNames.MatchesSpelled` | internal/core/library/scanner.go:236-267 | A file `stem.ext` in `parent/name` matches a book called `stem` of the author with that folder, or, if there is none, a book called `name` of the author with the folder `parent` |
| `LibraryScan.RescanIsQuiet` | internal/core/library/scanner.go:63-134 | A second scan of an unchanged tree adds and removes nothing and creates no author or book; without errors it changes nothing at all |
| `LibraryScan.OutsideRowsKeptIff` | internal/core/library/scanner.go:68-132 | A row outside the root survives a scan exactly when the text filter does not select it or its removal fails, be it selected by prefix, by letter case or by wildcards |
| `LibraryScan.SiblingRowsRemoved` | internal/core/library/scanner.go:68-132 | So rows whose path merely continues the root's name are removed by every scan of the root whose deletions work |
| `LibraryScan.MissingRootEmptiesIndex` | internal/core/library/scanner.go:76-132 | A root that cannot be reached is an error, but its rows are removed all the same |
| `DiskTree.CopyThenRemoveIsRename` | internal/core/rootfolder/migration.go:80-92 | For every tree and every target beside it, free or not, copying over the target and removing the original leaves the disk a rename would leave |
| `DiskTree.RenamedIsMoved` | internal/core/rootfolder/migration.go:81 | A rename to a free path moves exactly the tree |
| `DiskTree.InsideSpelled` | internal/core/rootfolder/migration.go:149-160 | Inside a folder is what continues its path with a slash, and exchanging the folder keeps the rest |
| `DiskTree.MoveBack` | internal/core/rootfolder/migration.go:80-92 | Moving a tree away and back restores the disk |
| `TreeCopy.FileSystem.CopyEntry` | internal/core/rootfolder/migration.go:157-169 | One entry, file or directory, onto whatever is at the target |
| `TreeCopy.FileSystem.CopyDir` | internal/core/rootfolder/migration.go:142-173 | The recursive copy, in any order of the entries, lays the whole tree over what is at the target, onto itself too; after an error nothing outside the target has changed; without a fault it fails exactly when a file would have to become a directory or the reverse |
| `TreeCopy.FinishCopy` | internal/core/rootfolder/migration.go:157-169 | Once every entry is copied the whole tree is, since whatever lies inside is reached through an entry |
| `DiskTree.MergedIntoFree` | internal/core/rootfolder/migration.go:142-173 | On a free target that is a copy of the whole tree and nothing else |
| `RootFolder.RewritesAgree` | internal/core/rootfolder/migration.go:60-62 | On every path with the old prefix the Go rewrite and the SQL rewrite agree |
| `RootFolder.TrimmedSpelled` | internal/core/rootfolder/migration.go:33-34 | One slash at the end of a root path goes, and nothing else |
| `RootFolder.RowSpelled` | internal/core/rootfolder/migration.go:104-122 | A row below the old path gets the new one in its place; a row the filter does not select stays |
| `RootFolder.MoveSpelled` | internal/core/rootfolder/migration.go:60-62 | The folder of an author below the old path goes to the same place below the new one |
| `RootFolder.RewritesDiverge` | internal/core/rootfolder/migration.go:48-119 | For a selected row that does not contain the old path the folder stays, and the row agrees exactly when it begins with the new path, of the old one's length |
| `RootFolder.RewritesAgreeIff` | internal/core/rootfolder/migration.go:60-119 | For a selected row that contains the old path, first behind some text, folder and row agree exactly when that text can stand on either side of the new path |
| `RootFolder.MoveBackRestoresRows` | internal/core/rootfolder/migration.go:104-122 | Moving back restores a table exactly when every selected row really has the old prefix and no other row is selected by the new one |
| `RootFolder.MoveFolder` | internal/core/rootfolder/migration.go:69-94 | One folder, by rename or by copy: it arrives merged with what is at the target, leaves its old place as far as the removal works, and nothing else but directories above the target changes; a copy that is wholly removed is a rename; it fails only if a call does or something is in the way |
| `RootFolder.MoveFolders` | internal/core/rootfolder/migration.go:67-95 | All folders settle, whichever way each one went |
| `RootFolder.RootFolders.MoveRootFolder` | internal/core/rootfolder/migration.go:19-139 | Folders and three tables move together when the transaction commits, also when the read after it fails and the caller gets an error; an error leaves the tables as they were exactly when it did not commit; with every call working and nothing in the way it commits |
| `RootFolder.FileRowsFollow` | internal/core/rootfolder/migration.go:67-122 | The row of every file inside a moved author folder points at the file's content |
| `RootFolder.MoveOntoItselfLoses` | internal/core/rootfolder/migration.go:28-91 | When the two paths differ by a slash at the end only, every author folder is moved onto itself: its files are emptied, and removed wherever the removal gets to them |
| `RootFolder.RowsFollowIff` | internal/core/rootfolder/migration.go:28-122 | So the row of a file in an author folder keeps its content exactly when the root really changes |
| `Dice.CountBigrams` | internal/core/mediafile/verify.go:128-136 | The counting loop builds the multiset of adjacent pairs |
| `Dice.Similarity` | internal/core/mediafile/verify.go:95-125 | The loop over the keys, in any order, computes the size of the multiset intersection |
| `Dice.ScoreTimesSlots` | internal/core/mediafile/verify.go:111-124 | For unequal texts of at least two bytes, the score times the number of byte pairs of both is twice the number of shared code point pairs |
| `Dice.ShortScore` | internal/core/mediafile/verify.go:99-108 | For unequal texts one of which is under two bytes the score is 0.8 if one contains the other, and 0 otherwise |
| `Dice.BigramCount` | internal/core/mediafile/verify.go:128-136 | The bag has a pair as often as it stands at two neighbouring places of the text |
| `Dice.ByteCount` | internal/core/mediafile/verify.go:99-124 | The length of a text is one byte for each code point and one more from each of U+0080, U+0800 and U+10000 on |
| `Dice.ContainsIff` | internal/core/mediafile/verify.go:104 | A text contains another exactly when it is that one with something before and something behind it |
| `Dice.ScoreSymmetric` | internal/core/mediafile/verify.go:95-125 | The score does not depend on the order of its arguments |
| `Dice.ScoreInRange` | internal/core/mediafile/verify.go:95-125 | The score lies in [0, 1] although its denominator counts bytes and its numerator code points |
| `Dice.FullScore` | internal/core/mediafile/verify.go:95-125 | A full score means equal texts or ASCII texts with the same bag of pairs, and nothing else |
| `Dice.ZeroScore` | internal/core/mediafile/verify.go:95-125 | A zero score means that the texts differ and share no pair, or, if one is under two bytes, that neither contains the other |
| `ContentCheck.Normalize` | internal/core/mediafile/verify.go:83-92 | The builder loop and the trim |
| `ContentCheck.NormalisedTwice` | internal/core/mediafile/verify.go:83-92 | A normal form is its own normal form |
| `ContentCheck.SurnamesAgree` | internal/core/mediafile/verify.go:73-80 | Last names match exactly when both normal forms end with the same word |
| `ContentCheck.BestAuthorMatch` | internal/core/mediafile/verify.go:51-70 | The loop computes the maximum of zero and the contributions, with 0.5 as the least for a matching last name |
| `ContentCheck.OrderIndependent` | internal/core/mediafile/verify.go:51-70 | That maximum depends on the set of names only |
| `ContentCheck.BestExists` | internal/core/mediafile/verify.go:51-70 | Every list of names has such a maximum |
| `ContentCheck.BestInRange` | internal/core/mediafile/verify.go:51-70 | The author score lies in [0, 1] |
| `ContentCheck.VerifyContent` | internal/core/mediafile/verify.go:21-48 | The verdict: a mismatch needs both scores below 0.35, and missing data counts as a full score |
| `ContentFacts.FilterOne` | internal/core/mediafile/verify.go:83-90 | Each code point is lower-cased and kept if it is a letter, a digit or a space then |
| `ContentFacts.TrimSpelled` | internal/core/mediafile/verify.go:91 | Only spaces at the two ends are cut off, and all of them |
| `ContentFacts.AuthorScoreSpelled` | internal/core/mediafile/verify.go:54-68 | An author counts as much as the names are alike, and at least 0.5 when both end in the same word |
| `ContentFacts.MismatchIff` | internal/core/mediafile/verify.go:17-48 | A mismatch needs metadata and both scores below 0.35; a title or list of authors that is missing scores 1 |
| `ContentFacts.NamedMismatchIff` | internal/core/mediafile/verify.go:21-70 | With names to compare, a file is a mismatch exactly when its title and every name score below 0.35 and no name has the expected last word |
| `ContentCheck.OneVerdict` | internal/core/mediafile/verify.go:21-48 | The verdict is a function of the metadata, whatever order the loops run in |
| `ContentCheck.AddingAuthors` | internal/core/mediafile/verify.go:21-48 | Adding names turns a match into a mismatch exactly when the list was empty and title and all new names score below the threshold |
| `ContentCheck.SurnameIsEnough` | internal/core/mediafile/verify.go:60-68 | A file with an author of the expected last name is never a mismatch |
| `Isbn.IsValidISBN10` | internal/metadata/openlibrary/provider.go:351-373 | Accepts exactly nine digits and a digit or X with a weighted sum divisible by 11 |
| `Isbn.IsValidISBN13` | internal/metadata/openlibrary/provider.go:375-389 | Accepts exactly thirteen digits with a weighted sum divisible by 10 |
| `Isbn.Accepted10Iff` | internal/metadata/openlibrary/provider.go:351-373 | Ten symbols are accepted exactly when they are well formed and `10*d0 + 9*d1 + ... + 1*d9` is divisible by 11 |
| `Isbn.Accepted13Iff` | internal/metadata/openlibrary/provider.go:375-389 | Thirteen symbols are accepted exactly when they are digits and `d0 + 3*d1 + ... + d12` is divisible by 10 |
| `Isbn.ZerosAccepted` | internal/metadata/openlibrary/provider.go:351-389 | Ten zeros and thirteen zeros are accepted |
| `Isbn.IsValidISBN` | internal/metadata/openlibrary/provider.go:341-349 | Dispatches by length; other lengths are rejected |
| `Isbn.SingleErrorCaught10` | internal/metadata/openlibrary/provider.go:351-373 | Two accepted ISBN-10 strings never differ in exactly one symbol (x read as X) |
| `Isbn.SwapCaught10` | internal/metadata/openlibrary/provider.go:351-373 | Swapping any two unequal symbols of an accepted ISBN-10 is rejected |
| `Isbn.SingleErrorCaught13` | internal/metadata/openlibrary/provider.go:375-389 | Two accepted ISBN-13 strings never differ in exactly one digit |
| `Isbn.AdjacentSwap13` | internal/metadata/openlibrary/provider.go:375-389 | An adjacent swap is accepted exactly when the digits are equal or differ by 5 |
| `Isbn.CheckSymbolExists` | internal/metadata/openlibrary/provider.go:351-373 | Every nine digits are completed by the symbol of the negated weighted sum modulo 11 |
| `Isbn.CheckDigitExists` | internal/metadata/openlibrary/provider.go:375-389 | Every twelve digits are completed by the digit of the negated weighted sum modulo 10 |

## Left out

- Full Unicode: strings are ASCII character sequences; only `Dice` and `ContentCheck` work on code points, with the letter and digit tables as parameters and 32 as the only space that survives normalising.
- Float rounding: scores and progress are exact rationals.
- Time-outs, tickers and pings, and the 500 ms throttle of the progress display, which is a nondeterministic choice; transfer speed and remaining time are not modelled.
- `Stop` of the scheduler, context cancellation of a scan, and graceful shutdown; a crash may come at any point instead.
- The reading and parsing of commands' payloads and results, and the list queries; a command is its row.
- Hashing, metadata extraction, history records, certificates, headers, cookies and challenge detection: opaque values or functions.
- The resolution of intermediate download pages and the file name taken from response headers: whether the first works, and what the second yields, are parameters.
- File modes, symbolic links, empty-directory clean-up after a rename or an import, and directories that remain after a failed step.
- SQL drivers and transactions beyond the meaning of each statement; integer ids have no width.
- The library scan that an import starts in the background: it may add a second file for a book.
- Writes of the queue view and of polling that interleave inside one poll-and-write: each is one step.
- Remote path mapping and the naming engine inside the import: abstract functions from paths to paths. Paths are taken to be absolute and clean, so comparing them compares files.
- UNIQUE conflicts of two concurrent scans, and the retry that the author insert makes for them.
- Rename.RowsKeepTheirFiles: a guarantee from a check before the batch, which asks for distinct and free targets and a working rename back; `Rename.BatchKeepsIff` has the exact condition.
- Rename.Library.RenameAll: starts from the listed files. The query lists a file once per root folder whose path it matches; the results ask that each file is listed once.
- Rename.SecondRunSkips: the second run lists the same rows, each with its new path.
- CommandSafety.PromptRunsAreExclusive: assumes that the mark succeeds and comes before the next query; `CommandOnce.OncePerStartIff` has the exact condition.
- DirectStatus.EveryRunMovesForward: assumes distinct ids; `DirectStatus.ForwardIffNewIds` shows that it must. The statement order inside one critical section is not modelled.
- Downloads.ProcessDownloads: writes of a status always succeed here; failing writes are modelled inside the import only.
- Direct.Client.DownloadFile: one download at a time writes to the disk; two downloads with the same file name are not modelled.
- DirWalk.WalkSkipsHidden: the walk joins names to the root as it is, which is what the library does for a clean root path; a root written with `.`, `..` or doubled slashes is not modelled.
- LibraryScan.Scanner.ScanPath: directory entries have proper names, and no two of one directory the same; the walk sees one state of the tree.
- RootFolder.RootFolders.MoveRootFolder: asks for author folders that do not lie in one another or in one another's targets, for targets that do not lie in their own folder, and for a new root outside the moved folders. What stands at a target, and a folder that stays where it is, are modelled.
- TreeCopy.FileSystem.CopyDir: file modes, and a path on which the copy meets its own output.
- `makeSortName`, `extractFilename`, provider and indexer clients, scoring tables, notification storage, HTTP handlers and the user interface: only easy members or plumbing.
