# git-pr dashboard: a verified model of its core

The program watches the pull request of a git branch. It fetches the pull
request's record through the `gh` command line tool and draws a terminal
dashboard of progress bars: a header, the changed files with their diff
counts, the details, and one row per CI check. It redraws the dashboard every
tick, refetches the record at most every 15 seconds, and stops once every
check is complete. It then draws a final frame and finishes every bar of
that frame.

This project models the logic behind that dashboard in Dafny:

- `models.dfy` (module `Models`) models the check-status model of
  `src/prinfo/models.rs`. It covers the two kinds of check (a check run and
  a commit status context), their completion, the four-character status label
  and its colour, the display forms of a check and of a changed file, and the
  lenient reading of a conclusion.
- `prinfo.dfy` (module `PrInfoOps`) models the record helpers of
  `src/prinfo/prinfo.rs`: `map_to_string`, `sha`, `is_complete`, and the fetch
  that stamps a record with its fetch time. It also has the 15-second refresh
  gate `update`, as a function and as a method of the class `PrInfoCell`,
  which holds the shared record.
- `cli_rows.dfy` (module `CliRows`) covers the `Pb` row description with its
  builders. It also builds the ordered rows that `get_progress_bars` derives
  from a record.
- `cli_registry.dfy` (module `CliRegistry`) models the keyed progress-bar
  registry of `App::pb` as functions on its state: the bars by key and their
  display order.
- `cli.dfy` (module `Cli`) holds the class `App`. Its methods register rows,
  advance and finish bars, and run the tick loop `run_loop` against an
  abstract clock and an abstract `gh` source.
- `git_commands.dfy` (module `GitCommands`) covers the string and selection
  helpers of `src/git_commands.rs`.
- `prinfo_gh.dfy` (module `PrInfoGh`) covers the older, unreferenced draft of
  the record in `src/prinfo_gh.rs`. Its check label uses a two-character
  pending placeholder, which the model compares with the newer mapping.
- `wrappers.dfy` and `strings.dfy` are generic helpers: `Option`, `Result`,
  substring search, and decimal formatting.

The model is built on these design decisions:

- **Time and the source.** Time is a number of seconds. The `gh` tool is a
  function from a branch and a time to what the command printed. The loop
  reads the clock through a function from the tick number to seconds.
- **Panics.** A panic that depends on outside data becomes an error outcome:
  `None`, `Aborted` or `Err`. Such data is a failed fetch, a clock that runs
  backwards, or a record without commits. A panic that depends only on the
  caller becomes a `requires`.
- **Bars and handles.** A progress bar is a shared handle. The model therefore
  represents the handle that `App::pb` returns by the bar's key. Two rows with
  the same key (`url` and `state` each appear twice in a frame) are one bar.
- **The loop.** `run_loop` spawns the refresh and sleeps 75 ms. The model
  performs the refresh between two frames, and a parameter bounds the number
  of ticks.

## Model

| member | source | states |
|---|---|---|
| Models.CheckStatusState.IsComplete | src/prinfo/models.rs:218-225 | a check-run status is complete exactly when it is `Completed` |
| Models.StatusContextState.IsComplete | src/prinfo/models.rs:227-236 | a status-context state is complete exactly when it is Success, Failure or Error; Expected and Pending are not |
| Models.DeserializeConclusion | src/prinfo/models.rs:20-34 | a conclusion reads back only from its own upper-case wire name |
| Models.ErrorAsNone | src/prinfo/models.rs:93-101 | a value that does not deserialize gives `None`, never an error; a `Some` came from the conclusion's wire name |
| Models.ErrorAsNoneRoundTrip | src/prinfo/models.rs:93-101 | every conclusion's wire name reads back as that conclusion |
| Models.ErrorAsNoneIsNone | src/prinfo/models.rs:93-101 | the result is `None` exactly for `null` and for strings that name no conclusion |
| Models.StatusCheck.Name | src/prinfo/models.rs:246-251 | the name of a check run is its `name`; the name of a status context is its `context` |
| Models.StatusCheck.IsComplete | src/prinfo/models.rs:253-258 | a check's completion is the completion of its own status or state |
| Models.StatusCheck.ShortStatusStr | src/prinfo/models.rs:263-291 | the label is one of five 4-character labels; " .. " exactly when the check is incomplete or has no conclusion; each label holds for exactly the conclusions or states in the source's mapping; the two `panic!` arms cannot be reached |
| Models.StatusCheck.StatusColor | src/prinfo/models.rs:292-301 | green exactly for " OK ", yellow exactly for "Skip", red exactly for "Fail", white for "Pass" and " .. " |
| Models.StatusCheck.ToString | src/prinfo/models.rs:304-312 | the display is `[`, the label, `] `, the name, at fixed positions |
| Models.StatusCheckDisplayInjective | src/prinfo/models.rs:304-312 | two checks display alike exactly when their labels and names agree |
| Models.File.ToString | src/prinfo/models.rs:200-210 | the display is the path, a space, one `+` per addition, then one `-` per deletion |
| Models.FileDisplayDeterminesCounts | src/prinfo/models.rs:200-210 | for one path, the display determines the addition and deletion counts |
| PrInfoOps.MapToString | src/prinfo/prinfo.rs:22-27 | an empty list joins to ""; a single item joins to itself |
| PrInfoOps.MapToStringRoundTrip | src/prinfo/prinfo.rs:22-27 | splitting the joined text at newlines gives the items back when no item holds a newline |
| PrInfoOps.Sha | src/prinfo/prinfo.rs:62-64 | the sha is the object id of the last commit; a record without commits is refused |
| PrInfoOps.ShaFollowsNewestCommit | src/prinfo/prinfo.rs:62-64 | after a commit is appended, the sha is that commit's object id |
| PrInfoOps.AllComplete | src/prinfo/prinfo.rs:66-68 | true exactly when every check of the rollup is complete |
| PrInfoOps.EmptyRollupIsComplete | src/prinfo/prinfo.rs:66-68 | a record with no checks is complete |
| PrInfoOps.IsCompleteOnAppend | src/prinfo/prinfo.rs:66-68 | one more check keeps the record complete exactly when that check is complete |
| PrInfoOps.Get | src/prinfo/prinfo.rs:71-96 | a record comes back exactly when the shell succeeded, printed something, and the output parsed; the record is the parsed one, stamped with the fetch time |
| PrInfoOps.Refresh | src/prinfo/prinfo.rs:127-141 | an unstamped record or a clock before the stamp fails; under 15 s the record is kept; from 15 s on it is refetched for its head branch; a result's stamp lies between the old stamp and now |
| PrInfoOps.AtMostOneFetchPerWindow | src/prinfo/prinfo.rs:127-141 | within 15 s of a refresh's stamp, a later refresh returns the same record |
| PrInfoOps.PrInfoCell.Update | src/prinfo/prinfo.rs:127-141 | the record is replaced by the refresh result on success and left as it was on failure; the returned copy equals the new record |
| CliRows.PbConstructors | src/cli.rs:37-90 | `new` sets only the key; `new_with_pkey` also sets the prefix to the key; header and section rows get their templates; each `with_*` changes exactly its own field |
| CliRows.KeysOf | src/cli.rs:214-217 | the keys of the rows, in row order |
| CliRows.LongestPath | src/cli.rs:171-177 | the file column width is at least every path's length and equals some path's length |
| CliRows.DiffMessageRoundTrip | src/cli.rs:179-182 | a file row's message `"{additions}+{deletions}-"` parses back to the file's two counts |
| CliRows.CheckTemplateSpinner | src/cli.rs:205-210 | a check row's template has a spinner slot exactly when the check is incomplete |
| CliRows.FrameShowsRecord | src/cli.rs:159-200 | a frame's header block shows the title line, the url and the body, and its details block shows state, author, both dates, the head sha and the url, each keyed as the detail it shows |
| CliRows.CheckRowShape | src/cli.rs:204-211 | a check row is keyed and prefixed by the check's name; its message is the four-character label between `[` and `]`; it animates a spinner exactly while the check runs |
| CliRows.FileRowKeys | src/cli.rs:169-189 | the files block is empty when there are no files; otherwise it is the `files` section followed by one row per path, in order |
| CliRows.CheckRowKeys | src/cli.rs:202-212 | the checks block is empty when the rollup is empty; otherwise it is the `checks` section followed by one row per check name, in order |
| CliRows.RowOrder | src/cli.rs:159-212 | the full key order of a frame: header block, then files only when there are files, then the details, then checks only when there are checks |
| CliRows.FileRowsAligned | src/cli.rs:169-188 | every file row is keyed and prefixed by its path, carries its counts, and pads the path column to the longest path |
| CliRows.BuildFileRows | src/cli.rs:169-189 | the `push`/`extend` of the files part builds exactly the files block |
| CliRows.BuildCheckRows | src/cli.rs:202-212 | the `push`/`extend` of the checks part builds exactly the checks block |
| CliRows.BuildRowSpecs | src/cli.rs:157-212 | the whole `pb_keys` construction builds exactly the frame's rows |
| CliRegistry.TemplateIndent | src/cli.rs:128-146 | the template is the row's own, else the prefix style when the row has a prefix, else `{wide_msg}`; exactly `indent` spaces precede it; the spinner frames are the row's own, else the default ones, so never empty |
| CliRegistry.ApplyEffect | src/cli.rs:119-152 | an empty message or prefix keeps the bar's own; a non-empty one replaces it; the style is always replaced; progress is untouched |
| CliRegistry.ApplyThen | src/cli.rs:119-152 | two successive restyles of a bar act as one combined restyle |
| CliRegistry.ApplyEffectIdempotent | src/cli.rs:119-152 | restyling a bar twice with the same spec is restyling it once |
| CliRegistry.RenderStep | src/cli.rs:214-217 | each `pb` call extends the registry state by one spec |
| CliRegistry.UpsertAllHasKeys | src/cli.rs:113-117 | every key a row names is registered afterwards |
| CliRegistry.KeyFilterEmpty | src/cli.rs:113-119 | no row addresses a key exactly when the key is not among the rows' keys |
| CliRegistry.KeyFilterAppend | src/cli.rs:113-119 | the rows addressed to a key split over concatenation |
| CliRegistry.BarFoldSummary | src/cli.rs:119-152 | a run of restyles of one bar equals a single combined restyle |
| CliRegistry.BarFoldLastStyle | src/cli.rs:143-152 | the last row addressed to a bar decides its template and spinner frames |
| CliRegistry.BarFoldIdempotent | src/cli.rs:119-152 | re-applying the same rows to a bar changes nothing |
| CliRegistry.UpsertAllAt | src/cli.rs:113-152 | per key: the bar exists exactly when it existed or some row names it; it is then the old or fresh bar with exactly the rows naming it applied in order |
| CliRegistry.UpsertAllRegisters | src/cli.rs:113-117 | the registered keys are the old keys plus the rows' keys; no key is removed |
| CliRegistry.UpsertValid | src/cli.rs:113-117 | one `pb` call keeps each registered key listed exactly once in the display order, and never moves a listed row |
| CliRegistry.UpsertAllValid | src/cli.rs:113-117 | a run of `pb` calls keeps the registry consistent and keeps the existing display order as a prefix |
| CliRegistry.OrderAllKnown | src/cli.rs:113-117 | rows whose keys are all registered add no row to the display |
| CliRegistry.RenderIdempotent | src/cli.rs:214-217 | rendering the same rows again changes no bar and adds no row |
| CliRegistry.LastKeyedSpecWins | src/cli.rs:143-152 | rows that do not name a key leave the template and spinner frames that the key's last row gave it |
| CliRegistry.LastSpecWins | src/cli.rs:143-152 | among rows sharing a key, the last one decides the bar's template and spinner frames |
| Cli.Count | src/cli.rs:233-237 | the number of handles to a bar is at most the number of handles, and zero exactly when no handle names it |
| Cli.CountAppend | src/cli.rs:233-237 | the count of handles to a bar adds up over concatenation |
| Cli.Advance | src/cli.rs:233-237 | `inc` on the handles keeps the set of bars |
| Cli.AdvanceAt | src/cli.rs:233-237 | each bar advances once per handle to it; nothing else about it changes |
| Cli.FinishEach | src/cli.rs:246-250 | `finish` on the handles keeps the set of bars |
| Cli.FinishEachAt | src/cli.rs:246-250 | exactly the bars that some handle points to are finished; their content and progress are kept (the position `finish` sets is left out) |
| Cli.FinishEachMarks | src/cli.rs:246-250 | every handled bar is finished afterwards |
| Cli.App.constructor | src/cli.rs:104-109 | an application starts with no bars and an empty display |
| Cli.App.Pb | src/cli.rs:112-154 | the bar for the row's key is inserted if new (its row added at the bottom), then restyled as `ApplyEffect` states; the returned handle is that bar |
| Cli.App.RenderSpecs | src/cli.rs:214-217 | the bars and order are those of `pb` applied to each row in turn; the handles are the rows' keys, all registered |
| Cli.App.GetProgressBars | src/cli.rs:156-219 | registers the frame's rows and returns their handles in row order; the registry stays consistent |
| Cli.App.IncAll | src/cli.rs:233-237 | every handled bar advances once per handle; the display order and the set of bars are kept |
| Cli.App.FinishAll | src/cli.rs:246-250 | every handled bar is finished; the display order and the set of bars are kept |
| Cli.App.TickFrame | src/cli.rs:233-237 | one frame registers the record's rows and advances each bar once per row naming it |
| Cli.App.FinalFrame | src/cli.rs:246-250 | the final frame registers the last record's rows as `pb` does, then finishes exactly the bars those rows name; every bar of the frame is finished afterwards |
| Cli.App.RunLoop | src/cli.rs:221-251 | the run fails at once exactly when the first fetch fails; each tick stops only on a complete record; every earlier tick rendered an incomplete record; a failed refresh aborts the run; a run out of ticks still holds an incomplete record with commits, so the outcomes exclude each other; on every outcome the registry is the one that a frame per rendered tick gives, and a finished run adds the final frame on top, with every bar of it finished |
| Cli.App.RunTicks | src/cli.rs:227-244 | the ticks render a frame per running record and refresh it at the next clock reading; they stop on a complete record, a lost record, a record without commits or the tick bound; the registry is that of one frame per rendered tick |
| Cli.App.RunStep | src/cli.rs:233-241 | one tick renders the current record's frame and refreshes the record; the registry gains exactly that frame |
| Cli.App.RunFrame | src/cli.rs:233-237 | a frame on top of the frames before it gives the registry of the longer run |
| Cli.TickStep | src/cli.rs:233-237 | one more frame registers its rows on top of the earlier frames and advances each bar once per row naming it |
| Cli.TickValid | src/cli.rs:227-244 | any run of frames keeps the registry consistent, and the rows already on display keep their places |
| Cli.RecordAtNext | src/cli.rs:239-241 | the record after one more round is the refresh of the current one at the next clock reading |
| Cli.RecordLostForever | src/cli.rs:239-241 | once a refresh has failed the record stays lost |
| Cli.RecordStamps | src/prinfo/prinfo.rs:127-141 | every record the loop holds is stamped, stamps never go back, and none lies after its round's clock |
| Cli.EmptyRollupEndsAtOnce | src/cli.rs:227-231 | a record with no checks renders no incomplete frame |
| Cli.CheckBarSpinner | src/cli.rs:143-211 | after a frame, the bar of a check whose name no later check reuses animates a spinner exactly while the check is incomplete, with the default spinner frames |
| Cli.UrlRowTakesDetailStyle | src/cli.rs:159-199 | the header's `url` row and the details' `url` row share one bar, which ends with the prefix style, not the indented `> {msg}` style |
| Cli.StateRowCountedTwice | src/cli.rs:191-200 | the `state` key occurs twice per frame |
| Cli.StateBarAdvancesTwo | src/cli.rs:191-237 | the shared `state` bar advances two steps per frame |
| GitCommands.RemoteGhName | src/git_commands.rs:10-15 | the result is the text strictly between the first `/` and the first `.git` of the URL; `None` exactly when either is missing or the first `.git` starts before the character after the first `/`, where the source panics |
| GitCommands.RemoteGhNameRoundTrip | src/git_commands.rs:13 | for `<host>/<name>.git<rest>` whose host holds no `/` and with no earlier `.git`, the name comes back |
| GitCommands.RemoteGhNameOfSchemeUrl | src/git_commands.rs:13 | for `<scheme>//<path>.git<rest>` with no `.git` before, the result is `/<path>`, host included |
| GitCommands.CurrentBranchName | src/git_commands.rs:17-27 | the name of the local branch that `HEAD` points to; `None` when `HEAD` is unreadable, names no local branch, or that branch's name is absent |
| GitCommands.GetMainBranch | src/git_commands.rs:29-37 | `main` when it exists, else `master` when it exists, else `Err("no branch found")` |
| PrInfoGh.LegacyStatusCheck.Label | src/prinfo_gh.rs:266-280 | ".." exactly for an incomplete check; a complete check maps its conclusion to one of the four labels as in the newer table |
| PrInfoGh.LegacyStatusCheck.ToString | src/prinfo_gh.rs:281 | the line is `[`, the label, `] `, the name, at positions fixed by the label's length |
| PrInfoGh.LegacyAgreesWhenComplete | src/prinfo_gh.rs:265-283 | on a completed check the draft and the newer label and display agree |
| PrInfoGh.LegacyPendingIsUnpadded | src/prinfo_gh.rs:279 | on an incomplete check the draft's placeholder is the newer " .. " without padding, so its line is two characters shorter |
| PrInfoGh.LegacyDisplayInjective | src/prinfo_gh.rs:265-283 | a line determines the check's label and name |
| PrInfoGh.CheckLines | src/prinfo_gh.rs:160-164 | one line per check, in rollup order |
| PrInfoGh.ChecksBlockSmall | src/prinfo_gh.rs:160-165 | no checks give an empty block; one check gives its own line |
| PrInfoGh.ChecksBlockLines | src/prinfo_gh.rs:160-165 | when no name holds a newline, splitting the block gives back each check's line in rollup order |

## Left out

- Running `gh`, serde JSON parsing, and git2 calls are I/O and foreign code.
  The model represents them by abstract inputs: the `Source` function, the
  `parsed` field of a shell result, and the `Repo` value.
- `PrInfo::get` parses a one-element JSON array. Which output parses, and to
  what, is an input of the model.
- The concurrency of `run_loop` is not modelled: the spawned refresh task, the
  shared mutex, and the race between a frame and a refresh. The model runs
  the refresh after the frame. A failed refresh panics inside the task and
  poisons the mutex, so the next lock aborts; the model returns `Aborted`.
- The 75 ms sleep is not modelled.
- Cli.App.RunLoop: the source loops until the record is complete. The model
  bounds the loop with `maxTicks` and returns `OutOfTicks` when the bound is
  reached.
- ANSI colouring of templates, labels and file-row messages is not modelled.
  Templates are plain strings and colours are an enum. The green `+` and red
  `-` of a file row's message (`src/cli.rs:181`) are plain characters. indicatif's rendering, its template parser
  (`with_template(..).expect`), and the bar position that `finish()` sets are
  not modelled either.
- Cli.App.FinalFrame: `finish` is modelled as only marking the bar finished.
- `StatusCheck::type_name` is left out; it is an unimplemented `todo!()`.
- The record fields that the core does not read are dropped. These include
  timestamps, URLs and workflow names of checks, and most record fields.
- `PrInfo::to_string` of `src/prinfo/prinfo.rs` is left out: it is a format
  template. From the draft's `to_string` only the checks block is modelled.
- `PrInfo::create` is left out: it is `gh` and git2 plumbing.
- `App::new`'s argument parsing and branch lookup are left out. Only the empty
  registry is modelled.
- `current_repo` and `get_merge_base` are left out: they are git2 calls.
- `current_branch` is folded into `Repo`: `head` is the shorthand, and
  `branches` maps each local branch to its name.
- `src/shell.rs`, `src/args.rs`, `src/main.rs` and `src/prinfo.rs` are not part
  of this model. They are subprocess handling, argument parsing, the entry
  point, and a regex-based draft.
- CliRows.LongestPath counts characters, while `longest_file` takes
  `path.len()`, the length in UTF-8 bytes (`src/cli.rs:172-177`). For a
  non-ASCII path the `{prefix:N}` width of the file rows therefore differs.
- GitCommands.RemoteGhName follows the code: it cuts after the first `/`. For
  an `https://host/owner/repo.git` URL the result is `/host/owner/repo`, not
  `owner/repo` (`RemoteGhNameOfSchemeUrl`).
- `src/prinfo_gh.rs` does not compile as written: it declares its own check
  enums (`Action_Required` and the like, `src/prinfo_gh.rs:15-38`), while its
  label match names `CheckStatusState::COMPLETED` and
  `CheckConclusionState::ACTION_REQUIRED` (`src/prinfo_gh.rs:268-276`),
  variants of neither. The model follows the evident intent and reads the
  draft's label over the enums of `Models`.
- Integer widths (`u32`, `usize`) are unbounded in the model. No arithmetic of
  the core comes near their limits.
- PrInfoOps.Sha: the code unwraps `commits.last()`, so a record without
  commits panics; the model follows the code with a `requires`.
- The draft's `sha` (`src/prinfo_gh.rs:169-171`) is the same code as
  `PrInfo::sha` on the same commits, so it is not modelled twice; see
  `PrInfoOps.Sha`.
- PrInfoOps.MapToString: its own contract covers only the empty and single
  cases. The general join is stated by `MapToStringRoundTrip`.
