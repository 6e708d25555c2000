# goodlinks2insta sync engine, modelled in Dafny

`goodlinks2insta.py` copies the links saved in the GoodLinks macOS app to
Instapaper. The `sync` command enumerates GoodLinks' links through an
AppleScript. It drops the ids already recorded in a local state file and
posts each remaining link to Instapaper, retrying transient failures with
exponential back-off. It records the ids that were published, saving the
state after every tenth link and once at the end, and closes GoodLinks again
if it opened it. The `status` command prints the counts and the first
pending titles.

This project models that engine. Every external effect is an input:
- the AppleScript run is a `ScriptRun` (return code, stdout, stderr);
- every `is_goodlinks_running()` probe is a boolean;
- the server's answer to the n-th request of a run is `net(n)`;
- the state file is the history of the sets saved to it.

Modules, one per part of the program:

- `Text`: Python's `str.strip()`, `str.split(sep)` and `sub in s` on
  `seq<char>`. Stripping is defined for any character class and used with
  Python's whitespace class (`IsSpace`).
- `Links`: the listing the AppleScript prints and the `get_goodlinks`
  parser, including its error path.
- `PendingLinks`: the pending filter shared by `cmd_sync` and `cmd_status`.
- `Publisher`: `add_to_instapaper`. There is a recursive reference
  definition (`Publish`) and the loop itself (`AddToInstapaper`), which is
  proved equal to it.
- `Sync`: the publish loop of `cmd_sync`, with its counters and its flush
  schedule. It is proved against functions that give the state after the
  first `n` links.
- `Lifecycle`: `ensure_goodlinks_running`.
- `Command`: `cmd_sync` as a whole (guard, `try`/`finally`, dry run, empty
  pending list, loop) and `cmd_status`.

Where the code and its comments or documentation disagree, the model follows
the code:
- The back-off waits are `2**attempt` = 1, 2, 4 seconds (line 223 says 2, 4, 8).
- A 403 raises out of the loop, and the `finally` only quits GoodLinks. The
  ids published since the last periodic save are therefore not saved, and
  `Sync.AbortBeforeFirstFlush` shows that an abort on any of the first ten
  links saves nothing at all.
- Links that share an id are not deduplicated
  (`PendingLinks.PendingKeepsDuplicates`).
- The state file is rewritten in place, with no atomic replace and no
  handling of a corrupt file.
- `strip()` is applied to the whole output before it is split into lines.
  When the last link's title is empty, this removes the tab in front of it,
  and the link is lost (`Links.EmptyLastTitleDropped`). An empty id on the
  first link is lost the same way. `Links.ListingRoundTrip` proves that
  parsing gives back every link when no field holds a tab, newline or
  carriage return, the first id is non-empty and does not start with
  whitespace, and the last title is non-empty and does not end with it.

## Model

| member | source | states |
|---|---|---|
| `Text.Split` | goodlinks2insta.py:135-137 | `s.split(sep)` has exactly one more piece than `s` has separators |
| `Text.SplitPieces` | goodlinks2insta.py:135-137 | the pieces of a split are separator-free and join back to the string |
| `Text.SplitJoin` | goodlinks2insta.py:135-137 | joining separator-free pieces and splitting again gives the same pieces |
| `Text.Strip` | goodlinks2insta.py:135 | `strip()` never lengthens the string; `Text.StripInfix` characterises it |
| `Text.Contains` | goodlinks2insta.py:126 | `sub in s` as a definition: some position of `s` starts with `sub`; no contract of its own |
| `Text.StripInfix` | goodlinks2insta.py:135 | `strip()` leaves an infix: the string is whitespace, then the result, then whitespace, and the result starts and ends with non-whitespace |
| `Links.Listing` | goodlinks2insta.py:114-122 | the script's output as a definition: every row `id TAB url TAB title` followed by a newline; characterised by `Links.ListingIsJoin` and `Links.ListingRoundTrip` |
| `Links.Lines` | goodlinks2insta.py:135 | the stripped output split on newlines, as a definition; `Links.StripListing` and `Links.LinesEmptyTitle` state what it gives for listings |
| `Links.ParseLine` | goodlinks2insta.py:136-139 | one line's record, as a definition; characterised by `Links.ParseLineSpec` |
| `Links.ParseLineSpec` | goodlinks2insta.py:136-139 | a line yields a record iff it has at least two tabs; the record's id, url and title are the first three tab-free fields, and the line is that row, possibly followed by a tab and more |
| `Links.RecordsOf` | goodlinks2insta.py:134-140 | never more records than lines |
| `Links.RecordsOfAppend` | goodlinks2insta.py:135-139 | records follow line order: the records of `a + b` are those of `a`, then those of `b` |
| `Links.RecordsOfMember` | goodlinks2insta.py:135-139 | a record is emitted iff some line parses to it |
| `Links.GetLinks` | goodlinks2insta.py:124-140 | a non-zero return code fails, as "not reachable" iff stderr contains "No such process" or "not running", and otherwise with stderr; return code 0 gives the records of the stripped, split output |
| `Links.ListingRoundTrip` | goodlinks2insta.py:114-140 | parsing the script's listing of links with fields free of tabs, newlines and carriage returns gives the links back, when the first id is non-empty and does not start with whitespace and the last title is non-empty and does not end with it |
| `Links.EmptyLastTitleDropped` | goodlinks2insta.py:135 | the listing of one link with an empty title parses to no record at all |
| `PendingLinks.Pending` | goodlinks2insta.py:293 | pending is never longer than the source list |
| `PendingLinks.PendingMember` | goodlinks2insta.py:293 | a link is pending iff it is a source link whose id is not synced |
| `PendingLinks.PendingAppend` | goodlinks2insta.py:293 | filtering keeps source order |
| `PendingLinks.PendingKeepsDuplicates` | goodlinks2insta.py:293 | an unsynced link is pending as many times as it occurs in the source |
| `PendingLinks.PendingEmpty` | goodlinks2insta.py:293 | nothing is pending iff every source id is synced |
| `PendingLinks.PendingNoneSynced` | goodlinks2insta.py:341 | with an empty synced set every link is pending |
| `PendingLinks.PendingAntitone` | goodlinks2insta.py:293 | a larger synced set never leaves more links pending |
| `Publisher.Classify` | goodlinks2insta.py:210-264 | an attempt succeeds iff the status is 201, raises iff it is 403, is retried iff it is a 5xx status, a timeout or a connection error, and gives up otherwise |
| `Publisher.PublishFrom` | goodlinks2insta.py:201-266 | the retry loop from one attempt on, as a recursive definition; characterised by `Publisher.PublishFromShape` |
| `Publisher.Publish` | goodlinks2insta.py:201-266 | one whole call, as a definition; characterised by `Publisher.PublishCharacterized` and `Publisher.PublishAddedIff` |
| `Publisher.AddToInstapaper` | goodlinks2insta.py:197-266 | the retry loop returns exactly the outcome, request count and waits of the reference definition `Publish` |
| `Publisher.PublishFromShape` | goodlinks2insta.py:201-259 | from attempt `a` on, the loop ends within the budget, after transient failures only, waiting `2**k` before the retry following attempt `k` |
| `Publisher.PublishCharacterized` | goodlinks2insta.py:201-266 | a negative budget makes no request and returns `False`; otherwise 1 to `maxRetries + 1` requests, all but the last transient, waits 1, 2, 4, ..., and the last event decides the outcome |
| `Publisher.PublishAddedIff` | goodlinks2insta.py:210-211 | `True` iff some request within the budget got status 201 after transient failures only; 200 is not success |
| `Publisher.PublishAuthStops` | goodlinks2insta.py:212-216 | a 403 ends the call at that attempt: no later request, and a raise whenever that attempt is reached |
| `Publisher.PublishAlwaysTransient` | goodlinks2insta.py:220-259 | an always-failing server gets `maxRetries + 1` requests, waits `2**j`, and `False` |
| `Publisher.PublishAlways503` | goodlinks2insta.py:220-233 | always 503 with three retries: 4 requests, waits [1, 2, 4], `False` |
| `Sync.CallBase` | goodlinks2insta.py:309-313 | the number of requests made by the first `k` calls, as a definition; bounded by `Sync.CallBaseBound` |
| `Sync.Call` | goodlinks2insta.py:309-313 | call `k` of the run, starting at request `CallBase(k)`, as a definition; `Sync.AllAccepted` evaluates it |
| `Sync.Snapshot` | goodlinks2insta.py:311-315 | the synced set after `n` links, as a definition; characterised by `Sync.SnapshotMember` and `Sync.SnapshotMonotone` |
| `Sync.PeriodicSaves` | goodlinks2insta.py:321-322 | the saves made in the first `n` iterations, as a definition; characterised by `Sync.PeriodicSavesAt` and `Sync.SavesGrow` |
| `Sync.CountOf` | goodlinks2insta.py:307-318 | a counter never exceeds the number of links processed |
| `Sync.ProcessNext` | goodlinks2insta.py:309-322 | one loop iteration without a raise moves from the state after `i` links to the state after `i + 1` |
| `Sync.SyncLoop` | goodlinks2insta.py:307-324 | a completed loop reached every call, counts successes and failures, holds the initial set plus the published ids, saved at every tenth link and at the end; an aborted loop stopped at the first 403, after which no call is made, and saved only the periodic snapshots before it |
| `Sync.CompletedAccounting` | goodlinks2insta.py:307-319 | on completion, new plus failed equals the number of pending links |
| `Sync.SnapshotMember` | goodlinks2insta.py:311-315 | an id is in the synced set iff it was there before or a processed link with that id was published; failed ids are never added |
| `Sync.SnapshotMonotone` | goodlinks2insta.py:314 | the synced set never loses members |
| `Sync.PeriodicSavesAt` | goodlinks2insta.py:321-322 | after `n` links there were `n / 10` periodic saves, the j-th right after link `10 * (j + 1)` |
| `Sync.SavesGrow` | goodlinks2insta.py:321-324 | every saved snapshot contains the initial set and the snapshot before it |
| `Sync.AbortBeforeFirstFlush` | goodlinks2insta.py:321-334 | a 403 on any of the first ten links leaves no save at all |
| `Sync.CallBaseBound` | goodlinks2insta.py:201 | `k` calls make at most `k * (maxRetries + 1)` requests |
| `Sync.AllAccepted` | goodlinks2insta.py:210-211 | against a server that always answers 201, call `k` is request `k` alone and adds its link |
| `Sync.AllAddedIds` | goodlinks2insta.py:311-315 | when every call adds its link, the published ids are the ids of the links processed |
| `Sync.TwentyFiveAccepted` | goodlinks2insta.py:309-324 | 25 links, all accepted: the saves hold the initial ids plus the first 10, 20 and 25 ids, in that order |
| `Lifecycle.EnsureRunning` | goodlinks2insta.py:91-109 | ready without a launch when the app is running; a launch iff it is not running and launching is enabled; ready iff it was running or the probe after the launch finds it running |
| `Command.Load` | goodlinks2insta.py:143-146 | the last saved set, or the empty set when nothing was saved, as a definition; `Command.LoadAfterSave`, `Command.LoadAfterAbort` and `Command.SecondRunFindsNothing` state what it gives after a run |
| `Command.LoadAfterSave` | goodlinks2insta.py:143-151 | a save followed by a load gives the saved set |
| `Command.CmdSync` | goodlinks2insta.py:269-334 | quit is attempted iff the guard succeeded and the app was not running at the start; a failed enumeration fails as "not reachable" iff stderr contains "No such process" or "not running", and otherwise with the script's stderr; a failed guard, a failed enumeration, a dry run and an empty pending list send no request and save nothing; otherwise the loop's results and saves, appended to the history |
| `Command.LoadAfterAbort` | goodlinks2insta.py:309-334 | after a 403 on pending link `item`, the state file holds what it held before the run if `item < 10`, and otherwise the snapshot after link `10 * (item / 10)`, the last periodic save |
| `Command.SecondRunFindsNothing` | goodlinks2insta.py:291-324 | after a run that completed without failures, the state file holds the final snapshot, and filtering the same links against it leaves nothing pending |
| `Command.NoFailureAllAdded` | goodlinks2insta.py:307-319 | a run with no raise and no failure added every link |
| `Command.CompletedRunLeavesNothingPending` | goodlinks2insta.py:291-324 | after a run that completed without failures, filtering the same links against the last save leaves nothing pending |
| `Command.NewIdsArePending` | goodlinks2insta.py:293-314 | every id a run adds belongs to a source link that was not synced before |
| `Command.Summary` | goodlinks2insta.py:341-352 | status shows the total, the stored set's size, the pending count, the titles of the first ten pending links, and "N more" exactly when there are more than ten |
| `Command.StatusAfterReset` | goodlinks2insta.py:339-345 | with no saved state every link is pending and the synced count is 0 |
| `Command.CmdStatus` | goodlinks2insta.py:337-352 | a failed enumeration fails as "not reachable" iff stderr contains "No such process" or "not running", and otherwise with the script's stderr; otherwise the summary of the parsed links against the loaded set |

## Left out

- Process control (`pgrep`, `open -a`, `osascript`, lines 70-88 and 124) is
  not modelled. Its answers are inputs: the probes' booleans and the
  script's return code and output.
- A failing `open -a` raises out of `launch_goodlinks` (line 78) and out of
  `cmd_sync`. This case is not modelled: the guard treats every launch as
  done and decides from the next probe.
- A failing quit (lines 84-88 and 331-334) is only logged, so the model records that
  a quit was attempted, not whether it worked.
- `requests.post` and the exception classes are reduced to four events: a
  status code, a timeout, a connection error and any other request
  exception. The URL, title and credentials sent are not modelled.
- The model does not sleep. `time.sleep` becomes the list of waits.
- JSON reading and writing of the state file, `mkdir`, `unlink` in
  `cmd_reset` and `chmod` are not modelled. The state file is the history
  of saved sets, and reset is loading from an empty history. A state file
  that does not parse as JSON raises in the program; the model has no such
  file.
- `load_config`, `cmd_init`, `main` and argparse are command-line plumbing
  and are not part of this model. The missing-key errors in the
  configuration are not modelled either.
- Logging and `setup_logging` are not modelled.
- Command.Summary: titles are not cut to 60 characters (line 350), and the
  dry run's titles are not cut to 70 characters. The cut is cosmetic.
- Concurrency is not modelled. GoodLinks may start or stop between probes,
  which is why each probe is a separate input. The links may also change
  between runs, so the lemmas about a second run take the same links.
- Python's universal-newline translation of the script's output (`text=True`,
  line 124) is not modelled: `stdout` is the text after that translation. A
  carriage return inside a field would become a line break, so
  `Links.ListingRoundTrip` requires fields without one.
- Unicode is handled only at the level of code points. Python's
  `isspace()` class is written out. No normalisation or encoding is
  modelled.
