# Tencent-Notifier: chapter reconciliation, modelled in Dafny

The notifier watches a list of comic series. On every run it fetches each
series' chapter list, compares it with the watermark stored for that series
(the last chapter number seen, and the *tracking type* the number was
counted under), announces the chapters that are new, and stores the new
watermark. This project models that reconciliation step and the in-memory
state map it reads and writes, and proves what the step guarantees.

Modules:

- `Chapters` (`chapters.dfy`): the chapter record and the list operations
  the step uses: selection by number, the maximum number, the first
  chapter carrying a number.
- `Sorting` (`sorting.dfy`): the stable sort by chapter number applied to
  the new chapters, with proofs that it sorts, permutes and keeps ties in
  fetch order, and that it is the only function that does all three.
- `Reconciliation` (`reconcile.dfy`): the per-series decision as a pure
  function `Reconcile`, its properties, and the program's loops
  (`ComputeDecision` and its helpers) proved to compute it.
- `State` (`state.dfy`): the URL-keyed state map as a class, `StateStore`,
  with lookup-with-default and upsert.
- `Driver` (`driver.dfy`): the loop over the configured series (`Run`),
  proved equal to a fold of `Step` over the series, with lemmas about
  whole runs.
- `Scenarios` (`scenarios.dfy`), supporting: worked cases on small lists.
- `Tracking` (`tracking.dfy`), supporting: the tracking-type names `"unknown"` and
  `"number"`.
- `Wrappers` (`wrappers.dfy`), supporting: `Option`.

Chapter numbers are `real`: the program only compares them and takes
maxima, and `-1.0` (`Unnumbered`) stands for "no number" and for "never
initialised". Tracking types are strings, since the state file may hold
any string. The scraper never reports a tracking type, so the driver
falls back to `"number"` (`Driver.CurrentType`). `Reconcile` still takes
the type as a parameter.

Two behaviours of the code are easy to miss:

- When every fetched chapter is unnumbered on a first run, the code still
  announces one chapter. The `next(...)` search at `main.py:172` finds the
  first chapter numbered `-1.0`. The stored watermark stays `-1.0`, so
  every later run announces that chapter again
  (`Driver.StepReannouncesUnnumbered`).
- The stored watermark can go down. A tracking-type conflict or the legacy
  migration resets it to the maximum of the new fetch. It never goes down
  on the incremental path (`Driver.StepKeepsWatermarkMonotone`,
  `Reconciliation.IncrementalAdvances`).

## Model

| member | source | states |
|---|---|---|
| `State.StateStore.constructor` | main.py:69-71 | the store starts from the map loaded from the state file |
| `State.StateStore.Get` | main.py:90-92 | a stored entry is returned as stored; a URL with no entry gets `{-1.0, "unknown"}` |
| `State.StateStore.Update` | main.py:94-98 | the entry for the URL becomes `{number, type}`; every other URL keeps its presence and its entry |
| `Driver.ReadWatermark` | main.py:133-135 | a field that is present reads as stored; a missing number reads as `-1.0` and a missing type as `"unknown"` |
| `Driver.CurrentType` | main.py:127 | the scraper's tracking type when it reports one, `"number"` otherwise |
| `Driver.AliasOf` | main.py:120 | the configured alias when there is one, `"Unknown Series"` otherwise |
| `Driver.Announce` | main.py:173-185 | one notification per chapter, in the given order, each under the series' alias |
| `Driver.Apply` | main.py:166-193 | with no new watermark the state is unchanged; with one, the series' entry reads back as that watermark; no other URL's entry changes |
| `Reconciliation.Effective` | main.py:137-146 | the comparison watermark is `-1.0` when the stored type is known and differs from the current one, `-1.0` when the type is `"unknown"`, the number exceeds 50000 and the current type is `"number"`, and the stored number otherwise |
| `Reconciliation.Reconcile` | main.py:129-193 | an empty fetch announces nothing and writes nothing; the first-run path is taken exactly when the fetch is non-empty and the comparison watermark is `-1.0`; only fetched chapters are announced |
| `Reconciliation.FirstRunSeedsLatest` | main.py:152-177 | on the first-run path exactly one chapter is announced: the first in list order with the highest number, even when that number is `-1.0`; the watermark written is that number, under the current type |
| `Reconciliation.IncrementalAnnouncesNewer` | main.py:158-160 | on the incremental path a chapter is announced exactly when it was fetched and is numbered above the stored watermark, and as many times as it was fetched |
| `Reconciliation.IncrementalOrder` | main.py:182-185 | announcements are in non-decreasing number order; chapters sharing a number keep their fetch order |
| `Reconciliation.IncrementalWritesIffAnnounces` | main.py:179-193 | on the incremental path the state is written exactly when some chapter is announced |
| `Reconciliation.IncrementalAdvances` | main.py:156-163 | the written watermark is the highest of the old watermark and the fetched numbers, strictly above the old one; with nothing written, no fetched number is above the old watermark; every announced number lies above the old watermark and at most the new one |
| `Reconciliation.HighestNumber` | main.py:152-154 | the loop's result is the maximum of the fetched numbers (`MaxOf`) |
| `Reconciliation.ScanNewer` | main.py:149-163 | the loop collects exactly the chapters above the watermark, in fetch order, and the maximum of the watermark and the fetched numbers |
| `Reconciliation.FindFirst` | main.py:172 | the search returns the position of the first chapter with the given number, or the list length when there is none |
| `Reconciliation.ComputeDecision` | main.py:129-193 | the program's loops reach the decision `Reconcile` specifies |
| `Chapters.MaxOf` | main.py:154 | the result bounds every fetched number and is one of them |
| `Chapters.MaxFrom` | main.py:156-163 | the result is at least the starting watermark, bounds every fetched number, and is the watermark or one of the numbers |
| `Chapters.FirstMatch` | main.py:172 | no result exactly when no chapter carries the number; otherwise the position of the first chapter that does |
| `Chapters.Select` | main.py:158-160 | the filtered list is no longer than the fetched one; which chapters it keeps, and how often, is stated by `SelectMembers` and `SelectCount` |
| `Chapters.SelectCount` | main.py:158-160 | filtering keeps every matching chapter as often as it occurs and drops the rest |
| `Chapters.SelectMembers` | main.py:158-160 | a chapter survives the filter exactly when it was in the list and matches |
| `Sorting.Sort` | main.py:182 | the result is a permutation of the input, in non-decreasing number order |
| `Sorting.SortKeepsTieOrder` | main.py:182 | the sort is stable: for every number, the chapters carrying it keep their relative order |
| `Sorting.SortIsUnique` | main.py:182 | any sorted rearrangement that keeps tie order equals `Sort`, so the result does not depend on the sorting algorithm used |
| `Driver.Step` | main.py:118-196 | a series with an empty fetch leaves the state as it was and announces nothing; processing a series changes no other series' entry |
| `Driver.Run` | main.py:118-198 | the loop over the configured series leaves the state and the announcements that the fold of `Step` over the series gives |
| `Driver.RunSpec` | main.py:118-198 | every announcement of a run carries a chapter fetched for some series, under that series' alias |
| `Driver.RunKeepsOtherSeries` | main.py:118-198 | a run leaves alone the entry of every URL that is not among its series |
| `Driver.StepKeepsWatermarkMonotone` | main.py:137-193 | when neither reset applies, processing a series never lowers its stored watermark; for an uninitialised `-1.0` watermark this needs every fetched number to be at least `-1.0`, as the scraper's are |
| `Driver.StepAtTopIsQuiet` | main.py:179-193 | a series whose watermark already bounds every fetched number is left alone |
| `Driver.StepSettles` | main.py:152-193 | processing the same fetch a second time announces nothing and changes nothing, unless the watermark is still `-1.0` |
| `Driver.StepReannouncesUnnumbered` | main.py:166-177 | when every fetched chapter is unnumbered and no comparable watermark is stored, one chapter is announced, the watermark stays `-1.0`, and the same fetch announces it again |
| `Scenarios.FirstRunExample` | main.py:166-177 | a new series with chapters 1, 2, 3 announces chapter 3 and stores 3 |
| `Scenarios.StaleFetchExample` | main.py:179-193 | with watermark 5, a fetch of chapters 1, 2, 3 announces nothing and writes nothing |
| `Scenarios.TrackingConflictExample` | main.py:138-140 | a watermark of 10 stored under `"id"` is discarded for a `"number"` fetch of chapters 1, 2, which announces chapter 2 and stores `{2, "number"}` |
| `Scenarios.LegacyIdExample` | main.py:143-146 | an `"unknown"`-typed stored number of 650000 is discarded for a `"number"` fetch of chapter 7, which is announced and stored |
| `Scenarios.IncrementalExample` | main.py:179-193 | with watermark 3, a fetch of chapters 1 to 5 announces chapters 4 and 5, in that order, and stores 5 |
| `Scenarios.LegacyEntryExample` | main.py:131-146 | a state entry holding 650000 and no tracking type, processed with a fetch of chapter 7 and no reported type, is rewritten as `{7, "number"}` and chapter 7 is announced under the default alias |

## Left out

- `scraper.py` is not part of this model. It parses HTML over HTTP, extracts numbers from titles with a regular expression and `float()`, and reads the clock. Its output enters the model as the `chapters` and `trackingType` of a `Driver.Fetch`. A failed fetch appears as an empty chapter list, which is what the scraper returns on error.
- `DiscordNotifier` (main.py:18-66) is an HTTP POST with one retry after a 429 response, plus wall-clock timestamps. An announcement is modelled as a `Notification` appended to the sequence `Run` returns. Whether delivery succeeds is not modelled, because a failure only logs and never changes the state.
- Series metadata (`series_info`) only decorates the message and is left out.
- `load_state`, `save_state` and config loading (main.py:73-88, 101-112) are JSON file I/O. The loaded map is the constructor's argument; an unreadable file gives the empty map. Saving is not modelled. The two fatal config errors (no config file, no `webhook_url`) end the program before the loop, so `Run` starts after them. Two malformed `series` entries are not modelled either, since `Driver.Fetch` cannot represent them: an entry without `"url"` raises `KeyError` at `main.py:119`, which ends the run before `save_state` (`main.py:198`) and loses that run's progress; an entry with `"alias": null` is announced under `None` rather than `"Unknown Series"` (`main.py:120`).
- State files whose fields hold non-numeric or non-string JSON values are not modelled, and neither is an entry that is not a JSON object at all (say `"url": 5`): on it `main.py:134` raises `AttributeError`, the run ends before `save_state`, and the whole run's progress is lost. Only missing fields are modelled, through `Driver.ReadWatermark`.
- `time.sleep` rate limiting and all logging are left out. They have no effect on the state or on what is announced.
- IEEE floating point (NaN, rounding) is not modelled. Chapter numbers are only compared and maximised, so `real` gives the same comparisons for every finite value.
- `Sorting.Sort` is an insertion sort, not CPython's algorithm. `Sorting.SortIsUnique` shows that every stable sort by number gives the same result.
- The `"number"` default of `update_series_state`'s `tracking_type` parameter is not modelled. Both call sites pass the type explicitly.
