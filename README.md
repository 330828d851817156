# cron-refresh: the site reconciler and the request log, in Dafny

cron-refresh is a browser utility that reopens configured URLs in a window on
cron schedules, plus a variant that opens URLs on request from a socket server.
This project models the two pieces of logic it has:

* **The runner reconciliation of `src/App.tsx`.** The app keeps a list of sites
  `{id, cron, url, running}`. After every change to the list, an effect brings two
  mutable maps keyed by site id into line with it: `runners` (id to
  `{cron, url, job}`) and `handles` (id to the window last opened for the site).
  It works in three steps:
  1. It deletes the runners of ids no longer listed. It stops their jobs, closes
     their windows and forgets their handles.
  2. It creates a runner for each new id. Where a site's cron or URL differs from
     its runner's record, it stops the old job and builds a replacement.
  3. It starts or stops each job to match the site's `running` flag.

  The list updaters passed to `setSites` are modelled too: `onAdd`, `onDelete`,
  `onUpdate`, and the deserializer that loads every saved site as stopped.
* **`addToLog` of `src/WsApp.tsx`.** It keeps the 100 most recent requests,
  newest first.

## Layout

* `site_list.dfy`, module `SiteList`: `Site`, and the pure updaters `Add`, `Delete`,
  `Update` and `Restore`, with their lemmas.
* `runners.dfy`, module `Runners`: the effect as functions over a value `World`
  (`runners`, `handles`, and `jobs`, every CronJob object built so far). A
  `JobRef` is a position in `jobs` and stands for the job object's identity, so
  "the same job object" means "the same `JobRef`". `makeCron` appends a stopped
  job. Whether the cron library accepts an expression is the uninterpreted
  parameter `parses`. `Owned` is the invariant the effect keeps. It says every
  runner's job was built for that runner's site, and no job runs unless a runner
  holds it (no leaked timers).
* `effect.dfy`, module `Effect`: class `Refresher`. Its fields are the two refs and
  the jobs. Its methods run the effect's two loops in place. `Reconcile` is proved
  to leave exactly the state `Runners.Reconciled` describes.
* `record_fix.dfy`, module `RecordFix`: the finding below.
* `request_log.dfy`, module `RequestLog`: `AddToLog` and its properties. `Newest`
  is a reference definition of the log, and `ReplayIsNewest` proves the two agree.
* `wrappers.dfy`: `Option`, used where the source has `null`.

The comment `// Create or update runners` (src/App.tsx:137) suggests that a
runner follows its site. The code compares each site against the runner's record,
though, and src/App.tsx:146-148 write that record only when the runner is
created. The model follows the code. So an edit that returns a cron to its recorded value replaces nothing,
and a cron or URL that once changed has its job rebuilt on every later pass
while it differs from the record (`Runners.RebuiltEveryTime`). `Effect.Refresher` reproduces this behaviour.

## Model

| member | source | states |
|---|---|---|
| `SiteList.Add` | src/App.tsx:103-111 | appends exactly one site: id `now`, cron `0 0 * * * *`, URL `https://reddit.com`, stopped; earlier sites unchanged |
| `SiteList.Delete` | src/App.tsx:114-116 | removes exactly the site at the index (a negative index counts from the end) and shifts later ones down; an out-of-range index leaves the list unchanged |
| `SiteList.DeleteRemovesOne` | src/App.tsx:114-116 | the deleted list plus the removed site is the original multiset |
| `SiteList.DeleteUndoesAdd` | src/App.tsx:103-116 | deleting the site `onAdd` appended, by its index or by -1, gives back the list from before |
| `SiteList.Update` | src/App.tsx:118-120 | changes only the edited field of the site at the index; the id and every other site stay |
| `SiteList.UpdateUndo` | src/App.tsx:118-120 | an edit followed by the edit restoring the old value gives back the list |
| `SiteList.Restore` | src/App.tsx:91-98 | loaded list has the same length, every site stopped, ids, crons and URLs unchanged |
| `SiteList.RestoreIdempotent` | src/App.tsx:91-98 | loading an already loaded list changes nothing |
| `Runners.Find` | src/App.tsx:125 | `find` gives a site exactly when the id is listed, and the site it gives has that id |
| `Runners.DeleteStale` | src/App.tsx:123-135 | the first pass keeps every runner's job pointing at a job built for its site |
| `Runners.DropOne` | src/App.tsx:124-135 | one loop step on a stale key removes that runner, stops its job, and removes its handle only when the handle is a window |
| `Runners.StaleStep` | src/App.tsx:124-125 | a visited key joins the deleted ids exactly when no site has it |
| `Runners.DeletePassRunners` | src/App.tsx:124-127 | after the first pass the runner keys are the old keys that are still listed, and those runners are unchanged |
| `Runners.DeletePassJobs` | src/App.tsx:124-127 | the job of every deleted runner is stopped with its other fields kept; every other job, whether a kept runner holds it or no runner does, is untouched |
| `Runners.DeletePassHandles` | src/App.tsx:129-133 | a deleted runner's handle is removed when it is a window; a `null` handle and all other handles stay unchanged |
| `Runners.DeletePassOwned` | src/App.tsx:124-135 | the first pass leaves no job running without a runner |
| `Runners.Replace` | src/App.tsx:138-152 | after create-or-replace the site has a runner and every runner's job belongs to its site |
| `Runners.MakeCron` | src/App.tsx:26-32 | a job exactly when the cron parses: a new stopped job of the site's id, cron and URL appended after the existing jobs; otherwise the jobs are unchanged |
| `Runners.StartStop` | src/App.tsx:154-161 | the site's job, if it has one, ends up running exactly when `site.running`; no other job, runner or handle changes |
| `Runners.SyncSite` | src/App.tsx:138-162 | after one iteration the site has a runner, its job (if any) runs exactly when `site.running`, and jobs are only added |
| `Runners.SyncAll` | src/App.tsx:137-162 | the second loop keeps every runner's job pointing at a job of its site, never touches handles, and only adds jobs |
| `Runners.Reconciled` | src/App.tsx:122-163 | the whole effect keeps runner jobs pointing at jobs of their sites |
| `Runners.ReplaceOnChange` | src/App.tsx:140-144 | cron or URL differs from the record: old job stopped, a new one built from the site (none if the cron does not parse), record left stale, other jobs unchanged |
| `Runners.KeepOnMatch` | src/App.tsx:139-161 | cron and URL match the record: runners unchanged, same job object, only its running flag set to the site's |
| `Runners.CreateOnNew` | src/App.tsx:145-152 | a new id gets a runner recording the site's cron and URL, with a new job if the cron parses and none otherwise |
| `Runners.RebuiltEveryTime` | src/App.tsx:140-148 | with a stale record and a cron that parses, two passes over an unchanged site build two new jobs, and the first is stopped |
| `Runners.SyncSiteFrame` | src/App.tsx:138-162 | handling one site leaves every other id's runner and its job unchanged |
| `Runners.SyncSiteOwned` | src/App.tsx:138-162 | one iteration leaves no job running without a runner |
| `Runners.SyncAllKeys` | src/App.tsx:138-152 | the second loop's runner keys are the old keys plus every listed id |
| `Runners.SyncAllOwned` | src/App.tsx:137-162 | the second loop leaves no job running without a runner |
| `Runners.SyncAllRunning` | src/App.tsx:155-161 | after the second loop, a listed id's job runs exactly when the last site with that id says so |
| `Runners.SyncAllKeepsMatched` | src/App.tsx:139-161 | sites that match their runner's record leave that runner and job object unchanged through the loop |
| `Runners.ReconcileKeepsMatched` | src/App.tsx:122-163 | across the effect, a listed site matching its record keeps the same runner and job object |
| `Runners.ReconcileKeys` | src/App.tsx:124-152 | after the effect the runner keys are exactly the listed ids |
| `Runners.ReconcileOwned` | src/App.tsx:122-163 | the effect leaves no job running without a runner |
| `Runners.ReconcileRunning` | src/App.tsx:155-161 | after the effect each listed id's job runs exactly when the last site with that id says so |
| `Runners.ReconcileRunningDistinct` | src/App.tsx:155-161 | with distinct ids, every site's job runs exactly when the site says so |
| `Runners.ReconcileStopsRemoved` | src/App.tsx:124-135 | a removed site's job ends up stopped, and every running job belongs to a listed site |
| `Runners.LoadStartsNothing` | src/App.tsx:87-163 | loading saved sites and running the effect on a fresh page starts no job |
| `Effect.Refresher.constructor` | src/App.tsx:100-101 | both maps start empty, with no jobs; the invariant holds |
| `Effect.Refresher.Stop` | src/App.tsx:142 | `job.stop()` clears that job's running flag only |
| `Effect.Refresher.Start` | src/App.tsx:159 | `job.start()` sets that job's running flag only |
| `Effect.Refresher.MakeCron` | src/App.tsx:26-32 | builds a new stopped job for the site when the cron parses, otherwise gives none |
| `Effect.Refresher.Refresh` | src/App.tsx:22-24 | records what `window.open` gave as the site's handle, replacing any earlier one |
| `Effect.Refresher.DeleteOld` | src/App.tsx:123-135 | the first loop, over a snapshot of the keys, leaves the state of `Runners.DeleteStale` |
| `Effect.Refresher.DeleteIfGone` | src/App.tsx:125-134 | one iteration deletes the key exactly when no site has it |
| `Effect.Refresher.Sync` | src/App.tsx:139-161 | one iteration of the second loop leaves the state of `Runners.SyncSite` |
| `Effect.Refresher.Reconcile` | src/App.tsx:122-163 | the effect keeps the invariant, leaves the state of `Runners.Reconciled`, and the runner keys are the listed ids |
| `RecordFix.EditBackLeavesNoJob` | src/App.tsx:139-152 | as written, one effect run per edit: add a site, edit its cron to an invalid value, edit it back, switch the site on; the cron parses, yet the site has no job |
| `RecordFix.EditUrlBackKeepsOtherUrl` | src/App.tsx:139-155 | as written, one effect run per edit: add a site, edit its URL to another one while it is stopped, edit it back, switch the site on; the site names its own URL again, yet its running job opens the other URL |
| `RecordFix.ReplaceIntended` | src/App.tsx:138-152 | corrected create-or-replace step: the site has a runner and job references stay valid |
| `RecordFix.SyncSiteIntended` | src/App.tsx:138-161 | corrected iteration: the site has a runner and job references stay valid |
| `RecordFix.IntendedFollowsSite` | src/App.tsx:138-161 | corrected: records stay true, and the site has a job exactly when its cron parses, built from its current cron and URL, running iff `site.running` |
| `RecordFix.IntendedEditBackRuns` | src/App.tsx:138-161 | corrected, same four edits one step each: the site gets back a job of its cron, and it runs |
| `RecordFix.IntendedUrlBackRuns` | src/App.tsx:138-161 | corrected, the URL edits of `EditUrlBackKeepsOtherUrl` one step each: the running job opens the site's own URL |
| `RequestLog.LineFor` | src/WsApp.tsx:92 | the line for a request carries the clock reading, the request's index and its URL |
| `RequestLog.AddToLog` | src/WsApp.tsx:88-99 | the request's line at index 0; under 100 entries the rest is the old log; at 100 or more the rest is the old log minus its oldest line |
| `RequestLog.AddToLogBounded` | src/WsApp.tsx:94-97 | a log of at most 100 stays at most 100; retained lines keep their order behind the new one |
| `RequestLog.NewestAt` | src/WsApp.tsx:91-97 | line i of the reference log is the i-th most recent line |
| `RequestLog.PushIsNewest` | src/WsApp.tsx:91-97 | one call on the 100 newest lines gives the 100 newest lines including the new request's |
| `RequestLog.ReplayIsNewest` | src/WsApp.tsx:88-99 | from an empty log, any run of `addToLog` leaves exactly the lines of the 100 newest requests, newest first |

## Left out

- Rendering, hooks and components (`Sites`, `AddButton`, `Status`, `Log`, `WsApp`, `OnceApp`): UI. React's batching of updates is also left out. The effect is modelled as one call per committed site list.
- The cron library: parsing is the parameter `parses`, and a job is only its site, cron, URL and running flag. The library calling `refresh` on a running job's ticks is not modelled. `Effect.Refresher.Refresh` is the callback body.
- Effect.Refresher.Refresh: does not require the job behind the call to be running, because the timing of ticks belongs to the cron library.
- `window.open`, `Window.close`, `setTimeout`, `Date.now` and `toISOString`: browser and clock. The window `open` returns, the id `now` and the log line's `time` are parameters. Closing a window is modelled only as removing its handle.
- `useStateLocalStorage.ts` and the JSON serializer: `localStorage` plumbing. `Restore` works on the records `JSON.parse` produces.
- The socket wiring in `useRequests`, and `handleRequest` (opening the window and closing it after a timeout): network and browser.
- `getUrl` and `getTimeout`, the query-string readers built on `URLSearchParams` and `parseInt`, plus `main-once.tsx`, `main-ws.tsx` and `vite.config.ts`: bootstrap and build only.
- SiteList.Update: requires an index inside the list. Its only caller passes the index of a rendered row. `setIn` past the end of a list is not modelled.
- SiteList.Delete: the index is an integer. Non-integer numbers, which `List.delete` would also accept, are not modelled.
- RequestLog.AddToLog: a line is kept as its three parts (time, index, URL), not as the joined string.
- Effect.Refresher.DeleteOld: visits the keys in no particular order, where JavaScript visits `Map` entries in insertion order. Each key is handled on its own, so the final state is the same.

## Findings

| source | as written | input that shows it | evidently intended | confidence | as-written member | corrected member |
|---|---|---|---|---|---|---|
| src/App.tsx:140-152 | a runner's `cron` and `url` are set only when it is created, so after a replacement the record no longer describes the job | add a site (cron `0 0 * * * *`); edit its cron to a value the library rejects (its job becomes `null`); edit it back and switch the site on | the record follows each replacement, so the job is rebuilt from the current cron and the site runs | not executed; high | `RecordFix.EditBackLeavesNoJob` | `RecordFix.IntendedFollowsSite` |
| src/App.tsx:139-155 | same record: once a URL edit has replaced the job, editing the URL back makes the record match again, so the job built from the edited URL is kept | add a site; while it is stopped (the fields are read-only while it runs, src/App.tsx:53,60), edit its URL to another one, edit it back, then switch the site on | the job is rebuilt from the site's current URL | not executed; high | `RecordFix.EditUrlBackKeepsOtherUrl` | `RecordFix.IntendedFollowsSite` |

`Effect.Refresher` models the code as written. The corrected step, `RecordFix.SyncSiteIntended`, is kept next to it.
