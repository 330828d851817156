/**
 * The runner reconciliation of src/App.tsx: the effect that, whenever the site
 * list changes, brings the `runners` and `handles` maps into line with it. Here
 * it is a function over a value `World`; module Effect runs the same passes
 * imperatively and is proved to compute this function.
 *
 * CronJob objects live in `World.jobs`, every job ever built, in order of
 * creation; a `JobRef` is a position in it and stands for the object's
 * identity, so "the same job object" is "the same JobRef" and building a job
 * appends one. Whether the cron library accepts an expression is the
 * uninterpreted parameter `parses`.
 */
module Runners {

  import opened Wrappers
  import opened SiteList

  type JobRef = nat

  /** A CronJob: the site id and URL its tick callback captured, its cron expression, and whether it is started. */
  datatype Job = Job(site: Id, cron: string, url: string, running: bool)

  /** A runner: the cron and URL recorded when it was created, and its job (`None` for `null`). */
  datatype Runner = Runner(cron: string, url: string, job: Option<JobRef>)

  /** A browser window opened for site `target` on `url`. */
  datatype Window = Window(target: Id, url: string)

  /**
   * The two maps the app keeps in refs, and the CronJob objects. A handle is
   * `None` when `window.open` gave back `null`.
   */
  datatype World = World(runners: map<Id, Runner>, handles: map<Id, Option<Window>>, jobs: seq<Job>)

  const EMPTY: World := World(map[], map[], [])

  function Ids(sites: seq<Site>): set<Id> {
    set s | s in sites :: s.id
  }

  /** `sites.find((s) => s.id === id)`: the first site with that id. */
  function Find(sites: seq<Site>, id: Id): (r: Option<Site>)
    ensures r.Some? <==> id in Ids(sites)
    ensures r.Some? ==> r.value in sites && r.value.id == id
  {
    if sites == [] then None
    else if sites[0].id == id then Some(sites[0])
    else
      assert Ids(sites) == {sites[0].id} + Ids(sites[1..]) by {
        assert sites == [sites[0]] + sites[1..];
      }
      Find(sites[1..], id)
  }

  /** The last site in the list with id `id`: the one whose flags a reconcile leaves in force. */
  function LastWith(sites: seq<Site>, id: Id): (r: Site)
    requires id in Ids(sites)
    ensures r in sites && r.id == id
    decreases |sites|
  {
    var n := |sites| - 1;
    if sites[n].id == id then sites[n]
    else
      assert Ids(sites) == Ids(sites[..n]) + {sites[n].id} by {
        assert sites == sites[..n] + [sites[n]];
      }
      LastWith(sites[..n], id)
  }

  /** Every runner's job exists and was built for that runner's site. */
  ghost predicate RefsValid(w: World) {
    forall k | k in w.runners && w.runners[k].job.Some? ::
      w.runners[k].job.value < |w.jobs| && w.jobs[w.runners[k].job.value].site == k
  }

  /** No timer is left running that no runner holds. */
  ghost predicate NoStrayJob(w: World) {
    forall i | 0 <= i < |w.jobs| && w.jobs[i].running ::
      w.jobs[i].site in w.runners && w.runners[w.jobs[i].site].job == Some(i)
  }

  ghost predicate Owned(w: World) {
    RefsValid(w) && NoStrayJob(w)
  }

  /** `job.start()` or `job.stop()`. */
  function SetJobRunning(jobs: seq<Job>, ref: JobRef, running: bool): seq<Job>
    requires ref < |jobs|
  {
    jobs[ref := jobs[ref].(running := running)]
  }

  // ---------------------------------------------------------------------
  // First pass: delete the runners of sites that are gone.
  // ---------------------------------------------------------------------

  /** The ids whose runners the first pass deletes. */
  function StaleIds(w: World, sites: seq<Site>): set<Id> {
    set k | k in w.runners && Find(sites, k).None?
  }

  function JobsOf(runners: map<Id, Runner>, ids: set<Id>): set<JobRef> {
    set k | k in ids && k in runners && runners[k].job.Some? :: runners[k].job.value
  }

  /** The ids among `ids` whose handle is a window (not `null`): those are closed and forgotten. */
  function OpenHandles(handles: map<Id, Option<Window>>, ids: set<Id>): set<Id> {
    set k | k in ids && k in handles && handles[k].Some?
  }

  function StopAll(jobs: seq<Job>, refs: set<JobRef>): seq<Job> {
    seq(|jobs|, i requires 0 <= i < |jobs| => if i in refs then jobs[i].(running := false) else jobs[i])
  }

  /** The world after the runners of `ids` were deleted: jobs stopped, runners removed, open windows closed. */
  function Drop(w: World, ids: set<Id>): World {
    World(w.runners - ids, w.handles - OpenHandles(w.handles, ids), StopAll(w.jobs, JobsOf(w.runners, ids)))
  }

  /** The first pass of the effect. */
  function DeleteStale(w: World, sites: seq<Site>): (r: World)
    ensures RefsValid(w) ==> RefsValid(r)
  {
    Drop(w, StaleIds(w, sites))
  }

  /** Dropping one more id is one loop step of the first pass. */
  lemma DropOne(w: World, ids: set<Id>, k: Id)
    requires RefsValid(w) && k in w.runners && k !in ids
    ensures var d, e := Drop(w, ids), Drop(w, ids + {k});
      && k in d.runners && d.runners[k] == w.runners[k]
      && e.runners == d.runners - {k}
      && e.handles == (if k in d.handles && d.handles[k].Some? then d.handles - {k} else d.handles)
      && e.jobs == (if w.runners[k].job.Some? then SetJobRunning(d.jobs, w.runners[k].job.value, false) else d.jobs)
  {
  }

  /** Visiting one more key of the snapshot adds it to the deleted ids exactly when no site has it. */
  lemma StaleStep(w: World, sites: seq<Site>, done: set<Id>, k: Id)
    requires k in w.runners
    ensures StaleIds(w, sites) * (done + {k}) ==
      if Find(sites, k).None? then StaleIds(w, sites) * done + {k} else StaleIds(w, sites) * done
  {
  }

  /** The runners kept are exactly those of ids still listed, and they are left as they were. */
  lemma DeletePassRunners(w: World, sites: seq<Site>)
    ensures DeleteStale(w, sites).runners.Keys == w.runners.Keys * Ids(sites)
    ensures forall k | k in DeleteStale(w, sites).runners :: DeleteStale(w, sites).runners[k] == w.runners[k]
  {
  }

  /** A deleted runner's job is stopped; the jobs of the runners kept are untouched. */
  lemma DeletePassJobs(w: World, sites: seq<Site>)
    requires RefsValid(w)
    ensures |DeleteStale(w, sites).jobs| == |w.jobs|
    ensures forall k | k in w.runners && k !in Ids(sites) && w.runners[k].job.Some? ::
      !DeleteStale(w, sites).jobs[w.runners[k].job.value].running
    ensures forall k | k in w.runners && k in Ids(sites) && w.runners[k].job.Some? ::
      DeleteStale(w, sites).jobs[w.runners[k].job.value] == w.jobs[w.runners[k].job.value]
    ensures forall i | 0 <= i < |w.jobs| ::
      DeleteStale(w, sites).jobs[i] ==
        if i in JobsOf(w.runners, StaleIds(w, sites)) then w.jobs[i].(running := false) else w.jobs[i]
  {
  }

  /** A deleted runner's window is closed and its handle removed; every other handle stays. */
  lemma DeletePassHandles(w: World, sites: seq<Site>)
    ensures forall k :: k in DeleteStale(w, sites).handles <==>
      k in w.handles && !(k in w.runners && k !in Ids(sites) && w.handles[k].Some?)
    ensures forall k | k in DeleteStale(w, sites).handles :: DeleteStale(w, sites).handles[k] == w.handles[k]
  {
  }

  /** The first pass leaves no timer running without a runner. */
  lemma DeletePassOwned(w: World, sites: seq<Site>)
    requires Owned(w)
    ensures Owned(DeleteStale(w, sites))
  {
  }

  // ---------------------------------------------------------------------
  // Second pass: create or replace runners, then start or stop their jobs.
  // ---------------------------------------------------------------------

  /** `makeCron`: a new, stopped job for `s`, or none when the cron library rejects `s.cron`. */
  function MakeCron(jobs: seq<Job>, s: Site, parses: string -> bool): (r: (seq<Job>, Option<JobRef>))
    ensures r.1.Some? <==> parses(s.cron)
    ensures r.1.None? ==> r.0 == jobs
    ensures r.1.Some? ==> r.0 == jobs + [Job(s.id, s.cron, s.url, false)] && r.1.value == |jobs|
  {
    if parses(s.cron) then (jobs + [Job(s.id, s.cron, s.url, false)], Some(|jobs|)) else (jobs, None)
  }

  /** The create-or-replace step for one site. The runner's recorded cron and URL are set only at creation. */
  function Replace(w: World, s: Site, parses: string -> bool): (r: World)
    requires RefsValid(w)
    ensures RefsValid(r) && s.id in r.runners
  {
    if s.id in w.runners && (w.runners[s.id].cron != s.cron || w.runners[s.id].url != s.url) then
      var runner := w.runners[s.id];
      var jobs := if runner.job.Some? then SetJobRunning(w.jobs, runner.job.value, false) else w.jobs;
      var made := MakeCron(jobs, s, parses);
      w.(runners := w.runners[s.id := runner.(job := made.1)], jobs := made.0)
    else if s.id !in w.runners then
      var made := MakeCron(w.jobs, s, parses);
      w.(runners := w.runners[s.id := Runner(s.cron, s.url, made.1)], jobs := made.0)
    else
      w
  }

  /** The start-or-stop step for one site. */
  function StartStop(w: World, s: Site): (r: World)
    requires RefsValid(w) && s.id in w.runners
    ensures RefsValid(r) && r.runners == w.runners && r.handles == w.handles
    ensures r.jobs == match w.runners[s.id].job
      case None => w.jobs
      case Some(ref) => SetJobRunning(w.jobs, ref, s.running)
  {
    match w.runners[s.id].job
    case None => w
    case Some(ref) =>
      if w.jobs[ref].running && !s.running then w.(jobs := SetJobRunning(w.jobs, ref, false))
      else if !w.jobs[ref].running && s.running then w.(jobs := SetJobRunning(w.jobs, ref, true))
      else w
  }

  /** One iteration of the second pass: afterwards the site's job, if it has one, runs exactly when the site says so. */
  function SyncSite(w: World, s: Site, parses: string -> bool): (r: World)
    requires RefsValid(w)
    ensures RefsValid(r) && s.id in r.runners && r.handles == w.handles
    ensures r.runners[s.id].job.Some? ==> r.jobs[r.runners[s.id].job.value].running == s.running
    ensures |r.jobs| >= |w.jobs| && forall i | 0 <= i < |w.jobs| :: r.jobs[i].site == w.jobs[i].site
  {
    StartStop(Replace(w, s, parses), s)
  }

  /** The second pass over `sites`, in list order. */
  function SyncAll(w: World, sites: seq<Site>, parses: string -> bool): (r: World)
    requires RefsValid(w)
    ensures RefsValid(r) && r.handles == w.handles
    ensures |r.jobs| >= |w.jobs| && forall i | 0 <= i < |w.jobs| :: r.jobs[i].site == w.jobs[i].site
    decreases |sites|
  {
    if sites == [] then w
    else
      var n := |sites| - 1;
      SyncSite(SyncAll(w, sites[..n], parses), sites[n], parses)
  }

  /** The whole effect. */
  function Reconciled(w: World, sites: seq<Site>, parses: string -> bool): (r: World)
    requires RefsValid(w)
    ensures RefsValid(r)
  {
    SyncAll(DeleteStale(w, sites), sites, parses)
  }

  // ---------------------------------------------------------------------
  // One site.
  // ---------------------------------------------------------------------

  /**
   * A site whose cron or URL differs from its runner's record: the old job is
   * stopped and a new one built from the site replaces it (none if the cron
   * does not parse); the record itself keeps the old cron and URL.
   */
  lemma ReplaceOnChange(w: World, s: Site, parses: string -> bool)
    requires RefsValid(w) && s.id in w.runners
    requires w.runners[s.id].cron != s.cron || w.runners[s.id].url != s.url
    ensures var r, before := SyncSite(w, s, parses), w.runners[s.id];
      && r.runners == w.runners[s.id := before.(job := r.runners[s.id].job)]
      && |r.jobs| >= |w.jobs|
      && (before.job.Some? ==> !r.jobs[before.job.value].running)
      && (forall i | 0 <= i < |w.jobs| && Some(i) != before.job :: r.jobs[i] == w.jobs[i])
      && (parses(s.cron) ==>
            r.runners[s.id].job == Some(|w.jobs|) && r.jobs == r.jobs[..|w.jobs|] + [Job(s.id, s.cron, s.url, s.running)])
      && (!parses(s.cron) ==> r.runners[s.id].job == None && |r.jobs| == |w.jobs|)
  {
  }

  /**
   * A site whose cron and URL match its runner's record keeps the same job
   * object; only its running flag is set to the site's.
   */
  lemma KeepOnMatch(w: World, s: Site, parses: string -> bool)
    requires RefsValid(w) && s.id in w.runners
    requires w.runners[s.id].cron == s.cron && w.runners[s.id].url == s.url
    ensures var r := SyncSite(w, s, parses);
      && r.runners == w.runners
      && match w.runners[s.id].job
         case None => r.jobs == w.jobs
         case Some(ref) => r.jobs == SetJobRunning(w.jobs, ref, s.running)
  {
  }

  /** A site without a runner gets one recording its cron and URL, with a new job built from it if the cron parses. */
  lemma CreateOnNew(w: World, s: Site, parses: string -> bool)
    requires RefsValid(w) && s.id !in w.runners
    ensures var r := SyncSite(w, s, parses);
      && r.runners.Keys == w.runners.Keys + {s.id}
      && r.runners[s.id].cron == s.cron && r.runners[s.id].url == s.url
      && (forall k | k in w.runners :: r.runners[k] == w.runners[k])
      && (parses(s.cron) ==>
            r.runners[s.id].job == Some(|w.jobs|) && r.jobs == w.jobs + [Job(s.id, s.cron, s.url, s.running)])
      && (!parses(s.cron) ==> r.runners[s.id].job == None && r.jobs == w.jobs)
  {
  }

  /**
   * Because the record is never updated, a site whose cron or URL once changed
   * has its job rebuilt on every later pass, even when nothing changed since.
   */
  lemma RebuiltEveryTime(w: World, s: Site, parses: string -> bool)
    requires RefsValid(w) && s.id in w.runners && parses(s.cron)
    requires w.runners[s.id].cron != s.cron || w.runners[s.id].url != s.url
    ensures var w1 := SyncSite(w, s, parses);
      var w2 := SyncSite(w1, s, parses);
      && w1.runners[s.id].job == Some(|w.jobs|)
      && w2.runners[s.id].job == Some(|w1.jobs|)
      && !w2.jobs[|w.jobs|].running
  {
  }

  /** Handling site `s` leaves the runner of any other id, and that runner's job, alone. */
  lemma SyncSiteFrame(w: World, s: Site, parses: string -> bool, k: Id)
    requires RefsValid(w) && k != s.id
    ensures var r := SyncSite(w, s, parses);
      && (k in r.runners <==> k in w.runners)
      && (k in w.runners ==> r.runners[k] == w.runners[k])
      && (k in w.runners && w.runners[k].job.Some? ==>
            r.jobs[w.runners[k].job.value] == w.jobs[w.runners[k].job.value])
  {
  }

  /** Handling one site leaves no timer running without a runner. */
  lemma SyncSiteOwned(w: World, s: Site, parses: string -> bool)
    requires Owned(w)
    ensures Owned(SyncSite(w, s, parses))
  {
  }

  // ---------------------------------------------------------------------
  // The whole effect.
  // ---------------------------------------------------------------------

  lemma {:induction false} SyncAllKeys(w: World, sites: seq<Site>, parses: string -> bool)
    requires RefsValid(w)
    ensures SyncAll(w, sites, parses).runners.Keys == w.runners.Keys + Ids(sites)
    decreases |sites|
  {
    if sites != [] {
      var n := |sites| - 1;
      SyncAllKeys(w, sites[..n], parses);
      assert sites == sites[..n] + [sites[n]];
      assert Ids(sites) == Ids(sites[..n]) + {sites[n].id};
    }
  }

  lemma {:induction false} SyncAllOwned(w: World, sites: seq<Site>, parses: string -> bool)
    requires Owned(w)
    ensures Owned(SyncAll(w, sites, parses))
    decreases |sites|
  {
    if sites != [] {
      var n := |sites| - 1;
      SyncAllOwned(w, sites[..n], parses);
      SyncSiteOwned(SyncAll(w, sites[..n], parses), sites[n], parses);
    }
  }

  /** After the second pass, the job of every listed id runs exactly when the last site with that id says so. */
  lemma {:induction false} SyncAllRunning(w: World, sites: seq<Site>, parses: string -> bool, k: Id)
    requires RefsValid(w) && k in Ids(sites)
    ensures var r := SyncAll(w, sites, parses);
      k in r.runners && (r.runners[k].job.Some? ==> r.jobs[r.runners[k].job.value].running == LastWith(sites, k).running)
    decreases |sites|
  {
    var n := |sites| - 1;
    var p := SyncAll(w, sites[..n], parses);
    if sites[n].id != k {
      assert sites == sites[..n] + [sites[n]];
      assert k in Ids(sites[..n]);
      SyncAllRunning(w, sites[..n], parses, k);
      SyncSiteFrame(p, sites[n], parses, k);
    }
  }

  /** Sites whose cron and URL all match the runner's record leave that runner, and so its job object, as it was. */
  lemma {:induction false} SyncAllKeepsMatched(w: World, sites: seq<Site>, parses: string -> bool, k: Id)
    requires RefsValid(w) && k in w.runners
    requires forall s | s in sites && s.id == k :: s.cron == w.runners[k].cron && s.url == w.runners[k].url
    ensures var r := SyncAll(w, sites, parses);
      k in r.runners && r.runners[k] == w.runners[k]
    decreases |sites|
  {
    if sites != [] {
      var n := |sites| - 1;
      assert forall s | s in sites[..n] :: s in sites;
      SyncAllKeepsMatched(w, sites[..n], parses, k);
      var p := SyncAll(w, sites[..n], parses);
      if sites[n].id == k {
        KeepOnMatch(p, sites[n], parses);
      } else {
        SyncSiteFrame(p, sites[n], parses, k);
      }
    }
  }

  /**
   * Across the whole effect, a listed site whose cron and URL match its
   * runner's record keeps the same runner and the same job object: changing
   * only `running` starts or stops that job and builds no new one.
   */
  lemma ReconcileKeepsMatched(w: World, sites: seq<Site>, parses: string -> bool, k: Id)
    requires RefsValid(w) && k in w.runners && k in Ids(sites)
    requires forall s | s in sites && s.id == k :: s.cron == w.runners[k].cron && s.url == w.runners[k].url
    ensures var r := Reconciled(w, sites, parses);
      k in r.runners && r.runners[k] == w.runners[k]
  {
    DeletePassRunners(w, sites);
    SyncAllKeepsMatched(DeleteStale(w, sites), sites, parses, k);
  }

  /** After the effect, `runners` has exactly one entry per listed id. */
  lemma ReconcileKeys(w: World, sites: seq<Site>, parses: string -> bool)
    requires RefsValid(w)
    ensures Reconciled(w, sites, parses).runners.Keys == Ids(sites)
  {
    DeletePassRunners(w, sites);
    SyncAllKeys(DeleteStale(w, sites), sites, parses);
  }

  /** The effect leaves no timer running without a runner. */
  lemma ReconcileOwned(w: World, sites: seq<Site>, parses: string -> bool)
    requires Owned(w)
    ensures Owned(Reconciled(w, sites, parses))
  {
    DeletePassOwned(w, sites);
    SyncAllOwned(DeleteStale(w, sites), sites, parses);
  }

  /** After the effect, every listed id's job runs exactly when the last site with that id says so. */
  lemma ReconcileRunning(w: World, sites: seq<Site>, parses: string -> bool)
    requires RefsValid(w)
    ensures var r := Reconciled(w, sites, parses);
      forall k | k in Ids(sites) ::
        k in r.runners && (r.runners[k].job.Some? ==> r.jobs[r.runners[k].job.value].running == LastWith(sites, k).running)
  {
    forall k | k in Ids(sites)
      ensures var r := Reconciled(w, sites, parses);
        k in r.runners && (r.runners[k].job.Some? ==> r.jobs[r.runners[k].job.value].running == LastWith(sites, k).running)
    {
      SyncAllRunning(DeleteStale(w, sites), sites, parses, k);
    }
  }

  ghost predicate DistinctIds(sites: seq<Site>) {
    forall i, j | 0 <= i < j < |sites| :: sites[i].id != sites[j].id
  }

  /** With distinct ids, every site's job runs exactly when the site says so. */
  lemma ReconcileRunningDistinct(w: World, sites: seq<Site>, parses: string -> bool)
    requires RefsValid(w) && DistinctIds(sites)
    ensures var r := Reconciled(w, sites, parses);
      forall j | 0 <= j < |sites| ::
        sites[j].id in r.runners &&
        (r.runners[sites[j].id].job.Some? ==> r.jobs[r.runners[sites[j].id].job.value].running == sites[j].running)
  {
    ReconcileRunning(w, sites, parses);
    forall j | 0 <= j < |sites|
      ensures LastWith(sites, sites[j].id) == sites[j]
    {
      var last := LastWith(sites, sites[j].id);
      var i :| 0 <= i < |sites| && sites[i] == last;
    }
  }

  /** A site that is gone has its job stopped, and no running job belongs to a site that is not listed. */
  lemma ReconcileStopsRemoved(w: World, sites: seq<Site>, parses: string -> bool)
    requires Owned(w)
    ensures var r := Reconciled(w, sites, parses);
      && (forall i | 0 <= i < |r.jobs| && r.jobs[i].running :: r.jobs[i].site in Ids(sites))
      && (forall k | k in w.runners && k !in Ids(sites) && w.runners[k].job.Some? ::
            w.runners[k].job.value < |r.jobs| && !r.jobs[w.runners[k].job.value].running)
  {
    var r := Reconciled(w, sites, parses);
    ReconcileOwned(w, sites, parses);
    ReconcileKeys(w, sites, parses);
    DeletePassJobs(w, sites);
  }

  /** Loading the saved sites and running the effect on a fresh page starts no timer at all. */
  lemma LoadStartsNothing(persisted: seq<Site>, parses: string -> bool)
    ensures var r := Reconciled(EMPTY, Restore(persisted), parses);
      forall i | 0 <= i < |r.jobs| :: !r.jobs[i].running
  {
    var sites := Restore(persisted);
    var r := Reconciled(EMPTY, sites, parses);
    ReconcileOwned(EMPTY, sites, parses);
    ReconcileRunning(EMPTY, sites, parses);
    ReconcileKeys(EMPTY, sites, parses);
    forall i | 0 <= i < |r.jobs| ensures !r.jobs[i].running {
      var k := r.jobs[i].site;
      if k in Ids(sites) {
        var last := LastWith(sites, k);
        assert !last.running;
      }
    }
  }
}
