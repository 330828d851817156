/**
 * The effect of src/App.tsx as the app runs it: the `runners` and `handles`
 * refs are mutable maps that two loops update in place, and the CronJob
 * objects are started and stopped where they are. `Reconcile` is proved to
 * leave exactly the state that `Runners.Reconciled` describes.
 */
module Effect {

  import opened Wrappers
  import opened SiteList
  import opened Runners

  class Refresher {
    /** Whether the cron library accepts an expression. */
    const parses: string -> bool
    var runners: map<Id, Runner>
    var handles: map<Id, Option<Window>>
    /** Every CronJob built so far; a `JobRef` is a position here. */
    var jobs: seq<Job>

    function State(): World
      reads this
    {
      World(runners, handles, jobs)
    }

    ghost predicate Valid()
      reads this
    {
      Owned(State())
    }

    /** The two refs as the component first creates them: empty maps, no jobs. */
    constructor (parses: string -> bool)
      ensures Valid() && State() == EMPTY && this.parses == parses
    {
      this.parses := parses;
      runners := map[];
      handles := map[];
      jobs := [];
    }

    /** `job.stop()`. */
    method Stop(ref: JobRef)
      requires ref < |jobs|
      modifies this`jobs
      ensures jobs == SetJobRunning(old(jobs), ref, false)
    {
      jobs := jobs[ref := jobs[ref].(running := false)];
    }

    /** `job.start()`. */
    method Start(ref: JobRef)
      requires ref < |jobs|
      modifies this`jobs
      ensures jobs == SetJobRunning(old(jobs), ref, true)
    {
      jobs := jobs[ref := jobs[ref].(running := true)];
    }

    /** `makeCron`: build a stopped job for `s`, or give `None` when its cron does not parse. */
    method MakeCron(s: Site) returns (job: Option<JobRef>)
      modifies this`jobs
      ensures (jobs, job) == Runners.MakeCron(old(jobs), s, parses)
      ensures job.Some? ==> job.value == |old(jobs)| && !jobs[job.value].running
    {
      if parses(s.cron) {
        job := Some(|jobs|);
        jobs := jobs + [Job(s.id, s.cron, s.url, false)];
      } else {
        job := None;
      }
    }

    /** `refresh`: what a job's tick does; `popup` is what `window.open(site.url, id)` gave back. */
    method Refresh(site: Site, popup: Option<Window>)
      requires Valid()
      modifies this`handles
      ensures Valid()
      ensures handles == old(handles)[site.id := popup]
    {
      handles := handles[site.id := popup];
    }

    /** The first loop of the effect: delete the runners of sites no longer listed, walking a snapshot of the keys. */
    method DeleteOld(sites: seq<Site>)
      requires RefsValid(State())
      modifies this
      ensures State() == DeleteStale(old(State()), sites)
    {
      ghost var w0 := State();
      ghost var done: set<Id> := {};
      var keys := runners.Keys;
      while keys != {}
        invariant keys == w0.runners.Keys - done
        invariant State() == Drop(w0, StaleIds(w0, sites) * done)
        decreases keys
      {
        assert exists k :: k in keys by {
          if forall k :: k !in keys {
            assert false;
          }
        }
        var k :| k in keys;
        DeleteIfGone(sites, k, w0, StaleIds(w0, sites) * done);
        StaleStep(w0, sites, done, k);
        keys := keys - {k};
        done := done + {k};
      }
    }

    /** The body of the first loop for the key `k`: stop, delete and close when no site has that id. */
    method DeleteIfGone(sites: seq<Site>, k: Id, ghost w0: World, ghost gone: set<Id>)
      requires RefsValid(w0) && k in w0.runners && k !in gone && State() == Drop(w0, gone)
      modifies this
      ensures State() == Drop(w0, if Find(sites, k).None? then gone + {k} else gone)
    {
      if Find(sites, k).None? {
        DropOne(w0, gone, k);
        var v := runners[k];
        if v.job.Some? {
          Stop(v.job.value);
        }
        runners := runners - {k};
        if k in handles && handles[k].Some? {
          handles := handles - {k};
        }
      }
    }

    /** One iteration of the second loop: create or replace the runner of `s`, then start or stop its job. */
    method Sync(s: Site)
      requires RefsValid(State())
      modifies this
      ensures State() == SyncSite(old(State()), s, parses)
    {
      ghost var before := State();
      var r: Runner;
      if s.id in runners && (runners[s.id].cron != s.cron || runners[s.id].url != s.url) {
        r := runners[s.id];
        if r.job.Some? {
          Stop(r.job.value);
        }
        var job := MakeCron(s);
        r := r.(job := job);
        runners := runners[s.id := r];
      } else if s.id !in runners {
        var job := MakeCron(s);
        r := Runner(s.cron, s.url, job);
        runners := runners[s.id := r];
      } else {
        r := runners[s.id];
      }
      assert State() == Replace(before, s, parses);

      if r.job.Some? {
        var ref := r.job.value;
        if jobs[ref].running && !s.running {
          Stop(ref);
        } else if !jobs[ref].running && s.running {
          Start(ref);
        }
      }
    }

    /** The effect body, run after every change to the site list. */
    method Reconcile(sites: seq<Site>)
      requires Valid()
      modifies this
      ensures Valid()
      ensures State() == Reconciled(old(State()), sites, parses)
      ensures runners.Keys == Ids(sites)
    {
      ghost var w0 := State();
      DeleteOld(sites);
      ghost var w1 := State();
      for i := 0 to |sites|
        invariant RefsValid(w1)
        invariant State() == SyncAll(w1, sites[..i], parses)
      {
        Sync(sites[i]);
        assert sites[..i + 1][..i] == sites[..i];
      }
      assert sites[..|sites|] == sites;
      ReconcileOwned(w0, sites, parses);
      ReconcileKeys(w0, sites, parses);
    }
  }
}
