/**
 * The runner record of src/App.tsx is written only when a runner is created,
 * so after an edit it no longer says which cron and URL the runner's job was
 * built from. Editing a cron to something the library rejects and back again
 * leaves the site with no job until its cron or URL differs from the record
 * again; editing a URL away and back leaves the job opening the edited URL.
 * This module applies the effect as written (`Runners.Reconciled`) and proves that a step that also
 * rewrites the record (`SyncSiteIntended`) keeps every job in line with its site.
 */
module RecordFix {

  import opened Wrappers
  import opened SiteList
  import opened Runners

  const BAD_CRON: string := "not a cron"

  /** A cron library that accepts every expression but `BAD_CRON`. */
  function Accepts(cron: string): bool {
    cron != BAD_CRON
  }

  /**
   * As written: a new default site, then its cron typed into something
   * invalid, then typed back, then the site switched on, one effect run per
   * edit. The cron parses and the site should run, yet it has no job.
   */
  lemma EditBackLeavesNoJob()
    ensures var s := NewSite(1);
      var w1 := Reconciled(EMPTY, [s], Accepts);
      var w2 := Reconciled(w1, [s.(cron := BAD_CRON)], Accepts);
      var w3 := Reconciled(w2, [s], Accepts);
      var w4 := Reconciled(w3, [s.(running := true)], Accepts);
      && Accepts(s.cron)
      && s.id in w4.runners
      && w4.runners[s.id].cron == s.cron
      && w4.runners[s.id].job == None
  {
    var s := NewSite(1);
    var s2, s4 := s.(cron := BAD_CRON), s.(running := true);
    assert [s][..0] == [] && [s2][..0] == [] && [s4][..0] == [];
    DeletePassRunners(EMPTY, [s]);
    CreateOnNew(DeleteStale(EMPTY, [s]), s, Accepts);
    var w1 := Reconciled(EMPTY, [s], Accepts);
    assert SyncAll(DeleteStale(EMPTY, [s]), [], Accepts) == DeleteStale(EMPTY, [s]);
    assert w1 == SyncSite(DeleteStale(EMPTY, [s]), s, Accepts);
    assert w1.runners[s.id].cron == DEFAULT_CRON;
    DeletePassRunners(w1, [s2]);
    ReplaceOnChange(DeleteStale(w1, [s2]), s2, Accepts);
    var w2 := Reconciled(w1, [s2], Accepts);
    assert SyncAll(DeleteStale(w1, [s2]), [], Accepts) == DeleteStale(w1, [s2]);
    assert w2 == SyncSite(DeleteStale(w1, [s2]), s2, Accepts);
    DeletePassRunners(w2, [s]);
    KeepOnMatch(DeleteStale(w2, [s]), s, Accepts);
    var w3 := Reconciled(w2, [s], Accepts);
    assert SyncAll(DeleteStale(w2, [s]), [], Accepts) == DeleteStale(w2, [s]);
    assert w3 == SyncSite(DeleteStale(w2, [s]), s, Accepts);
    DeletePassRunners(w3, [s4]);
    KeepOnMatch(DeleteStale(w3, [s4]), s4, Accepts);
    assert SyncAll(DeleteStale(w3, [s4]), [], Accepts) == DeleteStale(w3, [s4]);
  }

  const OTHER_URL: string := "https://example.com"

  /**
   * As written, on edits the page allows (cron and URL are read-only while a
   * site runs): a stopped default site, its URL typed into another one, typed
   * back, then the site switched on, one effect run per edit. The site names
   * its own URL again, yet its running job opens the other one.
   */
  lemma EditUrlBackKeepsOtherUrl()
    ensures var s := NewSite(1);
      var w1 := Reconciled(EMPTY, [s], Accepts);
      var w2 := Reconciled(w1, [s.(url := OTHER_URL)], Accepts);
      var w3 := Reconciled(w2, [s], Accepts);
      var w4 := Reconciled(w3, [s.(running := true)], Accepts);
      && s.id in w4.runners
      && w4.runners[s.id].job.Some?
      && w4.runners[s.id].job.value < |w4.jobs|
      && w4.jobs[w4.runners[s.id].job.value].running
      && w4.jobs[w4.runners[s.id].job.value].url == OTHER_URL != s.url
  {
    var s := NewSite(1);
    var s2, s4 := s.(url := OTHER_URL), s.(running := true);
    assert [s][..0] == [] && [s2][..0] == [] && [s4][..0] == [];
    DeletePassRunners(EMPTY, [s]);
    CreateOnNew(DeleteStale(EMPTY, [s]), s, Accepts);
    var w1 := Reconciled(EMPTY, [s], Accepts);
    assert SyncAll(DeleteStale(EMPTY, [s]), [], Accepts) == DeleteStale(EMPTY, [s]);
    assert w1 == SyncSite(DeleteStale(EMPTY, [s]), s, Accepts);
    assert w1.runners[s.id].url == DEFAULT_URL;
    DeletePassRunners(w1, [s2]);
    ReplaceOnChange(DeleteStale(w1, [s2]), s2, Accepts);
    var w2 := Reconciled(w1, [s2], Accepts);
    assert SyncAll(DeleteStale(w1, [s2]), [], Accepts) == DeleteStale(w1, [s2]);
    assert w2 == SyncSite(DeleteStale(w1, [s2]), s2, Accepts);
    DeletePassRunners(w2, [s]);
    KeepOnMatch(DeleteStale(w2, [s]), s, Accepts);
    var w3 := Reconciled(w2, [s], Accepts);
    assert SyncAll(DeleteStale(w2, [s]), [], Accepts) == DeleteStale(w2, [s]);
    assert w3 == SyncSite(DeleteStale(w2, [s]), s, Accepts);
    DeletePassRunners(w3, [s4]);
    KeepOnMatch(DeleteStale(w3, [s4]), s4, Accepts);
    assert SyncAll(DeleteStale(w3, [s4]), [], Accepts) == DeleteStale(w3, [s4]);
  }

  /** The create-or-replace step with the record rewritten on replacement. */
  function ReplaceIntended(w: World, s: Site, parses: string -> bool): (r: World)
    requires RefsValid(w)
    ensures RefsValid(r) && s.id in r.runners
  {
    if s.id in w.runners && (w.runners[s.id].cron != s.cron || w.runners[s.id].url != s.url) then
      var runner := w.runners[s.id];
      var jobs := if runner.job.Some? then SetJobRunning(w.jobs, runner.job.value, false) else w.jobs;
      var made := MakeCron(jobs, s, parses);
      w.(runners := w.runners[s.id := Runner(s.cron, s.url, made.1)], jobs := made.0)
    else if s.id !in w.runners then
      var made := MakeCron(w.jobs, s, parses);
      w.(runners := w.runners[s.id := Runner(s.cron, s.url, made.1)], jobs := made.0)
    else
      w
  }

  function SyncSiteIntended(w: World, s: Site, parses: string -> bool): (r: World)
    requires RefsValid(w)
    ensures RefsValid(r) && s.id in r.runners
  {
    StartStop(ReplaceIntended(w, s, parses), s)
  }

  /** Every record names the cron and URL its job was built from, and a runner lacks a job only when its cron does not parse. */
  ghost predicate RecordsTrue(w: World, parses: string -> bool)
    requires RefsValid(w)
  {
    forall k | k in w.runners ::
      match w.runners[k].job
      case None => !parses(w.runners[k].cron)
      case Some(ref) =>
        w.jobs[ref].cron == w.runners[k].cron && w.jobs[ref].url == w.runners[k].url && parses(w.jobs[ref].cron)
  }

  /**
   * Corrected: the records stay true, and afterwards the site has a job
   * exactly when its cron parses, built from its current cron and URL and
   * running exactly when the site says so.
   */
  lemma IntendedFollowsSite(w: World, s: Site, parses: string -> bool)
    requires RefsValid(w) && RecordsTrue(w, parses)
    ensures var r := SyncSiteIntended(w, s, parses);
      && RecordsTrue(r, parses)
      && (r.runners[s.id].job.Some? <==> parses(s.cron))
      && (r.runners[s.id].job.Some? ==>
            var job := r.jobs[r.runners[s.id].job.value];
            job.site == s.id && job.cron == s.cron && job.url == s.url && job.running == s.running)
  {
  }

  /** The corrected step on the same edits, one step per edit: the site gets its job back and it runs. */
  lemma IntendedEditBackRuns()
    ensures var s := NewSite(1);
      var w1 := SyncSiteIntended(EMPTY, s, Accepts);
      var w2 := SyncSiteIntended(w1, s.(cron := BAD_CRON), Accepts);
      var w3 := SyncSiteIntended(w2, s, Accepts);
      var w4 := SyncSiteIntended(w3, s.(running := true), Accepts);
      && w4.runners[s.id].job.Some?
      && w4.jobs[w4.runners[s.id].job.value].cron == s.cron
      && w4.jobs[w4.runners[s.id].job.value].running
  {
  }

  /** The corrected step on the URL edits: the running job opens the site's own URL again. */
  lemma IntendedUrlBackRuns()
    ensures var s := NewSite(1);
      var w1 := SyncSiteIntended(EMPTY, s, Accepts);
      var w2 := SyncSiteIntended(w1, s.(url := OTHER_URL), Accepts);
      var w3 := SyncSiteIntended(w2, s, Accepts);
      var w4 := SyncSiteIntended(w3, s.(running := true), Accepts);
      && w4.runners[s.id].job.Some?
      && w4.jobs[w4.runners[s.id].job.value].url == s.url
      && w4.jobs[w4.runners[s.id].job.value].running
  {
  }
}
