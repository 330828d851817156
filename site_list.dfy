/**
 * The site list of src/App.tsx and the updater functions that the app's
 * callbacks pass to `setSites`: each returns a new immutable list.
 */
module SiteList {

  /** A site id: the `Date.now()` timestamp taken when the site was added. */
  type Id = int

  /** One configured site: its id, its cron expression, the URL to reopen, and whether it should run. */
  datatype Site = Site(id: Id, cron: string, url: string, running: bool)

  const DEFAULT_CRON: string := "0 0 * * * *"
  const DEFAULT_URL: string := "https://reddit.com"

  /** The site `onAdd` appends; `now` stands for `Date.now()`. */
  function NewSite(now: Id): Site {
    Site(now, DEFAULT_CRON, DEFAULT_URL, false)
  }

  /** `onAdd`: append one stopped site with the default schedule and URL. */
  function Add(sites: seq<Site>, now: Id): (r: seq<Site>)
    ensures |r| == |sites| + 1
    ensures r[..|sites|] == sites
    ensures r[|sites|].id == now && !r[|sites|].running
    ensures r[|sites|].cron == DEFAULT_CRON && r[|sites|].url == DEFAULT_URL
  {
    sites + [NewSite(now)]
  }

  /** The position `List.delete` works on: a negative index counts back from the end. */
  function Position(size: nat, index: int): int {
    if index < 0 then size + index else index
  }

  /** `onDelete`: `List.delete(index)`, which leaves the list alone when the index is out of range. */
  function Delete(sites: seq<Site>, index: int): (r: seq<Site>)
    ensures var k := Position(|sites|, index);
      if 0 <= k < |sites| then
        && |r| == |sites| - 1
        && (forall j | 0 <= j < k :: r[j] == sites[j])
        && (forall j | k <= j < |r| :: r[j] == sites[j + 1])
      else
        r == sites
  {
    var k := Position(|sites|, index);
    if 0 <= k < |sites| then sites[..k] + sites[k + 1..] else sites
  }

  /** Deleting takes out exactly the one site at the position and nothing else. */
  lemma DeleteRemovesOne(sites: seq<Site>, index: int)
    requires 0 <= Position(|sites|, index) < |sites|
    ensures multiset(Delete(sites, index)) + multiset{sites[Position(|sites|, index)]} == multiset(sites)
  {
    var k := Position(|sites|, index);
    assert sites == sites[..k] + [sites[k]] + sites[k + 1..];
  }

  /** Deleting the site that `onAdd` just appended gives back the list from before. */
  lemma DeleteUndoesAdd(sites: seq<Site>, now: Id)
    ensures Delete(Add(sites, now), |sites|) == sites
    ensures Delete(Add(sites, now), -1) == sites
  {
  }

  /** The three edits the site rows make through `onUpdate([index, field], value)`. */
  datatype Edit = SetCron(cron: string) | SetUrl(url: string) | SetRunning(running: bool)

  function Apply(s: Site, e: Edit): Site {
    match e
    case SetCron(c) => s.(cron := c)
    case SetUrl(u) => s.(url := u)
    case SetRunning(b) => s.(running := b)
  }

  /** `onUpdate`: `List.setIn([index, field], value)` on a row that exists. */
  function Update(sites: seq<Site>, index: nat, e: Edit): (r: seq<Site>)
    requires index < |sites|
    ensures |r| == |sites|
    ensures forall j | 0 <= j < |sites| && j != index :: r[j] == sites[j]
    ensures r[index].id == sites[index].id
    ensures r[index].cron == (if e.SetCron? then e.cron else sites[index].cron)
    ensures r[index].url == (if e.SetUrl? then e.url else sites[index].url)
    ensures r[index].running == (if e.SetRunning? then e.running else sites[index].running)
  {
    sites[index := Apply(sites[index], e)]
  }

  /** An edit followed by the edit that puts the old value back restores the list. */
  lemma UpdateUndo(sites: seq<Site>, index: nat, e: Edit)
    requires index < |sites|
    ensures var s := sites[index];
      var undo := match e
        case SetCron(_) => SetCron(s.cron)
        case SetUrl(_) => SetUrl(s.url)
        case SetRunning(_) => SetRunning(s.running);
      Update(Update(sites, index, e), index, undo) == sites
  {
  }

  /** The deserializer given to the local-storage hook: every persisted site comes back stopped. */
  function Restore(persisted: seq<Site>): (r: seq<Site>)
    ensures |r| == |persisted|
    ensures forall i | 0 <= i < |r| :: !r[i].running
    ensures forall i | 0 <= i < |r| ::
      r[i].id == persisted[i].id && r[i].cron == persisted[i].cron && r[i].url == persisted[i].url
  {
    if persisted == [] then [] else [persisted[0].(running := false)] + Restore(persisted[1..])
  }

  /** Loading an already loaded list changes nothing. */
  lemma RestoreIdempotent(persisted: seq<Site>)
    ensures Restore(Restore(persisted)) == Restore(persisted)
  {
  }
}
