/**
 * The client's sync run (`ModSyncWorker.run`) as a reference function.
 *
 * The run reads the local inventory of each category, quarantines every
 * unwanted local file by appending `_` to its name, computes the files to
 * download as the server's set minus the local set, and downloads them one
 * by one, reporting progress after each success. Python iterates over sets
 * in an order of its own; that order is the `Trace` argument here, and the
 * properties in `SyncProperties` hold for every trace.
 */
module SyncSpec {
  import opened Wrappers
  import opened Names

  /**
   * One name set per category: the client's `<root>/mods` and
   * `<root>/resourcepacks` directories, or the lists a manifest declares.
   */
  datatype Catalog = Catalog(mods: set<string>, resourcepacks: set<string>)
  {
    function Get(c: Category): set<string>
    {
      match c
      case Mods => mods
      case Resourcepacks => resourcepacks
    }

    function Put(c: Category, s: set<string>): (r: Catalog)
      ensures r.Get(c) == s && r.Get(Other(c)) == Get(Other(c))
    {
      match c
      case Mods => this.(mods := s)
      case Resourcepacks => this.(resourcepacks := s)
    }
  }

  /** What one `requests.get` of a file turned out to be. */
  datatype Fetch =
    | Fetched  // status 200: the body is written to the local file
    | Refused  // any other status: nothing is written
    | Raised   // the request or the write raised an exception

  /**
   * Everything the run learns from outside: the manifest (None when the
   * request or its decoding raised), which renames raise, and what each
   * download returns.
   */
  datatype Env = Env(
    manifest: Option<Catalog>,
    renameFails: (Category, string) -> bool,
    fetch: (Category, string) -> Fetch)

  /** A file-system mutation performed by the run. */
  datatype Op = Rename(cat: Category, name: string) | Write(cat: Category, name: string)

  /** The status strings the run emits, by meaning. */
  datatype Message = UpToDate | Downloading(cat: Category, name: string) | Done | Failed

  /** The worker's signals: `status`, `progress` and `finished`. */
  datatype Event = Status(msg: Message) | Progress(percent: int) | Finished

  /**
   * The order in which the four loops visited their sets: the unwanted mods,
   * the unwanted resource packs, the mods to download, the packs to download.
   */
  datatype Trace = Trace(renameMods: seq<string>, renamePacks: seq<string>,
                         fetchMods: seq<string>, fetchPacks: seq<string>)

  /**
   * The run's state: the directories, the mutations and events so far,
   * `files_processed`, and whether an exception has been raised.
   */
  datatype State = State(dirs: Catalog, ops: seq<Op>, events: seq<Event>, processed: nat, aborted: bool)

  /** The local inventory: the listing, restricted to `.jar` names for mods. */
  function Inventory(c: Category, listing: set<string>): (r: set<string>)
    ensures r <= listing
    ensures c == Mods ==> forall x :: x in listing ==> (x in r <==> IsJar(x))
    ensures c == Resourcepacks ==> r == listing
  {
    if c == Mods then set x | x in listing && IsJar(x) else listing
  }

  /** The set the rename loop iterates over: `local - server`. */
  function Unwanted(c: Category, listing: set<string>, wanted: set<string>): set<string>
  {
    Inventory(c, listing) - wanted
  }

  /** The files the run renames: unwanted and not already marked. */
  function ToQuarantine(c: Category, listing: set<string>, wanted: set<string>): (r: set<string>)
    ensures r <= Inventory(c, listing) && r !! wanted
    ensures forall x :: x in r ==> !IsMarked(x)
    ensures forall x :: x in Inventory(c, listing) && x !in wanted && !IsMarked(x) ==> x in r
  {
    set x | x in Unwanted(c, listing, wanted) && !IsMarked(x)
  }

  /** The files the run downloads: `server - local`. */
  function ToFetch(c: Category, listing: set<string>, wanted: set<string>): (r: set<string>)
    ensures r <= wanted && r !! Inventory(c, listing)
    ensures r !! ToQuarantine(c, listing, wanted)
    ensures forall x :: x in wanted && x !in Inventory(c, listing) ==> x in r
  {
    wanted - Inventory(c, listing)
  }

  /** `total_files`: the number of downloads over both categories. */
  function Total(local: Catalog, wanted: Catalog): nat
  {
    |ToFetch(Mods, local.mods, wanted.mods)| + |ToFetch(Resourcepacks, local.resourcepacks, wanted.resourcepacks)|
  }

  /** One iteration of a rename loop. */
  function RenameStep(env: Env, s: State, c: Category, x: string): State
  {
    if s.aborted || IsMarked(x) then s
    else if env.renameFails(c, x) then s.(aborted := true)
    else s.(dirs := s.dirs.Put(c, s.dirs.Get(c) - {x} + {Mark(x)}), ops := s.ops + [Rename(c, x)])
  }

  /** A rename loop that visited `xs`, in that order. */
  function Renames(env: Env, s: State, c: Category, xs: seq<string>): State
    decreases |xs|
  {
    if xs == [] then s
    else RenameStep(env, Renames(env, s, c, xs[..|xs| - 1]), c, xs[|xs| - 1])
  }

  /** The percentage emitted after a success, `int(processed / total * 100)`. */
  function Percent(processed: nat, total: nat): nat
    requires total > 0
  {
    processed * 100 / total
  }

  /** One iteration of a download loop. */
  function FetchStep(env: Env, s: State, c: Category, x: string, total: nat): State
    requires total > 0
  {
    if s.aborted then s
    else
      var announced := s.events + [Status(Downloading(c, x))];
      match env.fetch(c, x)
      case Fetched =>
        s.(dirs := s.dirs.Put(c, s.dirs.Get(c) + {x}), ops := s.ops + [Write(c, x)],
           processed := s.processed + 1,
           events := announced + [Progress(Percent(s.processed + 1, total))])
      case Refused => s.(events := announced)
      case Raised => s.(events := announced, aborted := true)
  }

  /** A download loop that visited `xs`, in that order. */
  function Fetches(env: Env, s: State, c: Category, xs: seq<string>, total: nat): State
    requires total > 0
    decreases |xs|
  {
    if xs == [] then s
    else FetchStep(env, Fetches(env, s, c, xs[..|xs| - 1], total), c, xs[|xs| - 1], total)
  }

  function Start(local: Catalog): State
  {
    State(local, [], [], 0, false)
  }

  /** Both rename loops. */
  function Quarantine(local: Catalog, env: Env, t: Trace): State
  {
    Renames(env, Renames(env, Start(local), Mods, t.renameMods), Resourcepacks, t.renamePacks)
  }

  /** Both download loops, from the state the rename loops left. */
  function Downloads(env: Env, s: State, t: Trace, total: nat): State
    requires total > 0
  {
    Fetches(env, Fetches(env, s, Mods, t.fetchMods, total), Resourcepacks, t.fetchPacks, total)
  }

  /** The `try` block of `run`, up to its end or to the first exception. */
  function Attempt(local: Catalog, env: Env, t: Trace): State
  {
    match env.manifest
    case None => State(local, [], [], 0, true)
    case Some(w) =>
      var q := Quarantine(local, env, t);
      var total := Total(local, w);
      if q.aborted then q
      else if total == 0 then q.(events := q.events + [Status(UpToDate), Progress(100), Finished])
      else
        var d := Downloads(env, q, t, total);
        if d.aborted then d else d.(events := d.events + [Status(Done), Finished])
  }

  /** The whole run, its `except` block included. */
  function Sync(local: Catalog, env: Env, t: Trace): State
  {
    var a := Attempt(local, env, t);
    if a.aborted then a.(events := a.events + [Status(Failed)]) else a
  }

  predicate Distinct(xs: seq<string>)
  {
    forall i, j :: 0 <= i < j < |xs| ==> xs[i] != xs[j]
  }

  /**
   * A loop's visiting order: distinct members of `s`, all of them unless the
   * loop was left by an exception.
   */
  predicate Enumerates(xs: seq<string>, s: set<string>, stopped: bool)
  {
    && Distinct(xs)
    && (forall i :: 0 <= i < |xs| ==> xs[i] in s)
    && (stopped || forall x :: x in s ==> x in xs)
  }

  /** The traces a run can produce from `local` in the environment `env`. */
  predicate ValidTrace(local: Catalog, env: Env, t: Trace)
  {
    match env.manifest
    case None => t == Trace([], [], [], [])
    case Some(w) =>
      var s1 := Renames(env, Start(local), Mods, t.renameMods);
      var q := Renames(env, s1, Resourcepacks, t.renamePacks);
      var total := Total(local, w);
      && Enumerates(t.renameMods, Unwanted(Mods, local.mods, w.mods), s1.aborted)
      && Enumerates(t.renamePacks, Unwanted(Resourcepacks, local.resourcepacks, w.resourcepacks), q.aborted)
      && (total == 0 ==> t.fetchMods == [] && t.fetchPacks == [])
      && (total > 0 ==>
            var d1 := Fetches(env, q, Mods, t.fetchMods, total);
            && Enumerates(t.fetchMods, ToFetch(Mods, local.mods, w.mods), d1.aborted)
            && Enumerates(t.fetchPacks, ToFetch(Resourcepacks, local.resourcepacks, w.resourcepacks),
                          Fetches(env, d1, Resourcepacks, t.fetchPacks, total).aborted))
  }

  /** The progress values among the events, in the order they were emitted. */
  function Percentages(events: seq<Event>): seq<int>
    decreases |events|
  {
    if events == [] then []
    else
      var last := events[|events| - 1];
      Percentages(events[..|events| - 1]) + (if last.Progress? then [last.percent] else [])
  }

  predicate Sorted(p: seq<int>)
  {
    forall i, j :: 0 <= i < j < |p| ==> p[i] <= p[j]
  }
}
