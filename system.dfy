/**
 * The client run against the server: the manifest the client receives is
 * `ModManager.GetModpackInfo` of the server's tree, and every download it
 * asks for is answered by the `download_file` endpoint. Exceptions raised
 * by the transport and by the client's own renames stay parameters.
 */
module System {
  import opened Wrappers
  import opened Names
  import opened ModManager
  import opened SyncSpec
  import opened SyncProperties

  /** The elements of a list, as `set(...)` makes them. */
  function Elements(xs: seq<string>): (r: set<string>)
    ensures forall x :: x in r <==> x in xs
  {
    set x | x in xs
  }

  /**
   * What the client gets from `GET /modpack/<name>`: the manifest's two
   * lists as sets, or nothing when the server answered with an internal
   * error, whose body `response.json()` fails to decode.
   */
  function ManifestOf(modpacks: seq<Entry>, name: string): (r: Option<Catalog>)
    ensures r.Some? <==> GetModpackInfo(modpacks, name).Ok?
    ensures r.Some? ==> forall c, x :: x in r.value.Get(c) <==>
      x in (if c == Mods then GetModpackInfo(modpacks, name).value.mods
            else GetModpackInfo(modpacks, name).value.resourcepacks)
  {
    match GetModpackInfo(modpacks, name)
    case Ok(m) => Some(Catalog(Elements(m.mods), Elements(m.resourcepacks)))
    case Err(_) => None
  }

  /** The client's test on a download response: only status 200 is written to disk. */
  function ClientFetch(resp: Response): (r: Fetch)
    ensures r == Fetched <==> resp.status == Ok200
    ensures r != Raised
  {
    if resp.status == Ok200 then Fetched else Refused
  }

  /**
   * The answer to `GET /download/<name>/<category>/<x>`, from the tree the
   * server holds at that moment, `served`; `fixed` chooses the corrected
   * endpoint. `raises` marks the downloads whose request or write raises.
   */
  function Download(served: seq<Entry>, name: string, raises: (Category, string) -> bool, fixed: bool,
                    c: Category, x: string): (r: Fetch)
    ensures raises(c, x) ==> r == Raised
    ensures !raises(c, x) && fixed ==> (r == Fetched <==> IsRegularFile(Dir(served), [name, DirName(c), x]))
    ensures !raises(c, x) && !fixed ==> (r == Fetched <==> !IsDirectory(Lookup(Dir(served), [name, DirName(c), x])))
  {
    if raises(c, x) then Raised
    else if fixed then ClientFetch(DownloadFileFixed(served, name, DirName(c), x))
    else ClientFetch(DownloadFile(served, name, DirName(c), x))
  }

  /**
   * The client's environment when it talks to the server: the manifest is
   * built from the tree `listed`, the downloads are served from `served`
   * (the same tree unless the server's files change between the requests).
   * A request that does not raise succeeds, with the corrected endpoint,
   * exactly for a regular file, and as written for anything but a directory.
   */
  function ServerEnv(listed: seq<Entry>, served: seq<Entry>, name: string,
                     renameFails: (Category, string) -> bool, raises: (Category, string) -> bool,
                     fixed: bool): (env: Env)
    ensures env.manifest.Some? <==> GetModpackInfo(listed, name).Ok?
    ensures env.manifest.Some? ==> forall c, x :: x in env.manifest.value.Get(c) <==>
      x in (if c == Mods then GetModpackInfo(listed, name).value.mods
            else GetModpackInfo(listed, name).value.resourcepacks)
    ensures forall c, x :: raises(c, x) ==> env.fetch(c, x) == Raised
    ensures forall c, x :: !raises(c, x) ==>
      (env.fetch(c, x) == Fetched <==>
         if fixed then IsRegularFile(Dir(served), [name, DirName(c), x])
         else !IsDirectory(Lookup(Dir(served), [name, DirName(c), x])))
  {
    Env(ManifestOf(listed, name), renameFails, (c, x) => Download(served, name, raises, fixed, c, x))
  }

  /**
   * As written, `download_file` answers a request for a missing file with
   * status 200 and a JSON error body, so the client writes that body to
   * disk under the requested name and counts it as downloaded.
   */
  lemma MissingFileIsWritten(served: seq<Entry>, name: string, raises: (Category, string) -> bool,
                             c: Category, x: string)
    requires !raises(c, x) && !Exists(Dir(served), [name, DirName(c), x])
    ensures Download(served, name, raises, false, c, x) == Fetched
    ensures DownloadFile(served, name, DirName(c), x).body == ErrorBody(FileNotFound)
  {
  }

  /**
   * As written, a run in which nothing raises reports 100% and `finished`
   * even when none of the files it downloads exists on the server any more:
   * here the server's tree is empty by the time the downloads are made, and
   * the run still performs the write of a file the server does not have.
   */
  lemma AsWrittenRunReportsSuccess(listed: seq<Entry>, name: string, local: Catalog,
                                   renameFails: (Category, string) -> bool, t: Trace)
    requires GetModpackInfo(listed, name).Ok?
    requires Total(local, ManifestOf(listed, name).value) > 0
    requires forall c, x :: !renameFails(c, x)
    requires ValidTrace(local, ServerEnv(listed, [], name, renameFails, (c, x) => false, false), t)
    ensures var env := ServerEnv(listed, [], name, renameFails, (c, x) => false, false);
      var r := Sync(local, env, t);
      var p := Percentages(r.events);
      && (exists c, x :: Write(c, x) in r.ops && !Exists(Dir([]), [name, DirName(c), x]))
      && !r.aborted && |r.events| > 0 && r.events[|r.events| - 1] == Finished
      && |p| > 0 && p[|p| - 1] == 100
  {
    var env := ServerEnv(listed, [], name, renameFails, (c, x) => false, false);
    var w := env.manifest.value;
    AsWrittenEmptyTreeFetches(listed, name, renameFails, env);
    assert !RenameRaises(local, env, w);
    AllFetchedReachesFull(local, env, t);
    WroteAll(local, env, t);
    var c := if |FetchOf(local, w, Mods)| > 0 then Mods else Resourcepacks;
    var x :| x in FetchOf(local, w, c);
    assert Write(c, x) in Sync(local, env, t).ops;
    EmptyTreeHoldsNothing(name);
  }

  /** As written, every download from an empty tree counts as successful. */
  lemma AsWrittenEmptyTreeFetches(listed: seq<Entry>, name: string, renameFails: (Category, string) -> bool, env: Env)
    requires env == ServerEnv(listed, [], name, renameFails, (c, x) => false, false)
    ensures forall c, x :: env.fetch(c, x) == Fetched
  {
    EmptyTreeHoldsNothing(name);
  }

  lemma EmptyTreeHoldsNothing(name: string)
    ensures forall c, x :: !Exists(Dir([]), [name, DirName(c), x])
  {
    assert Child([], name) == None;
  }

  /**
   * With the corrected endpoint, a run reports 100% only if every file it
   * had to download is a regular file on the server.
   */
  lemma FixedFullProgressOnlyWhenServed(listed: seq<Entry>, served: seq<Entry>, name: string, local: Catalog,
                                        renameFails: (Category, string) -> bool,
                                        raises: (Category, string) -> bool, t: Trace)
    requires var env := ServerEnv(listed, served, name, renameFails, raises, true);
      env.manifest.Some? && ValidTrace(local, env, t) && 100 in Percentages(Sync(local, env, t).events)
    ensures var w := ManifestOf(listed, name).value;
      forall c, x :: x in FetchOf(local, w, c) ==> IsRegularFile(Dir(served), [name, DirName(c), x])
  {
    var env := ServerEnv(listed, served, name, renameFails, raises, true);
    FullProgressOnlyWhenAllFetched(local, env, t);
  }

  /**
   * A name the manifest lists, requested from the same tree, downloads
   * exactly when it is a regular file: a listed directory (a folder
   * resource pack) is answered with 500 by either endpoint.
   */
  lemma ListedFilesDownload(modpacks: seq<Entry>, name: string, raises: (Category, string) -> bool, fixed: bool,
                            c: Category, x: string)
    requires ManifestOf(modpacks, name).Some? && x in ManifestOf(modpacks, name).value.Get(c)
    requires !raises(c, x)
    ensures Download(modpacks, name, raises, fixed, c, x) == Fetched <==>
              IsRegularFile(Dir(modpacks), [name, DirName(c), x])
  {
    ListedNamesExist(modpacks, name, c, x);
  }

  /**
   * A folder the run has to download, with the server's tree unchanged, is
   * never written and the run never reports 100%, with either endpoint.
   */
  lemma FolderNeverDownloads(modpacks: seq<Entry>, name: string, local: Catalog,
                             renameFails: (Category, string) -> bool, raises: (Category, string) -> bool,
                             fixed: bool, t: Trace, c: Category, x: string)
    requires GetModpackInfo(modpacks, name).Ok?
    requires ValidTrace(local, ServerEnv(modpacks, modpacks, name, renameFails, raises, fixed), t)
    requires x in FetchOf(local, ManifestOf(modpacks, name).value, c)
    requires IsDirectory(Lookup(Dir(modpacks), [name, DirName(c), x]))
    ensures var r := Sync(local, ServerEnv(modpacks, modpacks, name, renameFails, raises, fixed), t);
      Write(c, x) !in r.ops && 100 !in Percentages(r.events)
  {
    var env := ServerEnv(modpacks, modpacks, name, renameFails, raises, fixed);
    assert env.fetch(c, x) != Fetched;
    UnfetchedNeverWritten(local, env, t, c, x);
  }

  /**
   * End to end: against an unchanged server tree with a readable modpack
   * whose listed names are all regular files, a run in which no rename and
   * no request raises ends in `finished` at 100%, and afterwards the
   * client's directories need nothing further: nothing to download and
   * nothing to quarantine.
   */
  lemma SyncConverges(modpacks: seq<Entry>, name: string, local: Catalog,
                      renameFails: (Category, string) -> bool, t: Trace)
    requires GetModpackInfo(modpacks, name).Ok?
    requires forall c, x :: x in ManifestOf(modpacks, name).value.Get(c) ==>
               IsRegularFile(Dir(modpacks), [name, DirName(c), x])
    requires forall c, x :: !renameFails(c, x)
    requires ValidTrace(local, ServerEnv(modpacks, modpacks, name, renameFails, (c, x) => false, true), t)
    ensures var env := ServerEnv(modpacks, modpacks, name, renameFails, (c, x) => false, true);
      var w := env.manifest.value;
      var r := Sync(local, env, t);
      var p := Percentages(r.events);
      && !r.aborted && |r.events| > 0 && r.events[|r.events| - 1] == Finished && |p| > 0 && p[|p| - 1] == 100
      && forall c :: FetchOf(r.dirs, w, c) == {} && QuarantineOf(r.dirs, w, c) == {}
  {
    var env := ServerEnv(modpacks, modpacks, name, renameFails, (c, x) => false, true);
    var w := env.manifest.value;
    forall c, x | x in FetchOf(local, w, c) ensures env.fetch(c, x) == Fetched {
      ListedFilesDownload(modpacks, name, (c, x) => false, true, c, x);
    }
    assert forall x :: x in w.mods ==> IsJar(x);
    AllFetchedReachesFull(local, env, t);
    Converges(local, env, t);
  }

  /**
   * Asking for a modpack the server does not have yields an empty manifest,
   * so a run in which no rename raises quarantines every local `.jar` mod
   * and every local resource pack not already ending in `_`. An empty name
   * is excluded: `GET /modpack/` matches no route, and the client fails on
   * the missing `mods` key before renaming anything.
   */
  lemma UnknownModpackQuarantinesAll(modpacks: seq<Entry>, name: string, local: Catalog,
                                     env: Env, t: Trace)
    requires name != "" && Child(modpacks, name).None?
    requires env.manifest == ManifestOf(modpacks, name)
    requires ValidTrace(local, env, t) && !Quarantine(local, env, t).aborted
    ensures env.manifest == Some(Catalog({}, {}))
    ensures var r := Sync(local, env, t);
      forall c, x :: x in Inventory(c, local.Get(c)) && !IsMarked(x) ==>
        Rename(c, x) in r.ops && x !in r.dirs.Get(c) && Mark(x) in r.dirs.Get(c)
  {
    assert ManifestOf(modpacks, name).value == Catalog({}, {});
    QuarantineRenamesExactly(local, env, t);
  }
}
