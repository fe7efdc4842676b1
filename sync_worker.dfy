/**
 * `ModSyncWorker` and its `run` method, written step by step as the client
 * performs them. The worker's view of the world is held in fields: the two
 * directories under the Minecraft folder, the file-system mutations made so
 * far and the signals emitted so far. `Run` is proved to leave exactly the
 * state that the reference function `SyncSpec.Sync` describes, for the
 * visiting order its loops actually took.
 */
module SyncWorker {
  import opened Wrappers
  import opened Names
  import opened SyncSpec
  import opened SyncFolds

  /**
   * A loop over the set `all` part-way through: `xs` is what it has visited,
   * in order and without repeats, and `rest` what it has not.
   */
  ghost predicate Visiting(all: set<string>, rest: set<string>, xs: seq<string>)
  {
    && rest <= all
    && (forall x :: x in all ==> (x in rest <==> x !in xs))
    && Distinct(xs)
    && (forall i :: 0 <= i < |xs| ==> xs[i] in all)
  }

  lemma VisitStep(all: set<string>, rest: set<string>, xs: seq<string>, x: string)
    requires Visiting(all, rest, xs) && x in rest
    ensures Visiting(all, rest - {x}, xs + [x])
  {
    assert forall y :: y in xs + [x] <==> y in xs || y == x;
  }

  /** A visit is a valid visiting order, and a complete one once nothing is left. */
  lemma VisitedEnumerates(all: set<string>, rest: set<string>, xs: seq<string>)
    requires Visiting(all, rest, xs)
    ensures Enumerates(xs, all, true)
    ensures rest == {} ==> Enumerates(xs, all, false)
  {
  }

  /** The rename loops' visiting orders are valid for `t`. */
  ghost predicate RenamesEnumerate(local: Catalog, env: Env, t: Trace)
    requires env.manifest.Some?
  {
    var w := env.manifest.value;
    var s1 := Renames(env, Start(local), Mods, t.renameMods);
    && Enumerates(t.renameMods, Unwanted(Mods, local.mods, w.mods), s1.aborted)
    && Enumerates(t.renamePacks, Unwanted(Resourcepacks, local.resourcepacks, w.resourcepacks),
                  Quarantine(local, env, t).aborted)
  }

  /** A run that raised in a rename loop. */
  lemma QuarantineFailedRun(local: Catalog, env: Env, t: Trace)
    requires env.manifest.Some? && RenamesEnumerate(local, env, t)
    requires t.fetchMods == [] && t.fetchPacks == []
    requires Quarantine(local, env, t).aborted
    ensures ValidTrace(local, env, t)
    ensures var q := Quarantine(local, env, t);
      Sync(local, env, t) == q.(events := q.events + [Status(Failed)])
  {
  }

  /** A run that found nothing to download, on the trace `t0` with no download orders. */
  lemma UpToDateRun(local: Catalog, env: Env, t0: Trace)
    requires env.manifest.Some? && RenamesEnumerate(local, env, t0)
    requires !Quarantine(local, env, t0).aborted && Total(local, env.manifest.value) == 0
    ensures var t := t0.(fetchMods := [], fetchPacks := []);
      var q := Quarantine(local, env, t0);
      && ValidTrace(local, env, t)
      && Sync(local, env, t) == q.(events := q.events + [Status(UpToDate), Progress(100), Finished])
  {
  }

  /** A run that reached the download loops. */
  lemma DownloadingRun(local: Catalog, env: Env, t: Trace)
    requires env.manifest.Some? && RenamesEnumerate(local, env, t)
    requires !Quarantine(local, env, t).aborted
    requires Total(local, env.manifest.value) > 0
    requires var w := env.manifest.value;
      var total := Total(local, w);
      var d1 := Fetches(env, Quarantine(local, env, t), Mods, t.fetchMods, total);
      && Enumerates(t.fetchMods, ToFetch(Mods, local.mods, w.mods), d1.aborted)
      && Enumerates(t.fetchPacks, ToFetch(Resourcepacks, local.resourcepacks, w.resourcepacks),
                    Fetches(env, d1, Resourcepacks, t.fetchPacks, total).aborted)
    ensures ValidTrace(local, env, t)
    ensures var d := Downloads(env, Quarantine(local, env, t), t, Total(local, env.manifest.value));
      Sync(local, env, t) == if d.aborted then d.(events := d.events + [Status(Failed)])
                             else d.(events := d.events + [Status(Done), Finished])
  {
  }

  /** `DownloadingRun` for the trace that extends `t0` by the download orders. */
  lemma DownloadPhase(local: Catalog, env: Env, t0: Trace, fetchMods: seq<string>, fetchPacks: seq<string>,
                      total: nat)
    requires env.manifest.Some? && RenamesEnumerate(local, env, t0)
    requires !Quarantine(local, env, t0).aborted
    requires total == Total(local, env.manifest.value) && total > 0
    requires var w := env.manifest.value;
      var d1 := Fetches(env, Quarantine(local, env, t0), Mods, fetchMods, total);
      && Enumerates(fetchMods, ToFetch(Mods, local.mods, w.mods), d1.aborted)
      && Enumerates(fetchPacks, ToFetch(Resourcepacks, local.resourcepacks, w.resourcepacks),
                    Fetches(env, d1, Resourcepacks, fetchPacks, total).aborted)
    ensures var t := t0.(fetchMods := fetchMods, fetchPacks := fetchPacks);
      var d := Fetches(env, Fetches(env, Quarantine(local, env, t0), Mods, fetchMods, total),
                       Resourcepacks, fetchPacks, total);
      && ValidTrace(local, env, t)
      && Sync(local, env, t) == if d.aborted then d.(events := d.events + [Status(Failed)])
                                else d.(events := d.events + [Status(Done), Finished])
  {
    var t := t0.(fetchMods := fetchMods, fetchPacks := fetchPacks);
    assert Quarantine(local, env, t) == Quarantine(local, env, t0);
    DownloadingRun(local, env, t);
  }

  /** Appending to a log in two steps is appending once. */
  lemma AppendAssoc<T>(a: seq<T>, b: seq<T>, c: seq<T>)
    ensures a + (b + c) == (a + b) + c
  {
  }

  /**
   * The worker thread. `modpackName` and `minecraftPath` only shape the
   * requests and paths the run uses: the `env` given to `Run` stands for
   * the server's answers to the requests made with `modpackName`
   * (`System.ServerEnv` builds it from a server tree and that name), and
   * `dirs` for the two directories under `minecraftPath`.
   */
  class ModSyncWorker {
    const modpackName: string
    const minecraftPath: string
    /** The names in `<minecraftPath>/mods` and `<minecraftPath>/resourcepacks`. */
    var dirs: Catalog
    /** The renames and writes performed on those directories, oldest first. */
    var ops: seq<Op>
    /** The `status`, `progress` and `finished` signals, oldest first. */
    var events: seq<Event>

    constructor(modpackName: string, minecraftPath: string, dirs: Catalog)
      ensures this.modpackName == modpackName && this.minecraftPath == minecraftPath
      ensures this.dirs == dirs && ops == [] && events == []
    {
      this.modpackName := modpackName;
      this.minecraftPath := minecraftPath;
      this.dirs := dirs;
      ops := [];
      events := [];
    }

    /** The fields show the state `s`, after `ops0` and `ev0` from earlier. */
    ghost predicate Shows(s: State, ops0: seq<Op>, ev0: seq<Event>)
      reads this
    {
      dirs == s.dirs && ops == ops0 + s.ops && events == ev0 + s.events
    }

    /**
     * One rename loop: every name of `unwanted` not already ending in `_`
     * gets `_` appended, until a rename raises (`failed`). `xs` is the order
     * in which the set was visited.
     */
    method RenameUnwanted(env: Env, c: Category, unwanted: set<string>,
                          ghost s: State, ghost ops0: seq<Op>, ghost ev0: seq<Event>)
      returns (ghost xs: seq<string>, failed: bool)
      requires !s.aborted && Shows(s, ops0, ev0)
      modifies this
      ensures var r := Renames(env, s, c, xs);
        Shows(r, ops0, ev0) && failed == r.aborted && Enumerates(xs, unwanted, failed)
    {
      var rest := unwanted;
      xs := [];
      failed := false;
      while rest != {}
        invariant Visiting(unwanted, rest, xs)
        invariant Shows(Renames(env, s, c, xs), ops0, ev0) && !Renames(env, s, c, xs).aborted
        decreases |rest|
      {
        var x :| x in rest;
        VisitStep(unwanted, rest, xs, x);
        ghost var before := Renames(env, s, c, xs);
        assert (xs + [x])[..|xs|] == xs;
        assert Renames(env, s, c, xs + [x]) == RenameStep(env, before, c, x);
        if !IsMarked(x) {
          if env.renameFails(c, x) {
            xs := xs + [x];
            failed := true;
            VisitedEnumerates(unwanted, rest - {x}, xs);
            return;
          }
          AppendAssoc(ops0, before.ops, [Rename(c, x)]);
          dirs := dirs.Put(c, dirs.Get(c) - {x} + {Mark(x)});
          ops := ops + [Rename(c, x)];
        }
        assert Shows(RenameStep(env, before, c, x), ops0, ev0);
        xs := xs + [x];
        rest := rest - {x};
      }
      VisitedEnumerates(unwanted, rest, xs);
    }

    /**
     * One iteration of a download loop: announce `x`, request it, and on
     * status 200 write it, count it and emit the new percentage.
     */
    method DownloadOne(env: Env, c: Category, x: string, total: nat, processed: nat,
                       ghost s: State, ghost ops0: seq<Op>, ghost ev0: seq<Event>)
      returns (processed': nat, failed: bool)
      requires total > 0 && !s.aborted && s.processed == processed && Shows(s, ops0, ev0)
      modifies this
      ensures var r := FetchStep(env, s, c, x, total);
        Shows(r, ops0, ev0) && processed' == r.processed && failed == r.aborted
    {
      processed' := processed;
      failed := false;
      AppendAssoc(ev0, s.events, [Status(Downloading(c, x))]);
      events := events + [Status(Downloading(c, x))];
      match env.fetch(c, x) {
        case Raised =>
          failed := true;
        case Refused =>
        case Fetched =>
          AppendAssoc(ops0, s.ops, [Write(c, x)]);
          AppendAssoc(ev0, s.events + [Status(Downloading(c, x))], [Progress(Percent(processed + 1, total))]);
          dirs := dirs.Put(c, dirs.Get(c) + {x});
          ops := ops + [Write(c, x)];
          processed' := processed' + 1;
          events := events + [Progress(Percent(processed', total))];
      }
    }

    /**
     * One download loop: each name of `missing` is announced and requested;
     * a status-200 answer is written to disk and counted in `processed`,
     * followed by the new percentage. A request that raises ends the loop
     * (`failed`).
     */
    method DownloadMissing(env: Env, c: Category, missing: set<string>, total: nat, processed: nat,
                           ghost s: State, ghost ops0: seq<Op>, ghost ev0: seq<Event>)
      returns (ghost xs: seq<string>, processed': nat, failed: bool)
      requires total > 0 && !s.aborted && s.processed == processed && Shows(s, ops0, ev0)
      modifies this
      ensures var r := Fetches(env, s, c, xs, total);
        && Shows(r, ops0, ev0) && processed' == r.processed && failed == r.aborted
        && Enumerates(xs, missing, failed)
    {
      var rest := missing;
      xs := [];
      processed' := processed;
      failed := false;
      while rest != {}
        invariant Visiting(missing, rest, xs)
        invariant var r := Fetches(env, s, c, xs, total);
          Shows(r, ops0, ev0) && !r.aborted && r.processed == processed'
        decreases |rest|
      {
        var x :| x in rest;
        VisitStep(missing, rest, xs, x);
        assert (xs + [x])[..|xs|] == xs;
        assert Fetches(env, s, c, xs + [x], total) == FetchStep(env, Fetches(env, s, c, xs, total), c, x, total);
        processed', failed := DownloadOne(env, c, x, total, processed', Fetches(env, s, c, xs, total), ops0, ev0);
        xs := xs + [x];
        if failed {
          VisitedEnumerates(missing, rest - {x}, xs);
          return;
        }
        rest := rest - {x};
      }
      VisitedEnumerates(missing, rest, xs);
    }

    /**
     * The two rename loops, each over the category's local names minus the
     * manifest's, and the sets of files to download computed beside them.
     */
    method QuarantineBoth(env: Env, w: Catalog, ghost ops0: seq<Op>, ghost ev0: seq<Event>)
      returns (ghost renameMods: seq<string>, ghost renamePacks: seq<string>,
               modsToDownload: set<string>, packsToDownload: set<string>, failed: bool)
      requires env.manifest == Some(w) && ops == ops0 && events == ev0
      modifies this
      ensures var t := Trace(renameMods, renamePacks, [], []);
        var q := Quarantine(old(dirs), env, t);
        && RenamesEnumerate(old(dirs), env, t)
        && Shows(q, ops0, ev0) && failed == q.aborted
        && (!failed ==> modsToDownload == ToFetch(Mods, old(dirs).mods, w.mods))
        && (!failed ==> packsToDownload == ToFetch(Resourcepacks, old(dirs).resourcepacks, w.resourcepacks))
    {
      ghost var local := dirs;
      ghost var s0 := Start(local);
      var localMods := Inventory(Mods, dirs.mods);
      renameMods, failed := RenameUnwanted(env, Mods, localMods - w.mods, s0, ops0, ev0);
      ghost var s1 := Renames(env, s0, Mods, renameMods);
      RenamesFrame(env, s0, Mods, renameMods);
      if failed {
        renamePacks, modsToDownload, packsToDownload := [], {}, {};
        return;
      }
      modsToDownload := w.mods - localMods;
      var localPacks := dirs.resourcepacks;
      assert localPacks == local.resourcepacks;
      packsToDownload := w.resourcepacks - localPacks;
      renamePacks, failed := RenameUnwanted(env, Resourcepacks, localPacks - w.resourcepacks, s1, ops0, ev0);
    }

    /** The two download loops, sharing `total` and the `processed` counter. */
    method DownloadBoth(env: Env, modsToDownload: set<string>, packsToDownload: set<string>, total: nat,
                        ghost q: State, ghost ops0: seq<Op>, ghost ev0: seq<Event>)
      returns (ghost fetchMods: seq<string>, ghost fetchPacks: seq<string>, failed: bool)
      requires total > 0 && !q.aborted && q.processed == 0 && Shows(q, ops0, ev0)
      modifies this
      ensures var d1 := Fetches(env, q, Mods, fetchMods, total);
        var d := Fetches(env, d1, Resourcepacks, fetchPacks, total);
        && Enumerates(fetchMods, modsToDownload, d1.aborted)
        && Enumerates(fetchPacks, packsToDownload, d.aborted)
        && Shows(d, ops0, ev0) && failed == d.aborted
    {
      var processed := 0;
      fetchMods, processed, failed := DownloadMissing(env, Mods, modsToDownload, total, processed, q, ops0, ev0);
      ghost var d1 := Fetches(env, q, Mods, fetchMods, total);
      if failed {
        fetchPacks := [];
        return;
      }
      fetchPacks, processed, failed := DownloadMissing(env, Resourcepacks, packsToDownload, total, processed, d1, ops0, ev0);
    }

    /**
     * The downloads and the final report of a run with at least one file to
     * download: `finished` after both loops, or the failure status if a
     * download raised.
     */
    method DownloadAndReport(env: Env, ghost local: Catalog, ghost t0: Trace,
                             modsToDownload: set<string>, packsToDownload: set<string>, total: nat,
                             ghost ops0: seq<Op>, ghost ev0: seq<Event>)
      returns (ghost t: Trace)
      requires env.manifest.Some? && RenamesEnumerate(local, env, t0)
      requires var w := env.manifest.value;
        && modsToDownload == ToFetch(Mods, local.mods, w.mods)
        && packsToDownload == ToFetch(Resourcepacks, local.resourcepacks, w.resourcepacks)
      requires total == Total(local, env.manifest.value) && total > 0
      requires var q := Quarantine(local, env, t0);
        !q.aborted && q.processed == 0 && Shows(q, ops0, ev0)
      modifies this
      ensures ValidTrace(local, env, t)
      ensures Shows(Sync(local, env, t), ops0, ev0)
    {
      ghost var fetchMods, fetchPacks;
      var failed;
      fetchMods, fetchPacks, failed :=
        DownloadBoth(env, modsToDownload, packsToDownload, total, Quarantine(local, env, t0), ops0, ev0);
      DownloadPhase(local, env, t0, fetchMods, fetchPacks, total);
      t := t0.(fetchMods := fetchMods, fetchPacks := fetchPacks);
      ghost var d := Fetches(env, Fetches(env, Quarantine(local, env, t0), Mods, fetchMods, total),
                             Resourcepacks, fetchPacks, total);
      if failed {
        AppendAssoc(ev0, d.events, [Status(Failed)]);
        events := events + [Status(Failed)];
      } else {
        AppendAssoc(ev0, d.events, [Status(Done), Finished]);
        events := events + [Status(Done), Finished];
      }
    }

    /**
     * The run from the state the rename loops left: the count of files to
     * download, then either the up-to-date report or the downloads.
     */
    method CountAndDownload(env: Env, ghost local: Catalog, ghost t0: Trace,
                             modsToDownload: set<string>, packsToDownload: set<string>,
                             ghost ops0: seq<Op>, ghost ev0: seq<Event>)
      returns (ghost t: Trace)
      requires env.manifest.Some? && RenamesEnumerate(local, env, t0)
      requires var w := env.manifest.value;
        && modsToDownload == ToFetch(Mods, local.mods, w.mods)
        && packsToDownload == ToFetch(Resourcepacks, local.resourcepacks, w.resourcepacks)
      requires var q := Quarantine(local, env, t0);
        !q.aborted && q.processed == 0 && Shows(q, ops0, ev0)
      modifies this
      ensures ValidTrace(local, env, t)
      ensures Shows(Sync(local, env, t), ops0, ev0)
    {
      var total := |modsToDownload| + |packsToDownload|;
      if total == 0 {
        UpToDateRun(local, env, t0);
        AppendAssoc(ev0, Quarantine(local, env, t0).events, [Status(UpToDate), Progress(100), Finished]);
        t := t0.(fetchMods := [], fetchPacks := []);
        events := events + [Status(UpToDate), Progress(100), Finished];
      } else {
        t := DownloadAndReport(env, local, t0, modsToDownload, packsToDownload, total, ops0, ev0);
      }
    }

    /**
     * The whole run: fetch the manifest, quarantine, count, download, report.
     * An exception anywhere ends the run with a failure status. The returned
     * trace is the order the four loops visited their sets.
     */
    method Run(env: Env) returns (ghost t: Trace)
      modifies this
      ensures ValidTrace(old(dirs), env, t)
      ensures var r := Sync(old(dirs), env, t);
        dirs == r.dirs && ops == old(ops) + r.ops && events == old(events) + r.events
    {
      ghost var local := dirs;
      ghost var ops0 := ops;
      ghost var ev0 := events;
      if env.manifest.None? {
        t := Trace([], [], [], []);
        events := events + [Status(Failed)];
        return;
      }
      var w := env.manifest.value;
      ghost var renameMods, renamePacks;
      var modsToDownload, packsToDownload, failed;
      renameMods, renamePacks, modsToDownload, packsToDownload, failed := QuarantineBoth(env, w, ops0, ev0);
      t := Trace(renameMods, renamePacks, [], []);
      if failed {
        QuarantineFailedRun(local, env, t);
        events := events + [Status(Failed)];
        return;
      }
      RenamesFrame(env, Start(local), Mods, renameMods);
      RenamesFrame(env, Renames(env, Start(local), Mods, renameMods), Resourcepacks, renamePacks);
      t := CountAndDownload(env, local, t, modsToDownload, packsToDownload, ops0, ev0);
    }
  }
}
