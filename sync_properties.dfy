/**
 * Properties of a whole sync run, for every order in which the run visits
 * its sets: which files are quarantined and which downloaded, that renames
 * precede downloads, what the progress signal reports, when the run ends in
 * `finished` and when in an error, and that a second run has nothing left
 * to quarantine.
 */
module SyncProperties {
  import opened Wrappers
  import opened Names
  import opened SyncSpec
  import opened SyncFolds

  /** The files of category `c` the run quarantines. */
  function QuarantineOf(local: Catalog, w: Catalog, c: Category): set<string>
  {
    ToQuarantine(c, local.Get(c), w.Get(c))
  }

  /** The files of category `c` the run downloads. */
  function FetchOf(local: Catalog, w: Catalog, c: Category): set<string>
  {
    ToFetch(c, local.Get(c), w.Get(c))
  }

  function RenameOrder(t: Trace, c: Category): seq<string>
  {
    if c == Mods then t.renameMods else t.renamePacks
  }

  function FetchOrder(t: Trace, c: Category): seq<string>
  {
    if c == Mods then t.fetchMods else t.fetchPacks
  }

  lemma SubsetCard<T>(a: set<T>, b: set<T>)
    requires a <= b
    ensures |a| <= |b|
    ensures |a| == |b| ==> a == b
  {
    if a != {} {
      var x :| x in a;
      SubsetCard(a - {x}, b - {x});
    } else if b != {} {
      var x :| x in b;
    }
  }

  /**
   * The rename loops emit nothing and perform only renames of unmarked
   * names they visited; a file they did not visit stays, and they add only
   * marked names.
   */
  lemma QuarantineShape(local: Catalog, env: Env, t: Trace)
    ensures var q := Quarantine(local, env, t);
      && q.events == [] && q.processed == 0
      && (forall i :: 0 <= i < |q.ops| ==>
            q.ops[i].Rename? && q.ops[i].name in RenameOrder(t, q.ops[i].cat) && !IsMarked(q.ops[i].name))
      && (forall c, y :: y in local.Get(c) && y !in RenameOrder(t, c) ==> y in q.dirs.Get(c))
      && (forall c, y :: y in q.dirs.Get(c) ==> y in local.Get(c) || IsMarked(y))
  {
    var s0 := Start(local);
    var s1 := Renames(env, s0, Mods, t.renameMods);
    var q := Renames(env, s1, Resourcepacks, t.renamePacks);
    RenamesFrame(env, s0, Mods, t.renameMods);
    RenamesOps(env, s0, Mods, t.renameMods);
    RenamesFrame(env, s1, Resourcepacks, t.renamePacks);
    RenamesOps(env, s1, Resourcepacks, t.renamePacks);
    forall i | 0 <= i < |q.ops|
      ensures q.ops[i].Rename? && q.ops[i].name in RenameOrder(t, q.ops[i].cat) && !IsMarked(q.ops[i].name)
    {
      if i < |s1.ops| {
        assert q.ops[i] == q.ops[..|s1.ops|][i] == s1.ops[i];
      }
    }
  }

  /** The files and operations of a run are those its loops left. */
  lemma SyncFiles(local: Catalog, env: Env, t: Trace)
    requires env.manifest.Some?
    ensures var q := Quarantine(local, env, t);
      var r := Sync(local, env, t);
      var total := Total(local, env.manifest.value);
      && (q.aborted || total == 0 ==> r.ops == q.ops && r.dirs == q.dirs)
      && (!q.aborted && total > 0 ==>
            r.ops == Downloads(env, q, t, total).ops && r.dirs == Downloads(env, q, t, total).dirs)
  {
  }

  /**
   * After the rename loops, the download loops only add files of the
   * download sets whose download succeeded, and perform only those writes.
   */
  lemma RunShape(local: Catalog, env: Env, t: Trace)
    requires env.manifest.Some? && ValidTrace(local, env, t)
    ensures var q := Quarantine(local, env, t);
      var r := Sync(local, env, t);
      var w := env.manifest.value;
      && |q.ops| <= |r.ops| && r.ops[..|q.ops|] == q.ops
      && (forall i :: |q.ops| <= i < |r.ops| ==>
            && r.ops[i].Write?
            && r.ops[i].name in FetchOf(local, w, r.ops[i].cat)
            && env.fetch(r.ops[i].cat, r.ops[i].name) == Fetched)
      && (forall c, y :: y in q.dirs.Get(c) ==> y in r.dirs.Get(c))
      && (forall c, y :: y in r.dirs.Get(c) ==> y in q.dirs.Get(c) || y in FetchOf(local, w, c))
      && (q.aborted ==> r.ops == q.ops && r.dirs == q.dirs)
  {
    var w := env.manifest.value;
    var q := Quarantine(local, env, t);
    var total := Total(local, w);
    SyncFiles(local, env, t);
    if !q.aborted && total > 0 {
      var d1 := Fetches(env, q, Mods, t.fetchMods, total);
      var d := Fetches(env, d1, Resourcepacks, t.fetchPacks, total);
      FetchesEffect(env, q, Mods, t.fetchMods, total);
      FetchesEffect(env, d1, Resourcepacks, t.fetchPacks, total);
      LoopWrites(local, w, env, q, Mods, t.fetchMods, total);
      LoopWrites(local, w, env, d1, Resourcepacks, t.fetchPacks, total);
      WritesExtend(d1.ops, d.ops, |q.ops|, local, w, env);
    }
  }

  /** From index `from` on, `ops` holds only successful writes of files to download. */
  ghost predicate WritesOf(ops: seq<Op>, from: nat, local: Catalog, w: Catalog, env: Env)
  {
    forall i :: from <= i < |ops| ==>
      && ops[i].Write?
      && ops[i].name in FetchOf(local, w, ops[i].cat)
      && env.fetch(ops[i].cat, ops[i].name) == Fetched
  }

  /** A download loop over files to download appends only successful writes of them. */
  lemma LoopWrites(local: Catalog, w: Catalog, env: Env, s: State, c: Category, xs: seq<string>, total: nat)
    requires total > 0 && forall i :: 0 <= i < |xs| ==> xs[i] in FetchOf(local, w, c)
    ensures var r := Fetches(env, s, c, xs, total);
      |s.ops| <= |r.ops| && r.ops[..|s.ops|] == s.ops && WritesOf(r.ops, |s.ops|, local, w, env)
  {
    FetchesEffect(env, s, c, xs, total);
    assert forall x :: x in xs ==> x in FetchOf(local, w, c);
  }

  /** Two stretches of such writes, one after the other, make one. */
  lemma WritesExtend(a: seq<Op>, b: seq<Op>, n: nat, local: Catalog, w: Catalog, env: Env)
    requires n <= |a| <= |b| && b[..|a|] == a
    requires WritesOf(a, n, local, w, env) && WritesOf(b, |a|, local, w, env)
    ensures b[..n] == a[..n] && WritesOf(b, n, local, w, env)
  {
    forall i | n <= i < |a| ensures b[i] == a[i] {
      assert b[..|a|][i] == b[i];
    }
  }

  /** A complete rename loop over `Unwanted` renames exactly `ToQuarantine`. */
  lemma UnmarkedOfUnwanted(xs: seq<string>, local: Catalog, w: Catalog, c: Category)
    requires Enumerates(xs, Unwanted(c, local.Get(c), w.Get(c)), false)
    ensures Unmarked(xs) == QuarantineOf(local, w, c)
  {
  }

  /**
   * When no rename raised, the rename loops left each directory as the
   * local listing with every file of `QuarantineOf` renamed to its marked
   * name, and renamed nothing else.
   */
  lemma QuarantineExact(local: Catalog, env: Env, t: Trace)
    requires env.manifest.Some? && ValidTrace(local, env, t)
    requires !Quarantine(local, env, t).aborted
    ensures var q := Quarantine(local, env, t);
      var w := env.manifest.value;
      && (forall c :: q.dirs.Get(c) == (local.Get(c) - QuarantineOf(local, w, c)) + MarkAll(QuarantineOf(local, w, c)))
      && (forall c, x :: Rename(c, x) in q.ops <==> x in QuarantineOf(local, w, c))
  {
    var w := env.manifest.value;
    var s0 := Start(local);
    var s1 := Renames(env, s0, Mods, t.renameMods);
    var q := Renames(env, s1, Resourcepacks, t.renamePacks);
    CompleteRenameOrders(local, env, t);
    QuarantineExactDirs(env, s0, s1, t);
    QuarantineExactOps(env, s0, s1, t);
    forall c ensures q.dirs.Get(c) == (local.Get(c) - QuarantineOf(local, w, c)) + MarkAll(QuarantineOf(local, w, c)) {
      if c == Mods {
        assert q.dirs.Get(c) == q.dirs.mods;
      } else {
        assert q.dirs.Get(c) == q.dirs.resourcepacks;
      }
    }
    forall c, x ensures Rename(c, x) in q.ops <==> x in QuarantineOf(local, w, c) {
      if c == Mods {
        assert Rename(Mods, x) in q.ops <==> x in Unmarked(t.renameMods);
      } else {
        assert Rename(Resourcepacks, x) in q.ops <==> x in Unmarked(t.renamePacks);
      }
    }
  }

  /** When no rename raised, the rename loops visited every unwanted name. */
  lemma CompleteRenameOrders(local: Catalog, env: Env, t: Trace)
    requires env.manifest.Some? && ValidTrace(local, env, t)
    requires !Quarantine(local, env, t).aborted
    ensures Unmarked(t.renameMods) == QuarantineOf(local, env.manifest.value, Mods)
    ensures Unmarked(t.renamePacks) == QuarantineOf(local, env.manifest.value, Resourcepacks)
  {
    var w := env.manifest.value;
    var s0 := Start(local);
    var s1 := Renames(env, s0, Mods, t.renameMods);
    RenamesFrame(env, s1, Resourcepacks, t.renamePacks);
    UnmarkedOfUnwanted(t.renameMods, local, w, Mods);
    UnmarkedOfUnwanted(t.renamePacks, local, w, Resourcepacks);
  }

  lemma QuarantineExactDirs(env: Env, s0: State, s1: State, t: Trace)
    requires s1 == Renames(env, s0, Mods, t.renameMods)
    requires !Renames(env, s1, Resourcepacks, t.renamePacks).aborted
    ensures var q := Renames(env, s1, Resourcepacks, t.renamePacks);
      && q.dirs.mods == (s0.dirs.mods - Unmarked(t.renameMods)) + MarkAll(Unmarked(t.renameMods))
      && q.dirs.resourcepacks == (s0.dirs.resourcepacks - Unmarked(t.renamePacks)) + MarkAll(Unmarked(t.renamePacks))
  {
    RenamesFrame(env, s1, Resourcepacks, t.renamePacks);
    RenamesFrame(env, s0, Mods, t.renameMods);
    RenamesComplete(env, s0, Mods, t.renameMods);
    RenamesComplete(env, s1, Resourcepacks, t.renamePacks);
  }

  lemma QuarantineExactOps(env: Env, s0: State, s1: State, t: Trace)
    requires s0.ops == [] && s1 == Renames(env, s0, Mods, t.renameMods)
    requires !Renames(env, s1, Resourcepacks, t.renamePacks).aborted
    ensures var q := Renames(env, s1, Resourcepacks, t.renamePacks);
      && (forall x :: Rename(Mods, x) in q.ops <==> x in Unmarked(t.renameMods))
      && (forall x :: Rename(Resourcepacks, x) in q.ops <==> x in Unmarked(t.renamePacks))
  {
    var q := Renames(env, s1, Resourcepacks, t.renamePacks);
    RenamesFrame(env, s1, Resourcepacks, t.renamePacks);
    assert !s1.aborted;
    RenamesCompleteOps(env, s0, Mods, t.renameMods);
    RenamesCompleteOps(env, s1, Resourcepacks, t.renamePacks);
    RenamesOps(env, s1, Resourcepacks, t.renamePacks);
    RenamesOps(env, s0, Mods, t.renameMods);
    forall x ensures Rename(Mods, x) in q.ops <==> Rename(Mods, x) in s1.ops {
      if Rename(Mods, x) in q.ops {
        var i :| 0 <= i < |q.ops| && q.ops[i] == Rename(Mods, x);
        assert q.ops[..|s1.ops|][i] == Rename(Mods, x);
      }
      assert q.ops[..|s1.ops|] == s1.ops;
    }
  }

  /** Writes appended after `q` add no rename. */
  lemma RenamesInPrefix(r: seq<Op>, q: seq<Op>)
    requires |q| <= |r| && r[..|q|] == q
    requires forall i :: |q| <= i < |r| ==> r[i].Write?
    ensures forall o: Op :: o.Rename? ==> (o in r <==> o in q)
  {
    forall o: Op | o.Rename? && o in r ensures o in q {
      var i :| 0 <= i < |r| && r[i] == o;
      assert r[..|q|][i] == r[i];
    }
  }

  /**
   * Every local file not in the server's set and not ending in `_` is
   * renamed to `name_` in its own directory, and no other file is renamed;
   * the download loops do not bring an unwanted name back.
   */
  lemma QuarantineRenamesExactly(local: Catalog, env: Env, t: Trace)
    requires env.manifest.Some? && ValidTrace(local, env, t)
    requires !Quarantine(local, env, t).aborted
    ensures var r := Sync(local, env, t);
      var w := env.manifest.value;
      && (forall c, x :: Rename(c, x) in r.ops <==> x in QuarantineOf(local, w, c))
      && (forall c, x :: x in QuarantineOf(local, w, c) ==> x !in r.dirs.Get(c) && Mark(x) in r.dirs.Get(c))
  {
    var w := env.manifest.value;
    var q := Quarantine(local, env, t);
    var r := Sync(local, env, t);
    QuarantineExact(local, env, t);
    RunShape(local, env, t);
    RenamesInPrefix(r.ops, q.ops);
    forall c, x | x in QuarantineOf(local, w, c)
      ensures x !in r.dirs.Get(c) && Mark(x) in r.dirs.Get(c)
    {
      assert x !in MarkAll(QuarantineOf(local, w, c));
    }
  }

  /**
   * A file present locally and wanted by the server is neither renamed nor
   * downloaded, and it is still there after the run.
   */
  lemma KeptFilesUntouched(local: Catalog, env: Env, t: Trace, c: Category, x: string)
    requires env.manifest.Some? && ValidTrace(local, env, t)
    requires x in Inventory(c, local.Get(c)) && x in env.manifest.value.Get(c)
    ensures var r := Sync(local, env, t);
      Rename(c, x) !in r.ops && Write(c, x) !in r.ops && x in r.dirs.Get(c)
  {
    var w := env.manifest.value;
    var q := Quarantine(local, env, t);
    var r := Sync(local, env, t);
    QuarantineShape(local, env, t);
    RunShape(local, env, t);
    assert x !in RenameOrder(t, c);
    assert x !in FetchOf(local, w, c);
    forall i | 0 <= i < |r.ops| ensures r.ops[i] != Rename(c, x) && r.ops[i] != Write(c, x) {
      if i < |q.ops| {
        assert r.ops[i] == r.ops[..|q.ops|][i] == q.ops[i];
      }
    }
  }

  /** A list of operations made of renames up to `n` and writes after it. */
  lemma OpsInPhases(ops: seq<Op>, n: nat)
    requires n <= |ops|
    requires forall i :: 0 <= i < n ==> ops[i].Rename?
    requires forall i :: n <= i < |ops| ==> ops[i].Write?
    ensures forall i, j :: 0 <= i < |ops| && 0 <= j < |ops| && ops[i].Rename? && ops[j].Write? ==> i < j
  {
  }

  /** All quarantine renames happen before any download is written. */
  lemma RenamesPrecedeWrites(local: Catalog, env: Env, t: Trace)
    requires ValidTrace(local, env, t)
    ensures var ops := Sync(local, env, t).ops;
      forall i, j :: 0 <= i < |ops| && 0 <= j < |ops| && ops[i].Rename? && ops[j].Write? ==> i < j
  {
    if env.manifest.Some? {
      var q := Quarantine(local, env, t);
      var ops := Sync(local, env, t).ops;
      QuarantineShape(local, env, t);
      RunShape(local, env, t);
      forall i | 0 <= i < |q.ops| ensures ops[i].Rename? {
        assert ops[i] == ops[..|q.ops|][i];
      }
      OpsInPhases(ops, |q.ops|);
    }
  }

  /**
   * When nothing is missing the run emits "up to date", 100 and `finished`,
   * and writes nothing.
   */
  lemma NothingToDownload(local: Catalog, env: Env, t: Trace)
    requires env.manifest.Some? && ValidTrace(local, env, t)
    requires !Quarantine(local, env, t).aborted && Total(local, env.manifest.value) == 0
    ensures var r := Sync(local, env, t);
      && r.events == [Status(UpToDate), Progress(100), Finished]
      && forall i :: 0 <= i < |r.ops| ==> r.ops[i].Rename?
  {
    QuarantineShape(local, env, t);
  }

  /**
   * When the local inventory already equals the server's lists, the run
   * changes nothing at all and reports 100 at once.
   */
  lemma InSyncIsNoop(local: Catalog, env: Env, t: Trace)
    requires env.manifest.Some? && ValidTrace(local, env, t)
    requires Inventory(Mods, local.mods) == env.manifest.value.mods
    requires Inventory(Resourcepacks, local.resourcepacks) == env.manifest.value.resourcepacks
    ensures Sync(local, env, t) == State(local, [], [Status(UpToDate), Progress(100), Finished], 0, false)
  {
    var w := env.manifest.value;
    assert Unwanted(Mods, local.mods, w.mods) == {};
    assert Unwanted(Resourcepacks, local.resourcepacks, w.resourcepacks) == {};
    assert t.renameMods == [];
    assert t.renamePacks == [];
    assert Total(local, w) == 0;
  }

  /** The download loops emit only announcements and percentages. */
  lemma DownloadsEvents(env: Env, q: State, t: Trace, total: nat)
    requires total > 0 && q.events == []
    ensures var d := Downloads(env, q, t, total);
      forall i :: 0 <= i < |d.events| ==> LoopEvent(d.events[i])
  {
    var d1 := Fetches(env, q, Mods, t.fetchMods, total);
    var d := Fetches(env, d1, Resourcepacks, t.fetchPacks, total);
    FetchesEffect(env, q, Mods, t.fetchMods, total);
    FetchesEffect(env, d1, Resourcepacks, t.fetchPacks, total);
    forall i | 0 <= i < |d.events| ensures LoopEvent(d.events[i]) {
      if i < |d1.events| {
        assert d.events[i] == d.events[..|d1.events|][i];
      }
    }
  }

  /**
   * A run signals `finished` exactly when no exception was raised; it then
   * ends with `finished`, and otherwise with the error status.
   */
  lemma FinishedIffNoError(local: Catalog, env: Env, t: Trace)
    requires ValidTrace(local, env, t)
    ensures var r := Sync(local, env, t);
      && |r.events| > 0
      && (Finished in r.events <==> !r.aborted)
      && (r.aborted ==> r.events[|r.events| - 1] == Status(Failed))
      && (!r.aborted ==> r.events[|r.events| - 1] == Finished)
  {
    if env.manifest.Some? {
      var w := env.manifest.value;
      var q := Quarantine(local, env, t);
      var total := Total(local, w);
      QuarantineShape(local, env, t);
      if !q.aborted && total > 0 {
        DownloadsEvents(env, q, t, total);
        var d := Downloads(env, q, t, total);
        assert Finished !in d.events;
      }
    }
  }

  /** Some rename of a file to quarantine raises. */
  ghost predicate RenameRaises(local: Catalog, env: Env, w: Catalog)
  {
    exists c, x :: x in QuarantineOf(local, w, c) && env.renameFails(c, x)
  }

  /** Some download of a missing file raises. */
  ghost predicate FetchRaises(local: Catalog, env: Env, w: Catalog)
  {
    exists c, x :: x in FetchOf(local, w, c) && env.fetch(c, x) == Raised
  }

  /** The rename loops stop early exactly when a rename they must do raises. */
  lemma QuarantineAborts(local: Catalog, env: Env, t: Trace)
    requires env.manifest.Some? && ValidTrace(local, env, t)
    ensures Quarantine(local, env, t).aborted <==> RenameRaises(local, env, env.manifest.value)
  {
    var w := env.manifest.value;
    var s1 := Renames(env, Start(local), Mods, t.renameMods);
    LoopRaises(env, Start(local), Mods, t.renameMods, Unwanted(Mods, local.mods, w.mods));
    RenamesFrame(env, s1, Resourcepacks, t.renamePacks);
    if !s1.aborted {
      LoopRaises(env, s1, Resourcepacks, t.renamePacks, Unwanted(Resourcepacks, local.resourcepacks, w.resourcepacks));
    }
    assert forall x :: x in QuarantineOf(local, w, Mods) <==> x in Unwanted(Mods, local.mods, w.mods) && !IsMarked(x);
  }

  /** One rename loop over `unwanted` stops early exactly when a rename it must do raises. */
  lemma LoopRaises(env: Env, s: State, c: Category, xs: seq<string>, unwanted: set<string>)
    requires !s.aborted && Enumerates(xs, unwanted, Renames(env, s, c, xs).aborted)
    ensures Renames(env, s, c, xs).aborted <==>
              exists x :: x in unwanted && !IsMarked(x) && env.renameFails(c, x)
  {
    RenamesAbort(env, s, c, xs);
    if Renames(env, s, c, xs).aborted {
      var i :| 0 <= i < |xs| && !IsMarked(xs[i]) && env.renameFails(c, xs[i]);
      assert xs[i] in unwanted;
    } else {
      forall x | x in unwanted && !IsMarked(x) ensures !env.renameFails(c, x) {
        var i :| 0 <= i < |xs| && xs[i] == x;
      }
    }
  }

  /** The download loops stop early exactly when a download raises. */
  lemma DownloadsAbort(local: Catalog, env: Env, t: Trace)
    requires env.manifest.Some? && ValidTrace(local, env, t)
    requires !Quarantine(local, env, t).aborted && Total(local, env.manifest.value) > 0
    ensures Downloads(env, Quarantine(local, env, t), t, Total(local, env.manifest.value)).aborted <==>
              FetchRaises(local, env, env.manifest.value)
  {
    var w := env.manifest.value;
    var total := Total(local, w);
    var q := Quarantine(local, env, t);
    var d1 := Fetches(env, q, Mods, t.fetchMods, total);
    var d := Fetches(env, d1, Resourcepacks, t.fetchPacks, total);
    FetchesAbort(env, q, Mods, t.fetchMods, total);
    FetchesEffect(env, d1, Resourcepacks, t.fetchPacks, total);
    if d1.aborted {
      var i :| 0 <= i < |t.fetchMods| && env.fetch(Mods, t.fetchMods[i]) == Raised;
      assert t.fetchMods[i] in FetchOf(local, w, Mods);
    } else {
      FetchesAbort(env, d1, Resourcepacks, t.fetchPacks, total);
      if d.aborted {
        var i :| 0 <= i < |t.fetchPacks| && env.fetch(Resourcepacks, t.fetchPacks[i]) == Raised;
        assert t.fetchPacks[i] in FetchOf(local, w, Resourcepacks);
      }
    }
  }

  /**
   * A run ends in the error state exactly when the manifest request, a
   * rename it must do, or one of its downloads raises.
   */
  lemma AbortsExactlyOnException(local: Catalog, env: Env, t: Trace)
    requires ValidTrace(local, env, t)
    ensures Sync(local, env, t).aborted <==>
              || env.manifest.None?
              || RenameRaises(local, env, env.manifest.value)
              || FetchRaises(local, env, env.manifest.value)
  {
    if env.manifest.Some? {
      var w := env.manifest.value;
      QuarantineAborts(local, env, t);
      if !Quarantine(local, env, t).aborted {
        if Total(local, w) > 0 {
          DownloadsAbort(local, env, t);
        } else {
          assert FetchOf(local, w, Mods) == {} && FetchOf(local, w, Resourcepacks) == {};
        }
      }
    }
  }

  /** The missing files of category `c` whose download succeeds. */
  function SucceededOf(local: Catalog, env: Env, w: Catalog, c: Category): set<string>
  {
    set x | x in FetchOf(local, w, c) && env.fetch(c, x) == Fetched
  }

  lemma AllSucceeded(local: Catalog, env: Env, w: Catalog, c: Category)
    requires forall x :: x in FetchOf(local, w, c) ==> env.fetch(c, x) == Fetched
    ensures SucceededOf(local, env, w, c) == FetchOf(local, w, c)
  {
  }

  /**
   * `files_processed` counts successful downloads only: at most one per
   * missing file that downloads, exactly one each when no download raised.
   */
  lemma DownloadCount(local: Catalog, env: Env, t: Trace)
    requires env.manifest.Some? && ValidTrace(local, env, t)
    requires !Quarantine(local, env, t).aborted && Total(local, env.manifest.value) > 0
    ensures var w := env.manifest.value;
      var d := Downloads(env, Quarantine(local, env, t), t, Total(local, w));
      var succeeded := |SucceededOf(local, env, w, Mods)| + |SucceededOf(local, env, w, Resourcepacks)|;
      && d.processed <= succeeded <= Total(local, w)
      && (!d.aborted ==> d.processed == succeeded)
  {
    var w := env.manifest.value;
    var total := Total(local, w);
    var q := Quarantine(local, env, t);
    var d1 := Fetches(env, q, Mods, t.fetchMods, total);
    var d := Fetches(env, d1, Resourcepacks, t.fetchPacks, total);
    QuarantineShape(local, env, t);
    FetchesCount(env, q, Mods, t.fetchMods, total);
    FetchesCount(env, d1, Resourcepacks, t.fetchPacks, total);
    FetchesEffect(env, d1, Resourcepacks, t.fetchPacks, total);
    SubsetCard(FetchedOf(env, Mods, t.fetchMods), SucceededOf(local, env, w, Mods));
    SubsetCard(FetchedOf(env, Resourcepacks, t.fetchPacks), SucceededOf(local, env, w, Resourcepacks));
    SubsetCard(SucceededOf(local, env, w, Mods), FetchOf(local, w, Mods));
    SubsetCard(SucceededOf(local, env, w, Resourcepacks), FetchOf(local, w, Resourcepacks));
    if !d.aborted {
      assert FetchedOf(env, Mods, t.fetchMods) == SucceededOf(local, env, w, Mods);
      assert FetchedOf(env, Resourcepacks, t.fetchPacks) == SucceededOf(local, env, w, Resourcepacks);
    }
  }

  /** The download loops keep `ProgressInv` and count no further than `total_files`. */
  lemma DownloadsProgress(local: Catalog, env: Env, t: Trace)
    requires env.manifest.Some? && ValidTrace(local, env, t)
    requires !Quarantine(local, env, t).aborted && Total(local, env.manifest.value) > 0
    ensures var total := Total(local, env.manifest.value);
      var d := Downloads(env, Quarantine(local, env, t), t, total);
      ProgressInv(d, total) && d.processed <= total
  {
    var total := Total(local, env.manifest.value);
    var q := Quarantine(local, env, t);
    QuarantineShape(local, env, t);
    assert Percentages(q.events) == [];
    FetchesProgress(env, q, Mods, t.fetchMods, total);
    FetchesProgress(env, Fetches(env, q, Mods, t.fetchMods, total), Resourcepacks, t.fetchPacks, total);
    DownloadCount(local, env, t);
  }

  lemma {:induction false} NoPercentages(events: seq<Event>)
    requires forall i :: 0 <= i < |events| ==> !events[i].Progress?
    ensures Percentages(events) == []
    decreases |events|
  {
    if events != [] {
      NoPercentages(events[..|events| - 1]);
    }
  }

  lemma TerminalPercentages(events: seq<Event>, tail: seq<Event>)
    requires forall i :: 0 <= i < |tail| ==> !tail[i].Progress?
    ensures Percentages(events + tail) == Percentages(events)
  {
    PercentagesAppend(events, tail);
    NoPercentages(tail);
  }

  /** The up-to-date report's only progress value is 100. */
  lemma UpToDatePercentages()
    ensures Percentages([Status(UpToDate), Progress(100), Finished]) == [100]
  {
    var e := [Status(UpToDate), Progress(100), Finished];
    var e2 := [Status(UpToDate), Progress(100)];
    assert e[..|e| - 1] == e2;
    assert e2[..|e2| - 1] == [Status(UpToDate)];
    NoPercentages([Status(UpToDate)]);
  }

  /** The progress values of a run, phase by phase. */
  lemma RunPercentages(local: Catalog, env: Env, t: Trace)
    ensures var p := Percentages(Sync(local, env, t).events);
      && (env.manifest.None? ==> p == [])
      && (env.manifest.Some? ==>
            var q := Quarantine(local, env, t);
            var total := Total(local, env.manifest.value);
            && (q.aborted ==> p == [])
            && (!q.aborted && total == 0 ==> p == [100])
            && (!q.aborted && total > 0 ==> p == Percentages(Downloads(env, q, t, total).events)))
  {
    var r := Sync(local, env, t);
    NoPercentages([Status(Failed)]);
    if env.manifest.Some? {
      var q := Quarantine(local, env, t);
      var total := Total(local, env.manifest.value);
      QuarantineShape(local, env, t);
      if !q.aborted && total == 0 {
        UpToDatePercentages();
        assert r.events == [Status(UpToDate), Progress(100), Finished];
      } else if !q.aborted {
        var d := Downloads(env, q, t, total);
        if d.aborted {
          TerminalPercentages(d.events, [Status(Failed)]);
        } else {
          TerminalPercentages(d.events, [Status(Done), Finished]);
        }
      }
    }
  }

  /**
   * The progress values a run emits never decrease and stay within 0..100.
   */
  lemma ProgressSortedAndBounded(local: Catalog, env: Env, t: Trace)
    requires ValidTrace(local, env, t)
    ensures var p := Percentages(Sync(local, env, t).events);
      Sorted(p) && forall i :: 0 <= i < |p| ==> 0 <= p[i] <= 100
  {
    RunPercentages(local, env, t);
    if env.manifest.Some? {
      var q := Quarantine(local, env, t);
      var total := Total(local, env.manifest.value);
      if !q.aborted && total > 0 {
        DownloadsProgress(local, env, t);
        PercentFull(Downloads(env, q, t, total).processed, total);
      }
    }
  }

  /** 100 is emitted only if every missing file downloaded successfully. */
  lemma FullProgressOnlyWhenAllFetched(local: Catalog, env: Env, t: Trace)
    requires env.manifest.Some? && ValidTrace(local, env, t)
    requires 100 in Percentages(Sync(local, env, t).events)
    ensures forall c, x :: x in FetchOf(local, env.manifest.value, c) ==> env.fetch(c, x) == Fetched
  {
    var w := env.manifest.value;
    var q := Quarantine(local, env, t);
    var total := Total(local, w);
    RunPercentages(local, env, t);
    if total > 0 {
      var d := Downloads(env, q, t, total);
      DownloadsProgress(local, env, t);
      DownloadCount(local, env, t);
      PercentFull(d.processed, total);
      assert d.processed == total;
      SubsetCard(SucceededOf(local, env, w, Mods), FetchOf(local, w, Mods));
      SubsetCard(SucceededOf(local, env, w, Resourcepacks), FetchOf(local, w, Resourcepacks));
    }
  }

  /**
   * When nothing raises and every missing file downloads, the run ends in
   * `finished` with 100 as its last progress value.
   */
  lemma AllFetchedReachesFull(local: Catalog, env: Env, t: Trace)
    requires env.manifest.Some? && ValidTrace(local, env, t)
    requires !RenameRaises(local, env, env.manifest.value)
    requires forall c, x :: x in FetchOf(local, env.manifest.value, c) ==> env.fetch(c, x) == Fetched
    ensures var r := Sync(local, env, t);
      var p := Percentages(r.events);
      && !r.aborted && |r.events| > 0 && r.events[|r.events| - 1] == Finished
      && |p| > 0 && p[|p| - 1] == 100
  {
    var w := env.manifest.value;
    var q := Quarantine(local, env, t);
    var total := Total(local, w);
    QuarantineAborts(local, env, t);
    AbortsExactlyOnException(local, env, t);
    FinishedIffNoError(local, env, t);
    RunPercentages(local, env, t);
    if total > 0 {
      var d := Downloads(env, q, t, total);
      DownloadsAbort(local, env, t);
      DownloadsProgress(local, env, t);
      DownloadCount(local, env, t);
      AllSucceeded(local, env, w, Mods);
      AllSucceeded(local, env, w, Resourcepacks);
      PercentFull(d.processed, total);
    }
  }

  /**
   * Once the rename loops have run to their end, the resulting directories
   * hold nothing further to quarantine, whatever the downloads did.
   */
  lemma QuarantineIdempotent(local: Catalog, env: Env, t: Trace)
    requires env.manifest.Some? && ValidTrace(local, env, t)
    requires !Quarantine(local, env, t).aborted
    ensures var r := Sync(local, env, t);
      forall c :: QuarantineOf(r.dirs, env.manifest.value, c) == {}
  {
    QuarantineExact(local, env, t);
    RunShape(local, env, t);
  }

  /** A rename loop that visits only marked names changes nothing. */
  lemma {:induction false} AllMarkedRenamesNothing(env: Env, s: State, c: Category, xs: seq<string>)
    requires forall i :: 0 <= i < |xs| ==> IsMarked(xs[i])
    ensures Renames(env, s, c, xs) == s
    decreases |xs|
  {
    if xs != [] {
      AllMarkedRenamesNothing(env, s, c, xs[..|xs| - 1]);
    }
  }

  /**
   * A second run against the same manifest, after a first run whose rename
   * loops completed, renames nothing.
   */
  lemma SecondRunRenamesNothing(local: Catalog, env: Env, t: Trace, env2: Env, t2: Trace)
    requires env.manifest.Some? && ValidTrace(local, env, t)
    requires !Quarantine(local, env, t).aborted
    requires env2.manifest == env.manifest
    requires ValidTrace(Sync(local, env, t).dirs, env2, t2)
    ensures var ops := Sync(Sync(local, env, t).dirs, env2, t2).ops;
      forall i :: 0 <= i < |ops| ==> ops[i].Write?
  {
    QuarantineIdempotent(local, env, t);
    NothingToQuarantineRenamesNothing(Sync(local, env, t).dirs, env2, t2);
  }

  /** A run from directories with nothing to quarantine renames nothing. */
  lemma NothingToQuarantineRenamesNothing(local: Catalog, env: Env, t: Trace)
    requires env.manifest.Some? && ValidTrace(local, env, t)
    requires forall c :: QuarantineOf(local, env.manifest.value, c) == {}
    ensures var ops := Sync(local, env, t).ops;
      forall i :: 0 <= i < |ops| ==> ops[i].Write?
  {
    var w := env.manifest.value;
    assert QuarantineOf(local, w, Mods) == {} && QuarantineOf(local, w, Resourcepacks) == {};
    var s0 := Start(local);
    AllMarkedRenamesNothing(env, s0, Mods, t.renameMods);
    AllMarkedRenamesNothing(env, s0, Resourcepacks, t.renamePacks);
    assert Quarantine(local, env, t).ops == [];
    RunShape(local, env, t);
  }

  /** A run with no exception and no failed download wrote every missing file. */
  lemma DownloadedAll(local: Catalog, env: Env, t: Trace)
    requires env.manifest.Some? && ValidTrace(local, env, t)
    requires !Sync(local, env, t).aborted
    requires forall c, x :: x in FetchOf(local, env.manifest.value, c) ==> env.fetch(c, x) == Fetched
    ensures forall c :: FetchOf(local, env.manifest.value, c) <= Sync(local, env, t).dirs.Get(c)
  {
    var w := env.manifest.value;
    var total := Total(local, w);
    if total > 0 {
      var q := Quarantine(local, env, t);
      var d1 := Fetches(env, q, Mods, t.fetchMods, total);
      FetchesEffect(env, d1, Resourcepacks, t.fetchPacks, total);
      FetchesComplete(env, q, Mods, t.fetchMods, total);
      FetchesComplete(env, d1, Resourcepacks, t.fetchPacks, total);
      FetchedAll(env, Mods, t.fetchMods, FetchOf(local, w, Mods));
      FetchedAll(env, Resourcepacks, t.fetchPacks, FetchOf(local, w, Resourcepacks));
    }
  }

  /** A run with no exception and no failed download performed a write of every missing file. */
  lemma WroteAll(local: Catalog, env: Env, t: Trace)
    requires env.manifest.Some? && ValidTrace(local, env, t)
    requires !Sync(local, env, t).aborted
    requires forall c, x :: x in FetchOf(local, env.manifest.value, c) ==> env.fetch(c, x) == Fetched
    ensures forall c, x :: x in FetchOf(local, env.manifest.value, c) ==> Write(c, x) in Sync(local, env, t).ops
  {
    var w := env.manifest.value;
    var total := Total(local, w);
    if total > 0 {
      var q := Quarantine(local, env, t);
      var d1 := Fetches(env, q, Mods, t.fetchMods, total);
      var d := Fetches(env, d1, Resourcepacks, t.fetchPacks, total);
      SyncFiles(local, env, t);
      FetchesEffect(env, d1, Resourcepacks, t.fetchPacks, total);
      FetchesComplete(env, q, Mods, t.fetchMods, total);
      FetchesComplete(env, d1, Resourcepacks, t.fetchPacks, total);
      FetchedAll(env, Mods, t.fetchMods, FetchOf(local, w, Mods));
      FetchedAll(env, Resourcepacks, t.fetchPacks, FetchOf(local, w, Resourcepacks));
      PrefixKeeps(d1.ops, d.ops);
    } else {
      assert FetchOf(local, w, Mods) == {} && FetchOf(local, w, Resourcepacks) == {};
    }
  }

  /** Every operation of a prefix is an operation of the whole. */
  lemma PrefixKeeps(a: seq<Op>, b: seq<Op>)
    requires |a| <= |b| && b[..|a|] == a
    ensures forall o :: o in a ==> o in b
  {
    forall o | o in a ensures o in b {
      var i :| 0 <= i < |a| && a[i] == o;
      assert b[..|a|][i] == b[i];
    }
  }

  /**
   * A missing file whose download does not succeed is never written, and
   * the run never reports 100.
   */
  lemma UnfetchedNeverWritten(local: Catalog, env: Env, t: Trace, c: Category, x: string)
    requires env.manifest.Some? && ValidTrace(local, env, t)
    requires x in FetchOf(local, env.manifest.value, c) && env.fetch(c, x) != Fetched
    ensures var r := Sync(local, env, t);
      Write(c, x) !in r.ops && 100 !in Percentages(r.events)
  {
    var q := Quarantine(local, env, t);
    var r := Sync(local, env, t);
    QuarantineShape(local, env, t);
    RunShape(local, env, t);
    forall i | 0 <= i < |r.ops| ensures r.ops[i] != Write(c, x) {
      if i < |q.ops| {
        assert r.ops[i] == r.ops[..|q.ops|][i];
      }
    }
    if 100 in Percentages(r.events) {
      FullProgressOnlyWhenAllFetched(local, env, t);
      assert false;
    }
  }

  /** A loop that visited all of `s`, every download succeeding, wrote all of `s`. */
  lemma FetchedAll(env: Env, c: Category, xs: seq<string>, s: set<string>)
    requires Enumerates(xs, s, false)
    requires forall x :: x in s ==> env.fetch(c, x) == Fetched
    ensures FetchedOf(env, c, xs) == s
  {
  }

  /**
   * After a run in which nothing raised and every download succeeded,
   * against a manifest whose mods all end in `.jar`, a fresh classification
   * of the local directories finds nothing to download and nothing to
   * quarantine.
   */
  lemma Converges(local: Catalog, env: Env, t: Trace)
    requires env.manifest.Some? && ValidTrace(local, env, t)
    requires forall x :: x in env.manifest.value.mods ==> IsJar(x)
    requires !Sync(local, env, t).aborted
    requires forall c, x :: x in FetchOf(local, env.manifest.value, c) ==> env.fetch(c, x) == Fetched
    ensures var r := Sync(local, env, t);
      forall c :: FetchOf(r.dirs, env.manifest.value, c) == {} && QuarantineOf(r.dirs, env.manifest.value, c) == {}
  {
    var w := env.manifest.value;
    var r := Sync(local, env, t);
    AbortsExactlyOnException(local, env, t);
    QuarantineAborts(local, env, t);
    QuarantineIdempotent(local, env, t);
    QuarantineExact(local, env, t);
    RunShape(local, env, t);
    DownloadedAll(local, env, t);
    forall c ensures w.Get(c) <= r.dirs.Get(c) {
      assert w.Get(c) <= Inventory(c, local.Get(c)) + FetchOf(local, w, c);
    }
  }

  /** A complete visiting order of a one-element set is that element alone. */
  lemma SingletonOrder(xs: seq<string>, x: string)
    requires Enumerates(xs, {x}, false)
    ensures xs == [x]
  {
    DistinctCard(xs, {x});
    assert x in xs;
  }

  /** A visiting order without repeats is no longer than the set it visits. */
  lemma {:induction false} DistinctCard(xs: seq<string>, s: set<string>)
    requires Distinct(xs)
    requires forall i :: 0 <= i < |xs| ==> xs[i] in s
    ensures |xs| <= |s|
    decreases |xs|
  {
    if xs != [] {
      var last := xs[|xs| - 1];
      DistinctCard(xs[..|xs| - 1], s - {last});
    }
  }

  /** The example's directories, classified against its manifest. */
  lemma ExampleClassify(local: Catalog, w: Catalog)
    requires local == Catalog({"B.jar", "C.jar"}, {})
    requires w == Catalog({"A.jar", "B.jar"}, {})
    ensures Unwanted(Mods, local.mods, w.mods) == {"C.jar"}
    ensures QuarantineOf(local, w, Mods) == {"C.jar"}
    ensures ToFetch(Mods, local.mods, w.mods) == {"A.jar"}
    ensures Unwanted(Resourcepacks, local.resourcepacks, w.resourcepacks) == {}
    ensures ToFetch(Resourcepacks, local.resourcepacks, w.resourcepacks) == {}
    ensures Total(local, w) == 1
  {
    assert IsJar("B.jar") && IsJar("C.jar") && !IsMarked("C.jar");
    assert Inventory(Mods, local.mods) == {"B.jar", "C.jar"};
  }

  /**
   * In the example, the only orders the loops can take: C.jar is renamed
   * and A.jar downloaded.
   */
  lemma ExampleTrace(env: Env, t: Trace)
    requires env.manifest == Some(Catalog({"A.jar", "B.jar"}, {}))
    requires forall c, x :: !env.renameFails(c, x) && env.fetch(c, x) == Fetched
    requires ValidTrace(Catalog({"B.jar", "C.jar"}, {}), env, t)
    ensures t == Trace(["C.jar"], [], ["A.jar"], [])
  {
    var local := Catalog({"B.jar", "C.jar"}, {});
    var w := env.manifest.value;
    ExampleClassify(local, w);
    var s0 := Start(local);
    var s1 := Renames(env, s0, Mods, t.renameMods);
    RenamesAbort(env, s0, Mods, t.renameMods);
    SingletonOrder(t.renameMods, "C.jar");
    assert t.renamePacks == [];
    var q := Renames(env, s1, Resourcepacks, []);
    assert q == s1;
    FetchesAbort(env, q, Mods, t.fetchMods, 1);
    SingletonOrder(t.fetchMods, "A.jar");
    assert t.fetchPacks == [];
  }

  /** The example's rename loops: C.jar becomes C.jar_. */
  lemma ExampleQuarantine(env: Env)
    requires forall c, x :: !env.renameFails(c, x)
    ensures Quarantine(Catalog({"B.jar", "C.jar"}, {}), env, Trace(["C.jar"], [], ["A.jar"], []))
         == State(Catalog({"B.jar", "C.jar_"}, {}), [Rename(Mods, "C.jar")], [], 0, false)
  {
    var s0 := Start(Catalog({"B.jar", "C.jar"}, {}));
    assert ["C.jar"][..0] == [];
    assert !IsMarked("C.jar") && Mark("C.jar") == "C.jar_";
    assert Renames(env, s0, Mods, ["C.jar"]) == RenameStep(env, s0, Mods, "C.jar");
  }

  /** The example's download loops: A.jar is written, which is 100% of one file. */
  lemma ExampleDownloads(env: Env, s: State)
    requires forall c, x :: env.fetch(c, x) == Fetched
    requires s == State(Catalog({"B.jar", "C.jar_"}, {}), [Rename(Mods, "C.jar")], [], 0, false)
    ensures Downloads(env, s, Trace(["C.jar"], [], ["A.jar"], []), 1)
         == State(Catalog({"A.jar", "B.jar", "C.jar_"}, {}), [Rename(Mods, "C.jar"), Write(Mods, "A.jar")],
                  [Status(Downloading(Mods, "A.jar")), Progress(100)], 1, false)
  {
    assert ["A.jar"][..0] == [];
    assert Percent(1, 1) == 100;
    assert Fetches(env, s, Mods, ["A.jar"], 1) == FetchStep(env, s, Mods, "A.jar", 1);
    assert {"B.jar", "C.jar_"} + {"A.jar"} == {"A.jar", "B.jar", "C.jar_"};
  }

  /**
   * The example run: the server wants mods A.jar and B.jar, the client has
   * B.jar and C.jar; A.jar is downloaded and C.jar becomes C.jar_.
   */
  lemma ExampleRun(env: Env, t: Trace)
    requires env.manifest == Some(Catalog({"A.jar", "B.jar"}, {}))
    requires forall c, x :: !env.renameFails(c, x) && env.fetch(c, x) == Fetched
    requires ValidTrace(Catalog({"B.jar", "C.jar"}, {}), env, t)
    ensures var r := Sync(Catalog({"B.jar", "C.jar"}, {}), env, t);
      && r.dirs == Catalog({"A.jar", "B.jar", "C.jar_"}, {})
      && r.ops == [Rename(Mods, "C.jar"), Write(Mods, "A.jar")]
      && r.events == [Status(Downloading(Mods, "A.jar")), Progress(100), Status(Done), Finished]
  {
    var local := Catalog({"B.jar", "C.jar"}, {});
    ExampleTrace(env, t);
    ExampleClassify(local, env.manifest.value);
    ExampleQuarantine(env);
    ExampleDownloads(env, Quarantine(local, env, t));
  }
}
