/**
 * What a rename loop and a download loop do, whatever order they visit
 * their sets in: which names they touch, what they leave alone, when they
 * stop, and how they count and report progress.
 */
module SyncFolds {
  import opened Names
  import opened SyncSpec

  /** The names of `xs` that a rename loop does rename. */
  function Unmarked(xs: seq<string>): set<string>
  {
    set x | x in xs && !IsMarked(x)
  }

  /** The names of `xs` whose download succeeds. */
  function FetchedOf(env: Env, c: Category, xs: seq<string>): set<string>
  {
    set x | x in xs && env.fetch(c, x) == Fetched
  }

  /** An event a download loop emits: an announcement or a percentage. */
  predicate LoopEvent(e: Event)
  {
    e.Progress? || (e.Status? && e.msg.Downloading?)
  }

  /** A rename loop emits nothing, counts nothing and keeps to its directory. */
  lemma {:induction false} RenamesFrame(env: Env, s: State, c: Category, xs: seq<string>)
    ensures var r := Renames(env, s, c, xs);
      && r.events == s.events && r.processed == s.processed
      && r.dirs.Get(Other(c)) == s.dirs.Get(Other(c))
      && (s.aborted ==> r == s)
    decreases |xs|
  {
    if xs != [] {
      RenamesFrame(env, s, c, xs[..|xs| - 1]);
    }
  }

  /**
   * A rename loop appends only renames of unmarked names it visited, keeps
   * every file it did not visit, and adds only marked names.
   */
  lemma {:induction false} RenamesOps(env: Env, s: State, c: Category, xs: seq<string>)
    ensures var r := Renames(env, s, c, xs);
      && |s.ops| <= |r.ops| && r.ops[..|s.ops|] == s.ops
      && (forall i :: |s.ops| <= i < |r.ops| ==>
            r.ops[i].Rename? && r.ops[i].cat == c && r.ops[i].name in xs && !IsMarked(r.ops[i].name))
      && (forall y :: y in s.dirs.Get(c) && y !in xs ==> y in r.dirs.Get(c))
      && (forall y :: y in r.dirs.Get(c) ==> y in s.dirs.Get(c) || IsMarked(y))
    decreases |xs|
  {
    if xs != [] {
      var init, x := xs[..|xs| - 1], xs[|xs| - 1];
      RenamesOps(env, s, c, init);
      var p := Renames(env, s, c, init);
      var r := RenameStep(env, p, c, x);
      assert forall y :: y in init ==> y in xs;
      if !p.aborted && !IsMarked(x) && !env.renameFails(c, x) {
        assert r.ops == p.ops + [Rename(c, x)];
        assert r.ops[..|s.ops|] == p.ops[..|s.ops|];
      }
    }
  }

  /** A rename loop stops exactly at the first unmarked name whose rename raises. */
  lemma {:induction false} RenamesAbort(env: Env, s: State, c: Category, xs: seq<string>)
    requires !s.aborted
    ensures Renames(env, s, c, xs).aborted <==>
              exists i :: 0 <= i < |xs| && !IsMarked(xs[i]) && env.renameFails(c, xs[i])
    decreases |xs|
  {
    if xs != [] {
      var init := xs[..|xs| - 1];
      RenamesAbort(env, s, c, init);
      assert forall i :: 0 <= i < |init| ==> init[i] == xs[i];
    }
  }

  lemma MarkAllAdd(u: set<string>, x: string)
    ensures MarkAll(u + {x}) == MarkAll(u) + {Mark(x)}
  {
    forall y | y in MarkAll(u + {x}) ensures y in MarkAll(u) + {Mark(x)} {
      var z :| z in u + {x} && y == Mark(z);
    }
  }

  /** Renaming one more unmarked name keeps the shape `(d - u) + MarkAll(u)`. */
  lemma RenameOneMore(d: set<string>, u: set<string>, x: string)
    requires !IsMarked(x)
    ensures (d - u) + MarkAll(u) - {x} + {Mark(x)} == (d - (u + {x})) + MarkAll(u + {x})
  {
    MarkAllAdd(u, x);
    assert x !in MarkAll(u);
  }

  lemma UnmarkedSnoc(init: seq<string>, x: string)
    ensures Unmarked(init + [x]) == Unmarked(init) + (if IsMarked(x) then {} else {x})
  {
    assert forall y :: y in init + [x] <==> y in init || y == x;
  }

  /** The last step of a rename loop that has not stopped. */
  lemma RenamesLast(env: Env, s: State, c: Category, xs: seq<string>)
    requires xs != [] && !Renames(env, s, c, xs).aborted
    ensures var init, x := xs[..|xs| - 1], xs[|xs| - 1];
      var p := Renames(env, s, c, init);
      var r := Renames(env, s, c, xs);
      && !p.aborted
      && Unmarked(xs) == Unmarked(init) + (if IsMarked(x) then {} else {x})
      && (IsMarked(x) ==> r == p)
      && (!IsMarked(x) ==> r.dirs.Get(c) == p.dirs.Get(c) - {x} + {Mark(x)} && r.ops == p.ops + [Rename(c, x)])
  {
    var init, x := xs[..|xs| - 1], xs[|xs| - 1];
    assert Renames(env, s, c, xs) == RenameStep(env, Renames(env, s, c, init), c, x);
    UnmarkedLast(xs);
  }

  lemma UnmarkedLast(xs: seq<string>)
    requires xs != []
    ensures var x := xs[|xs| - 1];
      Unmarked(xs) == Unmarked(xs[..|xs| - 1]) + (if IsMarked(x) then {} else {x})
  {
    assert xs == xs[..|xs| - 1] + [xs[|xs| - 1]];
    UnmarkedSnoc(xs[..|xs| - 1], xs[|xs| - 1]);
  }

  /**
   * A rename loop that ran to its end renamed every unmarked name it
   * visited, `name` to `name_`, and no other.
   */
  lemma {:induction false} RenamesComplete(env: Env, s: State, c: Category, xs: seq<string>)
    requires !Renames(env, s, c, xs).aborted
    ensures var r := Renames(env, s, c, xs);
      r.dirs.Get(c) == (s.dirs.Get(c) - Unmarked(xs)) + MarkAll(Unmarked(xs))
    decreases |xs|
  {
    if xs == [] {
      assert Unmarked(xs) == {};
    } else {
      var init, x := xs[..|xs| - 1], xs[|xs| - 1];
      RenamesLast(env, s, c, xs);
      RenamesComplete(env, s, c, init);
      if !IsMarked(x) {
        RenameOneMore(s.dirs.Get(c), Unmarked(init), x);
      }
    }
  }

  /** ... and appended a rename for each of those names and for no other. */
  lemma {:induction false} RenamesCompleteOps(env: Env, s: State, c: Category, xs: seq<string>)
    requires !Renames(env, s, c, xs).aborted
    ensures forall x :: Rename(c, x) in Renames(env, s, c, xs).ops <==>
                        Rename(c, x) in s.ops || x in Unmarked(xs)
    decreases |xs|
  {
    if xs == [] {
      assert Unmarked(xs) == {};
    } else {
      RenamesLast(env, s, c, xs);
      RenamesCompleteOps(env, s, c, xs[..|xs| - 1]);
    }
  }

  /**
   * A download loop only adds names it visited, appends only writes of
   * names whose download succeeded, and emits only announcements and
   * percentages.
   */
  lemma {:induction false} FetchesEffect(env: Env, s: State, c: Category, xs: seq<string>, total: nat)
    requires total > 0
    ensures var r := Fetches(env, s, c, xs, total);
      && r.dirs.Get(Other(c)) == s.dirs.Get(Other(c))
      && s.dirs.Get(c) <= r.dirs.Get(c)
      && (forall y :: y in r.dirs.Get(c) ==> y in s.dirs.Get(c) || y in xs)
      && |s.ops| <= |r.ops| && r.ops[..|s.ops|] == s.ops
      && (forall i :: |s.ops| <= i < |r.ops| ==>
            r.ops[i].Write? && r.ops[i].cat == c && r.ops[i].name in xs && env.fetch(c, r.ops[i].name) == Fetched)
      && |s.events| <= |r.events| && r.events[..|s.events|] == s.events
      && (forall i :: |s.events| <= i < |r.events| ==> LoopEvent(r.events[i]))
      && s.processed <= r.processed
      && (s.aborted ==> r == s)
    decreases |xs|
  {
    if xs != [] {
      var init, x := xs[..|xs| - 1], xs[|xs| - 1];
      FetchesEffect(env, s, c, init, total);
      var p := Fetches(env, s, c, init, total);
      var r := FetchStep(env, p, c, x, total);
      assert Fetches(env, s, c, xs, total) == r;
      assert forall y :: y in init ==> y in xs;
      assert r.ops[..|s.ops|] == p.ops[..|s.ops|];
      assert r.events[..|s.events|] == p.events[..|s.events|];
    }
  }

  /** A download loop stops exactly at the first download that raises. */
  lemma {:induction false} FetchesAbort(env: Env, s: State, c: Category, xs: seq<string>, total: nat)
    requires total > 0 && !s.aborted
    ensures Fetches(env, s, c, xs, total).aborted <==>
              exists i :: 0 <= i < |xs| && env.fetch(c, xs[i]) == Raised
    decreases |xs|
  {
    if xs != [] {
      var init := xs[..|xs| - 1];
      FetchesAbort(env, s, c, init, total);
      assert forall i :: 0 <= i < |init| ==> init[i] == xs[i];
    }
  }

  lemma FetchedOfAdd(env: Env, c: Category, init: seq<string>, x: string)
    ensures FetchedOf(env, c, init + [x]) ==
              FetchedOf(env, c, init) + (if env.fetch(c, x) == Fetched then {x} else {})
  {
    assert forall y :: y in init + [x] <==> y in init || y == x;
  }

  /**
   * `files_processed` grows by at most the number of distinct successes,
   * and by exactly that many when the loop ran to its end.
   */
  lemma {:induction false} FetchesCount(env: Env, s: State, c: Category, xs: seq<string>, total: nat)
    requires total > 0 && Distinct(xs)
    ensures var r := Fetches(env, s, c, xs, total);
      && r.processed <= s.processed + |FetchedOf(env, c, xs)|
      && (!r.aborted ==> r.processed == s.processed + |FetchedOf(env, c, xs)|)
    decreases |xs|
  {
    if xs == [] {
      assert FetchedOf(env, c, xs) == {};
    } else {
      var init, x := xs[..|xs| - 1], xs[|xs| - 1];
      var p := Fetches(env, s, c, init, total);
      assert Fetches(env, s, c, xs, total) == FetchStep(env, p, c, x, total);
      assert Distinct(init);
      FetchesCount(env, s, c, init, total);
      FetchedOfLast(env, c, xs);
      assert x !in init;
      assert x !in FetchedOf(env, c, init);
    }
  }

  /** A download loop that ran to its end wrote every success and nothing else. */
  lemma {:induction false} FetchesComplete(env: Env, s: State, c: Category, xs: seq<string>, total: nat)
    requires total > 0 && !Fetches(env, s, c, xs, total).aborted
    ensures var r := Fetches(env, s, c, xs, total);
      && r.dirs.Get(c) == s.dirs.Get(c) + FetchedOf(env, c, xs)
      && (forall x :: Write(c, x) in r.ops <==> Write(c, x) in s.ops || x in FetchedOf(env, c, xs))
    decreases |xs|
  {
    if xs == [] {
      assert FetchedOf(env, c, xs) == {};
    } else {
      var init, x := xs[..|xs| - 1], xs[|xs| - 1];
      var p := Fetches(env, s, c, init, total);
      assert Fetches(env, s, c, xs, total) == FetchStep(env, p, c, x, total);
      FetchesComplete(env, s, c, init, total);
      FetchStepDone(env, p, c, x, total);
      FetchedOfLast(env, c, xs);
    }
  }

  lemma FetchedOfLast(env: Env, c: Category, xs: seq<string>)
    requires xs != []
    ensures var x := xs[|xs| - 1];
      FetchedOf(env, c, xs) == FetchedOf(env, c, xs[..|xs| - 1]) + (if env.fetch(c, x) == Fetched then {x} else {})
  {
    assert xs == xs[..|xs| - 1] + [xs[|xs| - 1]];
    FetchedOfAdd(env, c, xs[..|xs| - 1], xs[|xs| - 1]);
  }

  /** One iteration of a download loop that did not raise. */
  lemma FetchStepDone(env: Env, p: State, c: Category, x: string, total: nat)
    requires total > 0 && !FetchStep(env, p, c, x, total).aborted
    ensures var r := FetchStep(env, p, c, x, total);
      && !p.aborted
      && r.dirs.Get(c) == p.dirs.Get(c) + (if env.fetch(c, x) == Fetched then {x} else {})
      && (forall y :: Write(c, y) in r.ops <==> Write(c, y) in p.ops || (y == x && env.fetch(c, x) == Fetched))
  {
  }

  lemma {:induction false} PercentagesAppend(a: seq<Event>, b: seq<Event>)
    ensures Percentages(a + b) == Percentages(a) + Percentages(b)
    decreases |b|
  {
    if b == [] {
      assert a + b == a;
    } else {
      var init := b[..|b| - 1];
      PercentagesAppend(a, init);
      assert (a + b)[..|a + b| - 1] == a + init;
    }
  }

  lemma MulCancel(a: int, b: int, d: nat)
    requires d > 0 && a * d < b * d
    ensures a < b
  {
  }

  lemma DivMonotone(x: nat, y: nat, d: nat)
    requires d > 0 && x <= y
    ensures x / d <= y / d
  {
    var qx, qy := x / d, y / d;
    assert qx * d <= x;
    assert y < (qy + 1) * d;
    MulCancel(qx, qy + 1, d);
  }

  /** A larger count never gives a smaller percentage. */
  lemma PercentMonotone(a: nat, b: nat, total: nat)
    requires total > 0 && a <= b
    ensures Percent(a, total) <= Percent(b, total)
  {
    DivMonotone(a * 100, b * 100, total);
  }

  /** The percentage of `k` out of `total` reaches 100 exactly at `k == total`. */
  lemma PercentFull(k: nat, total: nat)
    requires 0 < total && k <= total
    ensures Percent(k, total) <= 100
    ensures Percent(k, total) == 100 <==> k == total
  {
  }

  /**
   * The percentages emitted so far never decrease, and none exceeds the
   * percentage of the current count.
   */
  ghost predicate ProgressInv(s: State, total: nat)
    requires total > 0
  {
    var p := Percentages(s.events);
    && Sorted(p)
    && (forall i :: 0 <= i < |p| ==> 0 <= p[i] <= Percent(s.processed, total))
    && (s.processed > 0 ==> |p| > 0 && p[|p| - 1] == Percent(s.processed, total))
  }

  /** One download step keeps `ProgressInv`. */
  lemma FetchStepProgress(env: Env, p: State, c: Category, x: string, total: nat)
    requires total > 0 && ProgressInv(p, total)
    ensures ProgressInv(FetchStep(env, p, c, x, total), total)
  {
    var r := FetchStep(env, p, c, x, total);
    if !p.aborted {
      var announced := p.events + [Status(Downloading(c, x))];
      PercentagesAppend(p.events, [Status(Downloading(c, x))]);
      assert Percentages([Status(Downloading(c, x))]) == [];
      if env.fetch(c, x) == Fetched {
        var v := Percent(p.processed + 1, total);
        PercentagesAppend(announced, [Progress(v)]);
        assert Percentages([Progress(v)]) == [v];
        CountedProgress(p, r, total);
      } else {
        UncountedProgress(p, r, total);
      }
    }
  }

  /** A step that counts one more file and emits its percentage keeps `ProgressInv`. */
  lemma CountedProgress(s: State, r: State, total: nat)
    requires total > 0 && ProgressInv(s, total)
    requires r.processed == s.processed + 1
    requires Percentages(r.events) == Percentages(s.events) + [Percent(s.processed + 1, total)]
    ensures ProgressInv(r, total)
  {
    PercentMonotone(s.processed, s.processed + 1, total);
  }

  /** A step that counts nothing and emits no percentage keeps `ProgressInv`. */
  lemma UncountedProgress(s: State, r: State, total: nat)
    requires total > 0 && ProgressInv(s, total)
    requires r.processed == s.processed && Percentages(r.events) == Percentages(s.events)
    ensures ProgressInv(r, total)
  {
  }

  lemma {:induction false} FetchesProgress(env: Env, s: State, c: Category, xs: seq<string>, total: nat)
    requires total > 0 && ProgressInv(s, total)
    ensures ProgressInv(Fetches(env, s, c, xs, total), total)
    decreases |xs|
  {
    if xs != [] {
      var init, x := xs[..|xs| - 1], xs[|xs| - 1];
      FetchesProgress(env, s, c, init, total);
      FetchStepProgress(env, Fetches(env, s, c, init, total), c, x, total);
    }
  }
}
