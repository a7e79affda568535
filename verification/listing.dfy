/**
 * `cmd_list`: every run stored under `.runs`, most recent first.
 */
module Listing {
  import opened Wrappers
  import opened Fs
  import opened Runs

  /** A listed run: its identifier and its configuration. */
  type Listed = (string, RunConfig)

  /** The identifiers of the runs stored under `root`: the subdirectories of `.runs`. */
  function RunIds(disk: Tree, root: Path): set<string> {
    SubdirNames(disk, RunsDir(root))
  }

  function Ids(runs: seq<Listed>): set<string> {
    set k | 0 <= k < |runs| :: runs[k].0
  }

  /** Start times never increase along `runs`. */
  predicate MostRecentFirst(runs: seq<Listed>) {
    forall a, b :: 0 <= a < b < |runs| ==> runs[a].1.startTime >= runs[b].1.startTime
  }

  /** The runs of `runs` that started at `t`, in their order in `runs`. */
  function StartedAt(runs: seq<Listed>, t: u64): seq<Listed> {
    if runs == [] then []
    else (if runs[0].1.startTime == t then [runs[0]] else []) + StartedAt(runs[1..], t)
  }

  lemma StartedAtCons(x: Listed, runs: seq<Listed>, t: u64)
    ensures StartedAt([x] + runs, t) == (if x.1.startTime == t then [x] else []) + StartedAt(runs, t)
  {
    assert ([x] + runs)[1..] == runs;
  }

  /**
   * Inserts `e` into `runs` ahead of the first run that started no later than `e`,
   * so that `e` stays ahead of the runs it preceded that started at the same time.
   */
  function Insert(e: Listed, runs: seq<Listed>): (r: seq<Listed>)
    ensures multiset(r) == multiset(runs) + multiset{e}
  {
    if runs == [] || runs[0].1.startTime <= e.1.startTime then [e] + runs
    else
      assert runs == [runs[0]] + runs[1..];
      [runs[0]] + Insert(e, runs[1..])
  }

  /**
   * `runs.sort_by(|a, b| b.1.start_time.cmp(&a.1.start_time))`: a stable sort by
   * start time, latest first.
   */
  function SortMostRecentFirst(runs: seq<Listed>): (r: seq<Listed>)
    ensures multiset(r) == multiset(runs)
  {
    if runs == [] then []
    else
      assert runs == [runs[0]] + runs[1..];
      Insert(runs[0], SortMostRecentFirst(runs[1..]))
  }

  /** Inserting into runs listed most recent first keeps them so. */
  lemma {:induction false} InsertSorted(e: Listed, runs: seq<Listed>)
    requires MostRecentFirst(runs)
    ensures MostRecentFirst(Insert(e, runs))
  {
    if !(runs == [] || runs[0].1.startTime <= e.1.startTime) {
      var head := runs[0];
      var rest := Insert(e, runs[1..]);
      InsertSorted(e, runs[1..]);
      forall b | 0 <= b < |rest|
        ensures rest[b].1.startTime <= head.1.startTime
      {
        assert rest[b] in multiset(runs[1..]) + multiset{e};
        if rest[b] != e {
          var j :| 0 <= j < |runs[1..]| && runs[1..][j] == rest[b];
          assert runs[1 + j] == rest[b];
        }
      }
      var r := [head] + rest;
      forall a, b | 0 <= a < b < |r|
        ensures r[a].1.startTime >= r[b].1.startTime
      {
        assert r[b] == rest[b - 1];
        if a > 0 {
          assert r[a] == rest[a - 1];
        }
      }
    }
  }

  /** The sort lists runs most recent first. */
  lemma {:induction false} SortSorted(runs: seq<Listed>)
    ensures MostRecentFirst(SortMostRecentFirst(runs))
  {
    if runs != [] {
      SortSorted(runs[1..]);
      InsertSorted(runs[0], SortMostRecentFirst(runs[1..]));
    }
  }

  /** Inserting keeps `e` ahead of every run of its start time that it preceded. */
  lemma {:induction false} InsertStable(e: Listed, runs: seq<Listed>, t: u64)
    ensures StartedAt(Insert(e, runs), t) == StartedAt([e] + runs, t)
  {
    if !(runs == [] || runs[0].1.startTime <= e.1.startTime) {
      var head := runs[0];
      var tail := runs[1..];
      var H := if head.1.startTime == t then [head] else [];
      var E := if e.1.startTime == t then [e] else [];
      assert H == [] || E == [];
      calc {
        StartedAt(Insert(e, runs), t);
        { StartedAtCons(head, Insert(e, tail), t); }
        H + StartedAt(Insert(e, tail), t);
        { InsertStable(e, tail, t); StartedAtCons(e, tail, t); }
        H + (E + StartedAt(tail, t));
        E + (H + StartedAt(tail, t));
        { StartedAtCons(head, tail, t); assert runs == [head] + tail; }
        E + StartedAt(runs, t);
        { StartedAtCons(e, runs, t); }
        StartedAt([e] + runs, t);
      }
    }
  }

  /** The sort is stable: runs with the same start time keep their relative order. */
  lemma {:induction false} SortStable(runs: seq<Listed>, t: u64)
    ensures StartedAt(SortMostRecentFirst(runs), t) == StartedAt(runs, t)
  {
    if runs != [] {
      SortStable(runs[1..], t);
      InsertStable(runs[0], SortMostRecentFirst(runs[1..]), t);
      StartedAtCons(runs[0], SortMostRecentFirst(runs[1..]), t);
      StartedAtCons(runs[0], runs[1..], t);
      assert runs == [runs[0]] + runs[1..];
    }
  }

  /** The runs `StartedAt` picks are runs of `runs` with that start time. */
  lemma {:induction false} StartedAtMembers(runs: seq<Listed>, t: u64)
    ensures forall x :: x in StartedAt(runs, t) ==> x in runs && x.1.startTime == t
  {
    if runs != [] {
      StartedAtMembers(runs[1..], t);
      assert runs == [runs[0]] + runs[1..];
    }
  }

  /** A non-empty listing has runs at the start time of its first run. */
  lemma StartedAtOfFirst(runs: seq<Listed>)
    ensures runs != [] ==> StartedAt(runs, runs[0].1.startTime) != []
  {
  }

  /** In runs listed most recent first, the first run started no earlier than any other. */
  lemma FirstIsLatest(runs: seq<Listed>, x: Listed)
    requires MostRecentFirst(runs) && x in runs
    ensures x.1.startTime <= runs[0].1.startTime
  {
    var i :| 0 <= i < |runs| && runs[i] == x;
    if i > 0 {
      assert runs[0].1.startTime >= runs[i].1.startTime;
    }
  }

  /**
   * A stable sort by start time, latest first, has exactly one possible result: two
   * orderings that are both most recent first and agree on the order of the runs of
   * every start time are equal. So `SortMostRecentFirst` gives what any stable sort gives.
   */
  lemma {:induction false} StableSortUnique(a: seq<Listed>, b: seq<Listed>)
    requires MostRecentFirst(a) && MostRecentFirst(b)
    requires forall t :: StartedAt(a, t) == StartedAt(b, t)
    ensures a == b
    decreases |a|
  {
    if a == [] || b == [] {
      StartedAtOfFirst(a);
      StartedAtOfFirst(b);
    } else {
      var ka := a[0].1.startTime;
      var kb := b[0].1.startTime;
      assert ka <= kb by {
        assert StartedAt(b, ka) != [];
        StartedAtMembers(b, ka);
        FirstIsLatest(b, StartedAt(b, ka)[0]);
      }
      assert kb <= ka by {
        assert StartedAt(a, kb) != [];
        StartedAtMembers(a, kb);
        FirstIsLatest(a, StartedAt(a, kb)[0]);
      }
      assert a[0] == b[0] by {
        assert StartedAt(a, ka)[0] == a[0] && StartedAt(b, ka)[0] == b[0];
      }
      forall t
        ensures StartedAt(a[1..], t) == StartedAt(b[1..], t)
      {
        var h := if ka == t then [a[0]] else [];
        assert a == [a[0]] + a[1..] && b == [b[0]] + b[1..];
        StartedAtCons(a[0], a[1..], t);
        StartedAtCons(b[0], b[1..], t);
        assert (h + StartedAt(a[1..], t))[|h|..] == StartedAt(a[1..], t);
        assert (h + StartedAt(b[1..], t))[|h|..] == StartedAt(b[1..], t);
      }
      StableSortUnique(a[1..], b[1..]);
      assert a == [a[0]] + a[1..] && b == [b[0]] + b[1..];
    }
  }

  /** Sorting keeps the set of identifiers and the length. */
  lemma SortKeepsIds(runs: seq<Listed>)
    ensures |SortMostRecentFirst(runs)| == |runs|
    ensures Ids(SortMostRecentFirst(runs)) == Ids(runs)
  {
    var sorted := SortMostRecentFirst(runs);
    assert |sorted| == |multiset(sorted)| == |multiset(runs)| == |runs|;
    forall id | id in Ids(sorted)
      ensures id in Ids(runs)
    {
      var k :| 0 <= k < |sorted| && sorted[k].0 == id;
      assert sorted[k] in multiset(runs);
    }
    forall id | id in Ids(runs)
      ensures id in Ids(sorted)
    {
      var k :| 0 <= k < |runs| && runs[k].0 == id;
      assert runs[k] in multiset(sorted);
    }
  }

  /**
   * What the loop of `cmd_list` has gathered once it has found the run directories
   * `found`: one run per directory, each with the configuration it loads.
   */
  ghost predicate Collected(disk: Tree, root: Path, runs: seq<Listed>, found: set<string>) {
    && Ids(runs) == found
    && |runs| == |found|
    && (forall k :: 0 <= k < |runs| ==> RunConfig.Load(disk, root, runs[k].0) == Ok(runs[k].1))
    && (forall id :: id in found ==> RunConfig.Load(disk, root, id).Ok?)
  }

  /** Gathering a new run directory whose configuration loads appends that run. */
  lemma CollectAdd(disk: Tree, root: Path, runs: seq<Listed>, found: set<string>, id: string, config: RunConfig)
    requires Collected(disk, root, runs, found)
    requires id !in found
    requires RunConfig.Load(disk, root, id) == Ok(config)
    ensures Collected(disk, root, runs + [(id, config)], found + {id})
  {
    var r := runs + [(id, config)];
    assert forall k :: 0 <= k < |runs| ==> r[k] == runs[k];
    assert Ids(r) == Ids(runs) + {id} by {
      assert r[|runs|].0 == id;
    }
  }

  /**
   * `entries` is an order in which `read_dir` may yield the names `names`: each name
   * exactly once.
   */
  ghost predicate Enumerates(entries: seq<string>, names: set<string>) {
    && (forall a, b :: 0 <= a < b < |entries| ==> entries[a] != entries[b])
    && (forall id :: id in entries <==> id in names)
  }

  /**
   * What the loop of `cmd_list` gathers when the entries of `.runs` come in the order
   * `entries`: every entry that is a directory, paired with the configuration it
   * loads, in the order visited; or the error of the first directory whose
   * configuration does not load.
   */
  function LoadEach(disk: Tree, root: Path, entries: seq<string>): Result<seq<Listed>, Error>
    decreases |entries|
  {
    if entries == [] then Ok([])
    else
      var before := LoadEach(disk, root, entries[..|entries| - 1]);
      var id := entries[|entries| - 1];
      if before.Err? || !IsDir(disk, RunsDir(root) + [id]) then before
      else
        match RunConfig.Load(disk, root, id)
        case Err(e) => Err(e)
        case Ok(config) => Ok(before.value + [(id, config)])
  }

  /** Once the entries visited so far fail, visiting more fails with the same error. */
  lemma {:induction false} LoadEachErrorStays(disk: Tree, root: Path, entries: seq<string>, i: nat, m: nat)
    requires i <= m <= |entries| && LoadEach(disk, root, entries[..i]).Err?
    ensures LoadEach(disk, root, entries[..m]) == LoadEach(disk, root, entries[..i])
    decreases m
  {
    if m > i {
      LoadEachErrorStays(disk, root, entries, i, m - 1);
      assert entries[..m][..m - 1] == entries[..m - 1];
    }
  }

  /**
   * The error of a failed listing is that of the first directory, in visiting order,
   * whose configuration does not load: every directory visited before it loads.
   */
  lemma {:induction false} LoadEachFirstError(disk: Tree, root: Path, entries: seq<string>)
    requires LoadEach(disk, root, entries).Err?
    ensures exists k :: 0 <= k < |entries| && IsDir(disk, RunsDir(root) + [entries[k]])
              && LoadEach(disk, root, entries[..k]).Ok?
              && RunConfig.Load(disk, root, entries[k]) == Err(LoadEach(disk, root, entries).error)
  {
    var n := |entries|;
    var init := entries[..n - 1];
    if LoadEach(disk, root, init).Err? {
      LoadEachFirstError(disk, root, init);
      var k :| 0 <= k < |init| && IsDir(disk, RunsDir(root) + [init[k]])
                && LoadEach(disk, root, init[..k]).Ok?
                && RunConfig.Load(disk, root, init[k]) == Err(LoadEach(disk, root, init).error);
      assert init[k] == entries[k] && init[..k] == entries[..k];
    } else {
      assert entries[..n - 1] == init;
    }
  }

  /** The entries among `entries` that are directories of `.runs`. */
  ghost function DirsAmong(disk: Tree, root: Path, entries: seq<string>): set<string> {
    set id | id in entries && IsDir(disk, RunsDir(root) + [id])
  }

  /** An entry of an enumeration is not among the entries before it. */
  lemma NotYetVisited(entries: seq<string>, i: nat)
    requires i < |entries|
    requires forall a, b :: 0 <= a < b < |entries| ==> entries[a] != entries[b]
    ensures entries[i] !in entries[..i]
  {
    forall k | 0 <= k < i
      ensures entries[..i][k] != entries[i]
    {
    }
  }

  /**
   * Visiting distinct entries succeeds iff every directory among them loads; it then
   * gathers one run per directory, each with the configuration it loads. On failure the
   * error is that of a directory among them.
   */
  lemma {:induction false} LoadEachCollects(disk: Tree, root: Path, entries: seq<string>)
    requires forall a, b :: 0 <= a < b < |entries| ==> entries[a] != entries[b]
    ensures LoadEach(disk, root, entries).Ok? <==>
              forall id :: id in DirsAmong(disk, root, entries) ==> RunConfig.Load(disk, root, id).Ok?
    ensures LoadEach(disk, root, entries).Ok? ==>
              Collected(disk, root, LoadEach(disk, root, entries).value, DirsAmong(disk, root, entries))
    ensures LoadEach(disk, root, entries).Err? ==>
              exists id :: id in DirsAmong(disk, root, entries) &&
                RunConfig.Load(disk, root, id) == Err(LoadEach(disk, root, entries).error)
  {
    if entries != [] {
      var n := |entries|;
      var init := entries[..n - 1];
      var id := entries[n - 1];
      LoadEachCollects(disk, root, init);
      assert entries == init + [id];
      NotYetVisited(entries, n - 1);
      var dirs := DirsAmong(disk, root, init);
      if IsDir(disk, RunsDir(root) + [id]) {
        assert DirsAmong(disk, root, entries) == dirs + {id};
        if LoadEach(disk, root, init).Ok? && RunConfig.Load(disk, root, id).Ok? {
          CollectAdd(disk, root, LoadEach(disk, root, init).value, dirs, id, RunConfig.Load(disk, root, id).value);
        }
      } else {
        assert DirsAmong(disk, root, entries) == dirs;
      }
    }
  }

  /** When the entries enumerate `.runs`, the directories among them are the run directories. */
  lemma DirsAmongAreRunIds(disk: Tree, root: Path, entries: seq<string>)
    requires Enumerates(entries, ChildNames(disk, RunsDir(root)))
    ensures DirsAmong(disk, root, entries) == RunIds(disk, root)
  {
    forall id
      ensures id in DirsAmong(disk, root, entries) <==> id in RunIds(disk, root)
    {
      SubdirNamesMember(disk, RunsDir(root), id);
      ChildNamesMember(disk, RunsDir(root), id);
    }
  }

  /**
   * When the entries enumerate `.runs`: visiting them succeeds iff every run directory
   * loads, fails only with the error of a run directory, and on success gathers each
   * run directory once, with the configuration it loads.
   */
  lemma LoadEachRunIds(disk: Tree, root: Path, entries: seq<string>)
    requires Enumerates(entries, ChildNames(disk, RunsDir(root)))
    ensures var r := LoadEach(disk, root, entries);
            && (r.Ok? <==> forall id :: id in RunIds(disk, root) ==> RunConfig.Load(disk, root, id).Ok?)
            && (r.Err? ==> exists id :: id in RunIds(disk, root) && RunConfig.Load(disk, root, id) == Err(r.error))
            && (r.Ok? ==> Ids(r.value) == RunIds(disk, root) && |r.value| == |RunIds(disk, root)|)
            && (r.Ok? ==> forall k :: 0 <= k < |r.value| ==> RunConfig.Load(disk, root, r.value[k].0) == Ok(r.value[k].1))
  {
    LoadEachCollects(disk, root, entries);
    DirsAmongAreRunIds(disk, root, entries);
  }

  /**
   * The loop of `cmd_list`: visits the entries of `.runs` in the order `read_dir`
   * yields them and loads the configuration of every entry that is a directory,
   * stopping at the first that does not load.
   */
  method CollectRuns(disk: Tree, root: Path, entries: seq<string>) returns (r: Result<seq<Listed>, Error>)
    requires Enumerates(entries, ChildNames(disk, RunsDir(root)))
    ensures r == LoadEach(disk, root, entries)
    ensures r.Ok? <==> forall id :: id in RunIds(disk, root) ==> RunConfig.Load(disk, root, id).Ok?
    ensures r.Err? ==> exists id :: id in RunIds(disk, root) && RunConfig.Load(disk, root, id) == Err(r.error)
    ensures r.Ok? ==> Ids(r.value) == RunIds(disk, root) && |r.value| == |RunIds(disk, root)|
    ensures r.Ok? ==> forall k :: 0 <= k < |r.value| ==> RunConfig.Load(disk, root, r.value[k].0) == Ok(r.value[k].1)
  {
    var runsDir := RunsDir(root);
    var runs: seq<Listed> := [];
    var i := 0;
    while i < |entries|
      invariant i <= |entries|
      invariant LoadEach(disk, root, entries[..i]) == Ok(runs)
    {
      var id := entries[i];
      assert entries[..i + 1][..i] == entries[..i];
      if IsDir(disk, runsDir + [id]) {
        var loaded := RunConfig.Load(disk, root, id);
        if loaded.Err? {
          LoadEachErrorStays(disk, root, entries, i + 1, |entries|);
          assert entries[..|entries|] == entries;
          LoadEachRunIds(disk, root, entries);
          return Err(loaded.error);
        }
        runs := runs + [(id, loaded.value)];
      }
      i := i + 1;
    }
    assert entries[..i] == entries;
    LoadEachRunIds(disk, root, entries);
    r := Ok(runs);
  }

  /**
   * `cmd_list`: lists every run stored under `.runs`, latest start time first, when
   * `read_dir` yields the entries of `.runs` in the order `entries`. Listing fails
   * when `.runs` cannot be read, and otherwise with the error of the first run
   * directory, in that order, whose configuration does not load.
   */
  method ListRuns(disk: Tree, root: Path, entries: seq<string>) returns (r: Result<seq<Listed>, Error>)
    requires Enumerates(entries, ChildNames(disk, RunsDir(root)))
    ensures !IsDir(disk, RunsDir(root)) ==> r == Err(Io(RunsDir(root)))
    ensures IsDir(disk, RunsDir(root)) ==> (r.Ok? <==> LoadEach(disk, root, entries).Ok?)
    ensures IsDir(disk, RunsDir(root)) && r.Err? ==> r == LoadEach(disk, root, entries)
    ensures IsDir(disk, RunsDir(root)) ==>
              (r.Ok? <==> forall id :: id in RunIds(disk, root) ==> RunConfig.Load(disk, root, id).Ok?)
    ensures IsDir(disk, RunsDir(root)) && r.Err? ==>
              exists id :: id in RunIds(disk, root) && RunConfig.Load(disk, root, id) == Err(r.error)
    ensures r.Ok? ==> r.value == SortMostRecentFirst(LoadEach(disk, root, entries).value)
    ensures r.Ok? ==> MostRecentFirst(r.value)
    ensures r.Ok? ==> multiset(r.value) == multiset(LoadEach(disk, root, entries).value)
    ensures r.Ok? ==> forall t :: StartedAt(r.value, t) == StartedAt(LoadEach(disk, root, entries).value, t)
    ensures r.Ok? ==> Ids(r.value) == RunIds(disk, root) && |r.value| == |RunIds(disk, root)|
    ensures r.Ok? ==> forall k :: 0 <= k < |r.value| ==> RunConfig.Load(disk, root, r.value[k].0) == Ok(r.value[k].1)
  {
    var runsDir := RunsDir(root);
    if !IsDir(disk, runsDir) {
      return Err(Io(runsDir));
    }
    var collected := CollectRuns(disk, root, entries);
    if collected.Err? {
      return Err(collected.error);
    }
    var runs := collected.value;
    var sorted := SortMostRecentFirst(runs);
    SortSorted(runs);
    SortKeepsIds(runs);
    forall t
      ensures StartedAt(sorted, t) == StartedAt(runs, t)
    {
      SortStable(runs, t);
    }
    forall k | 0 <= k < |sorted|
      ensures RunConfig.Load(disk, root, sorted[k].0) == Ok(sorted[k].1)
    {
      assert sorted[k] in multiset(runs);
    }
    r := Ok(sorted);
  }
}
