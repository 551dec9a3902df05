/** The history directory (crates/cli/src/history.rs): catching the index up with the snapshots on
    disk, recording a run that may stop at any write, and retention. */
module HistoryStore {
  import opened Wrappers
  import opened History
  import opened HistoryLaws

  // ---- the order of runs ----

  predicate Before(a: Run, b: Run) {
    a.at < b.at || (a.at == b.at && a.id < b.id)
  }

  ghost predicate Ordered(runs: seq<Snapshot>) {
    forall i, j | 0 <= i < j < |runs| :: Before(runs[i].run, runs[j].run)
  }

  ghost predicate DistinctIds(runs: seq<Snapshot>) {
    forall i, j | 0 <= i < j < |runs| :: runs[i].run.id != runs[j].run.id
  }

  function Ids(runs: seq<Snapshot>): set<RunId> {
    set s | s in runs :: s.run.id
  }

  function InsertRun(s: Snapshot, sorted: seq<Snapshot>): seq<Snapshot> {
    if sorted == [] then [s]
    else if Before(s.run, sorted[0].run) then [s] + sorted
    else [sorted[0]] + InsertRun(s, sorted[1..])
  }

  /** The snapshots of a directory listing, oldest first. */
  function SortRuns(files: seq<Snapshot>): seq<Snapshot> {
    if files == [] then [] else InsertRun(files[0], SortRuns(files[1..]))
  }

  lemma {:induction false} InsertKeepsOrder(s: Snapshot, sorted: seq<Snapshot>)
    requires Ordered(sorted) && s.run.id !in Ids(sorted)
    ensures Ordered(InsertRun(s, sorted))
    ensures forall x :: x in InsertRun(s, sorted) <==> x == s || x in sorted
  {
    if sorted != [] && !Before(s.run, sorted[0].run) {
      var rest := sorted[1..];
      assert sorted == [sorted[0]] + rest;
      assert sorted[0].run.id in Ids(sorted);
      InsertKeepsOrder(s, rest);
      assert forall x | x in InsertRun(s, rest) :: Before(sorted[0].run, x.run);
    }
  }

  lemma {:induction false} SortRunsSorts(files: seq<Snapshot>)
    requires DistinctIds(files)
    ensures Ordered(SortRuns(files))
    ensures forall x :: x in SortRuns(files) <==> x in files
  {
    if files != [] {
      assert files == [files[0]] + files[1..];
      SortRunsSorts(files[1..]);
      InsertKeepsOrder(files[0], SortRuns(files[1..]));
    }
  }

  lemma {:induction false} OrderedUnique(a: seq<Snapshot>, b: seq<Snapshot>)
    requires Ordered(a) && Ordered(b)
    requires forall x :: x in a <==> x in b
    ensures a == b
  {
    assert a != [] ==> a[0] in b;
    assert b != [] ==> b[0] in a;
    if a != [] && b != [] {
      assert a[0] in b && b[0] in a;
      assert a[0] == b[0];
      var x, y := a[1..], b[1..];
      assert a == [a[0]] + x && b == [b[0]] + y;
      assert forall z | z in x :: Before(a[0].run, z.run);
      assert forall z | z in y :: Before(b[0].run, z.run);
      forall z
        ensures z in x <==> z in y
      {
        assert z in a <==> z == a[0] || z in x;
        assert z in b <==> z == b[0] || z in y;
      }
      OrderedUnique(x, y);
    }
  }

  // ---- the runs an index covers ----

  function Covered(all: seq<Snapshot>, known: set<RunId>): seq<Snapshot> {
    if all == [] then []
    else
      var s := all[|all| - 1];
      Covered(all[..|all| - 1], known) + if s.run.id in known then [s] else []
  }

  lemma {:induction false} CoveredIsIn(all: seq<Snapshot>, known: set<RunId>)
    ensures forall x :: x in Covered(all, known) <==> x in all && x.run.id in known
    ensures Ordered(all) ==> Ordered(Covered(all, known))
  {
    if all != [] {
      var init := all[..|all| - 1];
      assert all == init + [all[|all| - 1]];
      CoveredIsIn(init, known);
      assert Ordered(all) ==> forall x | x in init :: Before(x.run, all[|all| - 1].run);
    }
  }

  lemma {:induction false} CoveredConcat(a: seq<Snapshot>, b: seq<Snapshot>, known: set<RunId>)
    ensures Covered(a + b, known) == Covered(a, known) + Covered(b, known)
  {
    if b == [] {
      assert a + b == a;
    } else {
      var init := b[..|b| - 1];
      assert (a + b)[..|a + b| - 1] == a + init;
      CoveredConcat(a, init, known);
    }
  }

  lemma {:induction false} CoveredAll(all: seq<Snapshot>, known: set<RunId>)
    ensures Ids(all) <= known ==> Covered(all, known) == all
    ensures Ids(all) !! known ==> Covered(all, known) == []
  {
    if all != [] {
      var init := all[..|all| - 1];
      assert all == init + [all[|all| - 1]];
      assert Ids(all) == Ids(init) + {all[|all| - 1].run.id};
      CoveredAll(init, known);
    }
  }

  // ---- a late snapshot ----

  /** How far an entry has come back, counting the fix a touch would undo. */
  function Returns(e: Entry): nat {
    e.reopened + if e.status == Fixed then 1 else 0
  }

  ghost predicate Dominates(full: Option<Entry>, part: Option<Entry>) {
    part.Some? ==>
      && full.Some?
      && full.value.firstSeen <= part.value.firstSeen
      && part.value.reopened <= full.value.reopened
      && Returns(part.value) <= Returns(full.value)
  }

  ghost predicate NonDecreasing(runs: seq<Snapshot>) {
    forall i, j | 0 <= i < j < |runs| :: runs[i].run.at <= runs[j].run.at
  }

  lemma {:induction false} FirstSeenBound(runs: seq<Snapshot>, k: Key)
    requires runs != [] && NonDecreasing(runs)
    ensures KeyState(runs, k).Some? ==> KeyState(runs, k).value.firstSeen <= runs[|runs| - 1].run.at
  {
    hide EntryAfter, Touches, Trusts;
    var init := runs[..|runs| - 1];
    StepSummary(KeyState(init, k), runs[|runs| - 1], k);
    if init != [] {
      FirstSeenBound(init, k);
    }
  }

  lemma DominatesStep(full: Option<Entry>, part: Option<Entry>, s: Snapshot, k: Key)
    requires Dominates(full, part) && (full.Some? ==> full.value.firstSeen <= s.run.at)
    ensures Dominates(EntryAfter(full, s, k), EntryAfter(part, s, k))
    ensures Dominates(EntryAfter(full, s, k), part)
  {
    hide EntryAfter, Touches, Trusts;
    StepSummary(full, s, k);
    StepSummary(part, s, k);
  }

  /** Inserting runs anywhere never makes a finding younger nor forgets that it came back. */
  lemma {:induction false} InsertionDominates(all: seq<Snapshot>, known: set<RunId>, k: Key)
    requires NonDecreasing(all)
    ensures Dominates(KeyState(all, k), KeyState(Covered(all, known), k))
  {
    hide EntryAfter;
    assert Dominates(None, None);
    hide Dominates;
    if all != [] {
      var init, s := all[..|all| - 1], all[|all| - 1];
      InsertionDominates(init, known, k);
      if init != [] {
        FirstSeenBound(init, k);
      }
      var part := Covered(init, known);
      DominatesStep(KeyState(init, k), KeyState(part, k), s, k);
      if s.run.id in known {
        KeyStateSnoc(part, s, k);
      } else {
        assert Covered(all, known) == part;
      }
    }
  }

  lemma KeyStateSnoc(runs: seq<Snapshot>, s: Snapshot, k: Key)
    ensures KeyState(runs + [s], k) == EntryAfter(KeyState(runs, k), s, k)
  {
    hide EntryAfter;
    assert (runs + [s])[..|runs + [s]| - 1] == runs;
  }

  /** The index agrees with folding `runs`, whatever order its run ids are listed in. */
  ghost predicate Matches(v: IndexView, runs: seq<Snapshot>) {
    v.entries == FoldAll(runs).entries && v.packages == FoldAll(runs).packages
  }

  lemma LatePackages(all: seq<Snapshot>, known: set<RunId>)
    ensures MergePackages(FoldAll(all).packages, FoldAll(Covered(all, known)).packages) == FoldAll(all).packages
  {
    hide FoldAll, RunPackages;
    var part := Covered(all, known);
    CoveredIsIn(all, known);
    var full, was := FoldAll(all).packages, FoldAll(part).packages;
    forall p | p in was
      ensures p in full && full[p] <= was[p]
    {
      PackagesSinceFirstRecorded(all, p);
      PackagesSinceFirstRecorded(part, p);
      var i :| 0 <= i < |part| && Records(part[i], p) && was[p] == part[i].run.at;
      assert part[i] in all;
      var j :| 0 <= j < |all| && all[j] == part[i];
      assert Records(all[j], p);
    }
  }

  /** A late snapshot changes nothing but the order of `runs`: rebuilding over the index of any of
      the runs gives the entries and packages of rebuilding from nothing. */
  lemma LateSnapshotChangesNothing(all: seq<Snapshot>, known: set<RunId>, v: IndexView)
    requires NonDecreasing(all) && Matches(v, Covered(all, known))
    ensures var rebuilt := RebuildView(all, Some(v));
      && Matches(rebuilt, all)
      && rebuilt.entries == RebuildView(all, None).entries
      && rebuilt.packages == RebuildView(all, None).packages
  {
    LatePackages(all, known);
    hide FoldAll;
    var full := FoldAll(all).entries;
    forall k | k in v.entries
      ensures k in full && KeepOld(full[k], v.entries[k]) == full[k]
    {
      FoldAllAt(all, k);
      FoldAllAt(Covered(all, known), k);
      InsertionDominates(all, known, k);
    }
    assert MergeEntries(full, v.entries) == full;
  }

  // ---- catching up ----

  /** The position of the first snapshot the index does not cover; the length when it covers all. */
  function FirstNew(snapshots: seq<Snapshot>, known: set<RunId>): (n: nat)
    ensures n <= |snapshots|
    ensures forall i | 0 <= i < n :: snapshots[i].run.id in known
    ensures n < |snapshots| ==> snapshots[n].run.id !in known
  {
    if snapshots == [] || snapshots[0].run.id !in known then 0
    else 1 + FirstNew(snapshots[1..], known)
  }

  /** The position of the newest snapshot the index covers; -1 when it covers none on disk. */
  function LastKnown(snapshots: seq<Snapshot>, known: set<RunId>): (l: int)
    ensures -1 <= l < |snapshots|
    ensures forall i | l < i < |snapshots| :: snapshots[i].run.id !in known
    ensures l >= 0 ==> snapshots[l].run.id in known
  {
    if snapshots == [] then -1
    else if snapshots[|snapshots| - 1].run.id in known then |snapshots| - 1
    else LastKnown(snapshots[..|snapshots| - 1], known)
  }

  function Known(v: IndexView): set<RunId> {
    set id | id in v.runs
  }

  /** The stored index brought up to date with the snapshots on disk: what is new is folded in if it
      all comes after what is covered, and otherwise only a rebuild is right. */
  function CatchUp(snapshots: seq<Snapshot>, v: IndexView): IndexView {
    var first := FirstNew(snapshots, Known(v));
    if first == |snapshots| then v
    else if first > LastKnown(snapshots, Known(v)) then FoldFrom(v, snapshots[first..])
    else RebuildView(snapshots, Some(v))
  }

  /** The index `load` answers with. */
  function LoadView(files: seq<Snapshot>, index: Option<IndexView>): IndexView {
    if index.None? then FoldAll(SortRuns(files)) else CatchUp(SortRuns(files), index.value)
  }

  lemma {:induction false} FoldFromAll(a: seq<Snapshot>, b: seq<Snapshot>, v: IndexView)
    requires v == FoldAll(a)
    ensures FoldFrom(v, b) == FoldAll(a + b)
  {
    hide FoldView;
    if b == [] {
      assert a + b == a;
    } else {
      assert (a + b)[..|a + b| - 1] == a + b[..|b| - 1];
      FoldFromAll(a, b[..|b| - 1], v);
    }
  }

  lemma {:induction false} FoldFromMatches(a: seq<Snapshot>, b: seq<Snapshot>, v: IndexView)
    requires Matches(v, a)
    ensures Matches(FoldFrom(v, b), a + b)
    ensures FoldFrom(v, b).runs == v.runs + seq(|b|, i requires 0 <= i < |b| => b[i].run.id)
  {
    if b == [] {
      assert a + b == a;
    } else {
      hide FoldEntries;
      assert (a + b)[..|a + b| - 1] == a + b[..|b| - 1];
      FoldFromMatches(a, b[..|b| - 1], v);
    }
  }

  // ---- nothing pruned: any order of arrival ----

  lemma CatchUpIsExact(all: seq<Snapshot>, v: IndexView)
    requires NonDecreasing(all) && Matches(v, Covered(all, Known(v)))
    ensures Matches(CatchUp(all, v), all)
  {
    hide FoldAll, FoldFrom, RebuildView, FirstNew, LastKnown, Covered, Matches, NonDecreasing;
    var known := Known(v);
    var first := FirstNew(all, known);
    assert all == all[..first] + all[first..];
    if first == |all| {
      CoveredAll(all, known);
    } else if first > LastKnown(all, known) {
      CoveredConcat(all[..first], all[first..], known);
      CoveredAll(all[..first], known);
      CoveredAll(all[first..], known);
      assert Covered(all, known) == all[..first];
      FoldFromMatches(all[..first], all[first..], v);
    } else {
      LateSnapshotChangesNothing(all, known, v);
    }
  }

  /** With nothing pruned, whatever runs the stored index covers and however the others arrived,
      the loaded index is the one folding every run in time order gives. */
  lemma LoadIsExact(files: seq<Snapshot>, all: seq<Snapshot>, v: IndexView)
    requires Ordered(all) && DistinctIds(files) && forall x :: x in files <==> x in all
    requires Matches(v, Covered(all, Known(v)))
    ensures Matches(LoadView(files, Some(v)), all)
    ensures LoadView(files, None) == FoldAll(all)
  {
    SortRunsSorts(files);
    OrderedUnique(SortRuns(files), all);
    CatchUpIsExact(all, v);
  }

  // ---- recording ----

  /** What is on disk: the snapshot files in directory order, and the index file. */
  datatype Disk = Disk(files: seq<Snapshot>, index: Option<IndexView>)

  function Without(files: seq<Snapshot>, ids: set<RunId>): seq<Snapshot> {
    if files == [] then []
    else
      var s := files[|files| - 1];
      Without(files[..|files| - 1], ids) + if s.run.id in ids then [] else [s]
  }

  /** Whether retention drops the snapshot; `removable` are the files the system lets it delete. */
  predicate Dropped(s: Snapshot, cutoff: Time, newest: RunId, removable: set<RunId>) {
    s.run.at < cutoff && s.run.id != newest && s.run.id in removable
  }

  function Pruned(snapshots: seq<Snapshot>, cutoff: Time, newest: RunId, removable: set<RunId>): set<RunId> {
    set s | s in snapshots && Dropped(s, cutoff, newest, removable) :: s.run.id
  }

  /** One `record` call. `reach` is how far it gets: the snapshot is installed from 1 on, the index
      from 2 on, and each further step is one snapshot considered for pruning. */
  datatype Call = Call(snapshot: Snapshot, keep: Option<Time>, removable: set<RunId>, reach: nat)

  /** The ids one call prunes from the files it loaded. */
  function PrunedBy(files: seq<Snapshot>, c: Call): (ids: set<RunId>)
    ensures SortRuns(files) != [] && SortRuns(files)[|SortRuns(files)| - 1] == c.snapshot ==> c.snapshot.run.id !in ids
  {
    var snapshots := SortRuns(files);
    if c.reach < 2 || c.keep.None? || snapshots == [] then {}
    else
      var steps := if c.reach - 2 < |snapshots| then c.reach - 2 else |snapshots|;
      Pruned(snapshots[..steps], c.snapshot.run.at - c.keep.value, snapshots[|snapshots| - 1].run.id, c.removable)
  }

  function AfterCall(d: Disk, c: Call): Disk {
    if c.reach == 0 then d
    else
      var files := Without(d.files, {c.snapshot.run.id}) + [c.snapshot];
      if c.reach == 1 then Disk(files, d.index)
      else Disk(Without(files, PrunedBy(files, c)), Some(LoadView(files, d.index)))
  }

  lemma {:induction false} WithoutIsIn(files: seq<Snapshot>, ids: set<RunId>)
    ensures forall x :: x in Without(files, ids) <==> x in files && x.run.id !in ids
    ensures DistinctIds(files) ==> DistinctIds(Without(files, ids))
  {
    if files != [] {
      var init := files[..|files| - 1];
      assert files == init + [files[|files| - 1]];
      WithoutIsIn(init, ids);
    }
  }

  lemma {:induction false} WithoutNothing(files: seq<Snapshot>, ids: set<RunId>)
    requires Ids(files) !! ids
    ensures Without(files, ids) == files
  {
    if files != [] {
      var init := files[..|files| - 1];
      assert files == init + [files[|files| - 1]];
      WithoutNothing(init, ids);
    }
  }

  lemma {:induction false} WithoutTwice(files: seq<Snapshot>, a: set<RunId>, b: set<RunId>)
    ensures Without(Without(files, a), b) == Without(files, a + b)
  {
    if files != [] {
      var init, s := files[..|files| - 1], files[|files| - 1];
      WithoutTwice(init, a, b);
      var kept := Without(init, a);
      if s.run.id !in a {
        assert (kept + [s])[..|kept|] == kept;
      } else {
        assert Without(files, a) == kept;
      }
    }
  }

  class HistoryDir {
    var files: seq<Snapshot>
    var index: Option<IndexView>

    function View(): Disk
      reads this
    {
      Disk(files, index)
    }

    constructor ()
      ensures View() == Disk([], None)
    {
      files, index := [], None;
    }

    /** `load`: every snapshot oldest first, and the index caught up with them. */
    method Load() returns (snapshots: seq<Snapshot>, caughtUp: Index)
      ensures fresh(caughtUp)
      ensures snapshots == SortRuns(files) && caughtUp.View() == LoadView(files, index)
    {
      snapshots := SortRuns(files);
      if index.None? {
        caughtUp := Rebuild(snapshots, None);
        return;
      }
      var v := index.value;
      var known := Known(v);
      var first := FirstNew(snapshots, known);
      var last := LastKnown(snapshots, known);
      if first == |snapshots| {
        caughtUp := new Index(v);
      } else if first > last {
        caughtUp := new Index(v);
        var todo := snapshots[first..];
        for i := 0 to |todo|
          invariant fresh(caughtUp) && caughtUp.View() == FoldFrom(v, todo[..i])
        {
          assert todo[..i + 1][..i] == todo[..i];
          caughtUp.Fold(todo[i]);
        }
        assert todo[..|todo|] == todo;
      } else {
        caughtUp := Rebuild(snapshots, Some(v));
      }
    }

    /** `record`, stopped after `c.reach` of its steps. */
    method Record(c: Call)
      modifies this
      ensures View() == AfterCall(old(View()), c)
    {
      hide LoadView, SortRuns, Without, Pruned;
      if c.reach == 0 {
        return;
      }
      var id := c.snapshot.run.id;
      files := Without(files, {id}) + [c.snapshot];
      if c.reach == 1 {
        return;
      }
      var snapshots, caughtUp := Load();
      var stored := caughtUp.View();
      index := Some(stored);
      WithoutNothing(files, {});
      if c.keep.None? || snapshots == [] {
        return;
      }
      var steps := if c.reach - 2 < |snapshots| then c.reach - 2 else |snapshots|;
      Prune(snapshots[..steps], c.snapshot.run.at - c.keep.value, snapshots[|snapshots| - 1].run.id, c.removable);
    }

    method Prune(snapshots: seq<Snapshot>, cutoff: Time, newest: RunId, removable: set<RunId>)
      modifies this`files
      ensures files == Without(old(files), Pruned(snapshots, cutoff, newest, removable))
    {
      hide Without, Dropped;
      ghost var all := files;
      assert Pruned(snapshots[..0], cutoff, newest, removable) == {};
      WithoutNothing(all, {});
      for i := 0 to |snapshots|
        invariant files == Without(all, Pruned(snapshots[..i], cutoff, newest, removable))
      {
        var s := snapshots[i];
        assert snapshots[..i + 1] == snapshots[..i] + [s];
        ghost var gone := Pruned(snapshots[..i], cutoff, newest, removable);
        if Dropped(s, cutoff, newest, removable) {
          assert Pruned(snapshots[..i + 1], cutoff, newest, removable) == gone + {s.run.id};
          WithoutTwice(all, gone, {s.run.id});
          files := Without(files, {s.run.id});
        } else {
          assert Pruned(snapshots[..i + 1], cutoff, newest, removable) == gone;
        }
      }
      assert snapshots[..|snapshots|] == snapshots;
    }
  }

  // ---- what retention keeps ----

  /** The files once the call's own snapshot is installed, in the place of one with its id. */
  ghost predicate Holds(d: Disk, c: Call, x: Snapshot) {
    x == c.snapshot || (x in d.files && x.run.id != c.snapshot.run.id)
  }

  /** No run of the directory is later; of two at one time the one with the later name is. */
  ghost predicate IsNewest(d: Disk, c: Call, x: Snapshot) {
    forall y | Holds(d, c, y) && y != x ::
      y.run.at < x.run.at || (y.run.at == x.run.at && y.run.id < x.run.id)
  }

  lemma {:induction false} SortedLength(files: seq<Snapshot>)
    ensures |SortRuns(files)| == |files|
  {
    if files != [] {
      SortedLength(files[1..]);
      InsertedLength(files[0], SortRuns(files[1..]));
    }
  }

  lemma {:induction false} InsertedLength(s: Snapshot, sorted: seq<Snapshot>)
    ensures |InsertRun(s, sorted)| == |sorted| + 1
  {
    if sorted != [] {
      InsertedLength(s, sorted[1..]);
    }
  }

  lemma {:induction false} WithoutLength(files: seq<Snapshot>, ids: set<RunId>)
    ensures |Without(files, ids)| <= |files|
  {
    if files != [] {
      WithoutLength(files[..|files| - 1], ids);
    }
  }

  lemma InstalledHolds(d: Disk, c: Call) returns (files: seq<Snapshot>)
    requires DistinctIds(d.files)
    ensures files == Without(d.files, {c.snapshot.run.id}) + [c.snapshot]
    ensures DistinctIds(files) && |files| <= |d.files| + 1 && forall x :: x in files <==> Holds(d, c, x)
  {
    hide Without;
    WithoutIsIn(d.files, {c.snapshot.run.id});
    WithoutLength(d.files, {c.snapshot.run.id});
    var rest := Without(d.files, {c.snapshot.run.id});
    files := rest + [c.snapshot];
    assert forall i | 0 <= i < |rest| :: rest[i] in rest;
  }

  lemma LastIsNewest(sorted: seq<Snapshot>, x: Snapshot)
    requires Ordered(sorted) && x in sorted
    ensures x == sorted[|sorted| - 1] <==>
      forall y | y in sorted && y != x :: y.run.at < x.run.at || (y.run.at == x.run.at && y.run.id < x.run.id)
  {
    var last := sorted[|sorted| - 1];
    assert last in sorted;
    assert forall y | y in sorted && y != last :: Before(y.run, last.run);
  }

  lemma FinishedPrune(files: seq<Snapshot>, c: Call)
    requires c.reach >= 2 + |files| && files != []
    ensures SortRuns(files) != []
    ensures var sorted := SortRuns(files);
      PrunedBy(files, c) ==
      if c.keep.None? then {}
      else Pruned(sorted, c.snapshot.run.at - c.keep.value, sorted[|sorted| - 1].run.id, c.removable)
  {
    SortedLength(files);
    hide SortRuns, Pruned;
    var sorted := SortRuns(files);
    assert sorted[..|sorted|] == sorted;
  }

  lemma PrunedIs(files: seq<Snapshot>, c: Call, x: Snapshot)
    requires DistinctIds(files) && x in files && c.reach >= 2 + |files|
    ensures x.run.id in PrunedBy(files, c) <==>
      && c.keep.Some? && x.run.at < c.snapshot.run.at - c.keep.value && x.run.id in c.removable
      && exists y :: y in files && y != x && !(y.run.at < x.run.at || (y.run.at == x.run.at && y.run.id < x.run.id))
  {
    FinishedPrune(files, c);
    SortRunsSorts(files);
    var sorted := SortRuns(files);
    LastIsNewest(sorted, x);
    hide SortRuns, PrunedBy, Before, DistinctIds, Ordered;
    forall y | y in files && y.run.id == x.run.id
      ensures y == x
    {
      SameIdSame(files, x, y);
    }
    assert sorted[|sorted| - 1] in sorted;
  }

  /** A finished call leaves its own snapshot and each other one that is within the time to keep, is the newest of the
      directory, or that the system does not let it remove; without a time to keep it leaves them all. */
  lemma FinishedCallKeeps(d: Disk, c: Call, x: Snapshot)
    requires DistinctIds(d.files) && c.reach >= 3 + |d.files|
    ensures x in AfterCall(d, c).files <==>
      && Holds(d, c, x)
      && (c.keep.None? || x.run.at >= c.snapshot.run.at - c.keep.value || IsNewest(d, c, x)
          || x.run.id !in c.removable)
  {
    hide SortRuns, Without, LoadView, Before, DistinctIds, Ordered, PrunedBy, Holds;
    var files := InstalledHolds(d, c);
    WithoutIsIn(files, PrunedBy(files, c));
    if x in files {
      PrunedIs(files, c, x);
    }
  }

  lemma SameIdSame(files: seq<Snapshot>, x: Snapshot, y: Snapshot)
    requires DistinctIds(files) && x in files
    ensures y in files && y.run.id == x.run.id ==> y == x
  {
  }

  // ---- crash safety and retention, over every sequence of calls ----

  function Calls(calls: seq<Call>): Disk {
    if calls == [] then Disk([], None)
    else AfterCall(Calls(calls[..|calls| - 1]), calls[|calls| - 1])
  }

  /** Every snapshot ever installed, pruned since or not. */
  function Installed(calls: seq<Call>): seq<Snapshot> {
    if calls == [] then []
    else
      var c := calls[|calls| - 1];
      Installed(calls[..|calls| - 1]) + if c.reach == 0 then [] else [c.snapshot]
  }

  /** The stored index folds the first `n` runs, and every later run is still on disk. */
  ghost predicate CaughtUpTo(d: Disk, all: seq<Snapshot>, n: nat) {
    && n <= |all|
    && DistinctIds(d.files)
    && (forall x | x in d.files :: x in all)
    && (forall i | n <= i < |all| :: all[i] in d.files)
    && (if d.index.None? then n == 0 else d.index.value == FoldAll(all[..n]))
  }

  lemma {:induction false} FoldAllRuns(runs: seq<Snapshot>)
    ensures Known(FoldAll(runs)) == Ids(runs)
  {
    if runs != [] {
      hide FoldEntries;
      var init := runs[..|runs| - 1];
      assert runs == init + [runs[|runs| - 1]];
      FoldAllRuns(init);
      var last := runs[|runs| - 1];
      assert FoldAll(runs).runs == FoldAll(init).runs + [last.run.id];
      assert Known(FoldAll(runs)) == Known(FoldAll(init)) + {last.run.id};
      assert Ids(runs) == Ids(init) + {last.run.id};
    }
  }

  /** Loading a directory that is caught up to some run yields the fold of every run installed,
      however many of the covered snapshots retention has removed. */
  lemma LoadFoldsEverything(d: Disk, all: seq<Snapshot>, n: nat)
    requires Ordered(all) && DistinctIds(all) && CaughtUpTo(d, all, n)
    ensures LoadView(d.files, d.index) == FoldAll(all)
  {
    hide FoldAll, FoldFrom, RebuildView, SortRuns, FirstNew, LastKnown, Covered, Before;
    SortRunsSorts(d.files);
    if d.index.None? {
      OrderedUnique(SortRuns(d.files), all);
    } else {
      var early, later := all[..n], all[n..];
      assert all == early + later;
      assert forall x | x in later :: x in d.files;
      OnDiskInOrder(d.files, SortRuns(d.files), early, later);
      hide Ordered;
      CatchUpAfterPruning(early, later, Ids(d.files));
    }
  }

  lemma CatchUpAfterPruning(early: seq<Snapshot>, later: seq<Snapshot>, onDisk: set<RunId>)
    requires DistinctIds(early + later)
    ensures CatchUp(Covered(early, onDisk) + later, FoldAll(early)) == FoldAll(early + later)
  {
    CoveredIsIn(early, onDisk);
    hide FoldAll, FoldFrom, RebuildView, FirstNew, LastKnown, Covered;
    SplitAtKnown(Covered(early, onDisk), early, later, early + later);
    FoldFromAll(early, later, FoldAll(early));
    if later == [] {
      assert early + later == early;
    }
  }

  lemma OnDiskInOrder(files: seq<Snapshot>, snapshots: seq<Snapshot>, early: seq<Snapshot>, later: seq<Snapshot>)
    requires Ordered(early + later) && DistinctIds(early + later)
    requires Ordered(snapshots) && forall x :: x in snapshots <==> x in files
    requires forall x | x in files :: x in early + later
    requires forall x | x in later :: x in files
    ensures snapshots == Covered(early, Ids(files)) + later
  {
    var onDisk := Ids(files);
    var kept := Covered(early, onDisk);
    CoveredIsIn(early, onDisk);
    hide Covered;
    var all := early + later;
    assert forall i | 0 <= i < |early| :: all[i] == early[i];
    forall x, y | x in early && y in later
      ensures Before(x.run, y.run)
    {
      var i :| 0 <= i < |early| && early[i] == x;
      var j :| 0 <= j < |later| && later[j] == y;
      assert all[i] == x && all[|early| + j] == y;
    }
    assert Ordered(early) && Ordered(later) by {
      assert forall i | 0 <= i < |later| :: all[|early| + i] == later[i];
    }
    assert Ordered(kept + later);
    forall x | x in early && x.run.id in onDisk
      ensures x in snapshots
    {
      var y :| y in files && y.run.id == x.run.id;
      assert x in all && y in all;
    }
    OrderedUnique(snapshots, kept + later);
  }

  lemma SplitAtKnown(kept: seq<Snapshot>, early: seq<Snapshot>, later: seq<Snapshot>, all: seq<Snapshot>)
    requires all == early + later && DistinctIds(all) && forall x | x in kept :: x in early
    ensures var known := Known(FoldAll(early));
      var snapshots := kept + later;
      && FirstNew(snapshots, known) == |kept|
      && (later != [] ==> FirstNew(snapshots, known) > LastKnown(snapshots, known))
      && snapshots[|kept|..] == later
  {
    FoldAllRuns(early);
    hide FoldAll, FirstNew, LastKnown;
    forall x, y | x in early && y in later
      ensures x.run.id != y.run.id
    {
      var i :| 0 <= i < |early| && early[i] == x;
      var j :| 0 <= j < |later| && later[j] == y;
      assert all[i] == x && all[|early| + j] == y;
    }
    hide DistinctIds;
    var known := Known(FoldAll(early));
    var snapshots := kept + later;
    assert forall i | 0 <= i < |kept| :: snapshots[i] == kept[i] && snapshots[i].run.id in known;
    assert forall i | |kept| <= i < |snapshots| :: snapshots[i] == later[i - |kept|] && snapshots[i].run.id !in known;
    var first := FirstNew(snapshots, known);
    assert first < |snapshots| ==> snapshots[first].run.id !in known;
    assert |kept| < |snapshots| ==> snapshots[|kept|].run.id !in known;
  }

  lemma NewestStays(files: seq<Snapshot>, s: Snapshot)
    requires DistinctIds(files) && s in files && forall x | x in files :: x == s || Before(x.run, s.run)
    ensures SortRuns(files) != [] && SortRuns(files)[|SortRuns(files)| - 1] == s
  {
    hide SortRuns, DistinctIds, Ordered, Before;
    SortRunsSorts(files);
    var sorted := SortRuns(files);
    assert s in sorted;
    var i :| 0 <= i < |sorted| && sorted[i] == s;
    if i < |sorted| - 1 {
      LaterIsNotBefore(sorted, i, |sorted| - 1);
    }
  }

  lemma LaterIsNotBefore(runs: seq<Snapshot>, i: nat, j: nat)
    requires Ordered(runs) && i < j < |runs|
    ensures runs[i] != runs[j] && !Before(runs[j].run, runs[i].run)
  {
    assert Before(runs[i].run, runs[j].run);
  }

  lemma AppendKeepsCaughtUp(d: Disk, all: seq<Snapshot>, n: nat, s: Snapshot)
    requires CaughtUpTo(d, all, n) && DistinctIds(all + [s])
    ensures CaughtUpTo(Disk(Without(d.files, {s.run.id}) + [s], d.index), all + [s], n)
  {
    hide Without, FoldAll;
    forall x | x in d.files
      ensures x.run.id != s.run.id
    {
      var i :| 0 <= i < |all| && all[i] == x;
      assert (all + [s])[i].run.id != (all + [s])[|all|].run.id;
    }
    WithoutNothing(d.files, {s.run.id});
    assert (all + [s])[..n] == all[..n];
  }

  /** One call, whether it finishes or stops: what it installed is covered or on disk, and the
      newest snapshot is never dropped. */
  lemma CallKeepsCaughtUp(d: Disk, all: seq<Snapshot>, n: nat, c: Call)
    requires CaughtUpTo(d, all, n) && c.reach > 0
    requires Ordered(all + [c.snapshot]) && DistinctIds(all + [c.snapshot])
    ensures exists m :: CaughtUpTo(AfterCall(d, c), all + [c.snapshot], m)
    ensures c.snapshot in AfterCall(d, c).files
  {
    var s := c.snapshot;
    AppendKeepsCaughtUp(d, all, n, s);
    var files := Without(d.files, {s.run.id}) + [s];
    var grown := all + [s];
    if c.reach == 1 {
      hide CaughtUpTo, Without, Ordered, DistinctIds, LoadView, PrunedBy;
      assert AfterCall(d, c) == Disk(files, d.index);
      assert CaughtUpTo(AfterCall(d, c), grown, n);
    } else {
      hide CaughtUpTo, Without, LoadView, PrunedBy;
      LoadFoldsEverything(Disk(files, d.index), grown, n);
      NewestIsLast(all, s);
      assert AfterCall(d, c) == Disk(Without(files, PrunedBy(files, c)), Some(FoldAll(grown)));
      IndexCoversAll(files, d.index, grown, n, s, c);
    }
  }

  /** Once the index is installed nothing the retention drops is needed. */
  lemma IndexCoversAll(files: seq<Snapshot>, index: Option<IndexView>, all: seq<Snapshot>, n: nat, s: Snapshot, c: Call)
    requires CaughtUpTo(Disk(files, index), all, n) && s in files && c.snapshot == s
    requires forall x | x in all :: x == s || Before(x.run, s.run)
    ensures CaughtUpTo(Disk(Without(files, PrunedBy(files, c)), Some(FoldAll(all))), all, |all|)
    ensures s in Without(files, PrunedBy(files, c))
  {
    hide SortRuns, FoldAll, PrunedBy, Without, Before, DistinctIds;
    assert forall x | x in files :: x in all;
    NewestStays(files, s);
    StillCovered(files, all, PrunedBy(files, c));
    WithoutIsIn(files, PrunedBy(files, c));
  }

  lemma StillCovered(files: seq<Snapshot>, all: seq<Snapshot>, ids: set<RunId>)
    requires DistinctIds(files) && forall x | x in files :: x in all
    ensures CaughtUpTo(Disk(Without(files, ids), Some(FoldAll(all))), all, |all|)
  {
    WithoutIsIn(files, ids);
    hide FoldAll, Without, DistinctIds;
    assert all[..|all|] == all;
  }

  lemma NewestIsLast(all: seq<Snapshot>, s: Snapshot)
    requires Ordered(all + [s])
    ensures forall x | x in all + [s] :: x == s || Before(x.run, s.run)
  {
    var grown := all + [s];
    assert grown[|all|] == s;
    assert forall i | 0 <= i < |all| :: Before(grown[i].run, grown[|all|].run);
  }

  lemma {:induction false} EveryCallCaughtUp(calls: seq<Call>)
    requires Ordered(Installed(calls)) && DistinctIds(Installed(calls))
    ensures exists n :: CaughtUpTo(Calls(calls), Installed(calls), n)
    ensures var all := Installed(calls); all != [] ==> all[|all| - 1] in Calls(calls).files
  {
    if calls == [] {
      assert CaughtUpTo(Calls(calls), [], 0);
    } else {
      var init, c := calls[..|calls| - 1], calls[|calls| - 1];
      var before := Installed(init);
      EarlierInOrder(before, if c.reach == 0 then [] else [c.snapshot]);
      EveryCallCaughtUp(init);
      hide CaughtUpTo, Ordered, DistinctIds;
      if c.reach > 0 {
        hide AfterCall;
        var n :| CaughtUpTo(Calls(init), before, n);
        CallKeepsCaughtUp(Calls(init), before, n, c);
        var m :| CaughtUpTo(AfterCall(Calls(init), c), before + [c.snapshot], m);
        assert CaughtUpTo(Calls(calls), Installed(calls), m);
      } else {
        assert Installed(calls) == before && Calls(calls) == Calls(init);
        hide Calls, Installed;
        var n :| CaughtUpTo(Calls(init), before, n);
        assert CaughtUpTo(Calls(calls), Installed(calls), n);
      }
    }
  }

  lemma EarlierInOrder(a: seq<Snapshot>, b: seq<Snapshot>)
    requires Ordered(a + b) && DistinctIds(a + b)
    ensures Ordered(a) && DistinctIds(a)
  {
    assert forall i | 0 <= i < |a| :: (a + b)[i] == a[i];
  }

  /** Crash safety and transparent retention: after any sequence of calls, each stopped anywhere,
      the loaded index is the fold of every run ever installed, and the newest of them is on disk. */
  lemma CrashSafeRetention(calls: seq<Call>)
    requires Ordered(Installed(calls)) && DistinctIds(Installed(calls))
    ensures LoadView(Calls(calls).files, Calls(calls).index) == FoldAll(Installed(calls))
    ensures var all := Installed(calls); all != [] ==> all[|all| - 1] in Calls(calls).files
  {
    EveryCallCaughtUp(calls);
    hide Calls, Installed, Ordered, DistinctIds, CaughtUpTo;
    var n :| CaughtUpTo(Calls(calls), Installed(calls), n);
    LoadFoldsEverything(Calls(calls), Installed(calls), n);
  }
}
