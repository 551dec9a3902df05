/** A late snapshot after pruning: what a rebuild over the old index loses of the full history, field by field
    (crates/cli/src/history.rs). */
module HistoryPruning {
  import opened Wrappers
  import opened Severities
  import opened History
  import opened HistoryLaws
  import opened HistoryStore

  // ---- what a sequence of runs says of a finding ----

  ghost predicate TouchedIn(runs: seq<Snapshot>, k: Key) {
    exists s :: s in runs && Touches(s, k)
  }

  ghost predicate TrustedIn(runs: seq<Snapshot>, k: Key) {
    exists s :: s in runs && Trusts(s, k)
  }

  ghost predicate SightedIn(runs: seq<Snapshot>, k: Key) {
    exists s :: s in runs && k in SeenOf(s.report)
  }

  ghost predicate NamedIn(runs: seq<Snapshot>, k: Key) {
    exists s :: s in runs && Names(s, k)
  }

  /** A trusted run comes before every touch. */
  ghost predicate TrustedFirst(runs: seq<Snapshot>, k: Key) {
    exists j: nat :: j < |runs| && Trusts(runs[j], k) && !TouchedIn(runs[..j + 1], k)
  }

  /** When the first trusted run was. */
  function FirstTrustAt(runs: seq<Snapshot>, k: Key): Option<Time> {
    if runs == [] then None
    else
      var before, s := FirstTrustAt(runs[..|runs| - 1], k), runs[|runs| - 1];
      if before.Some? then before else if Trusts(s, k) then Some(s.run.at) else None
  }

  lemma InOneMore(init: seq<Snapshot>, s: Snapshot, k: Key)
    ensures var all := init + [s];
      && (TouchedIn(all, k) <==> TouchedIn(init, k) || Touches(s, k))
      && (TrustedIn(all, k) <==> TrustedIn(init, k) || Trusts(s, k))
      && (SightedIn(all, k) <==> SightedIn(init, k) || k in SeenOf(s.report))
      && (NamedIn(all, k) <==> NamedIn(init, k) || Names(s, k))
  {
    hide Touches, Trusts, Names, SeenOf;
    assert forall x :: x in init + [s] <==> x in init || x == s;
  }

  lemma FirstTrustOneMore(init: seq<Snapshot>, s: Snapshot, k: Key)
    ensures FirstTrustAt(init + [s], k) ==
      if FirstTrustAt(init, k).Some? then FirstTrustAt(init, k) else if Trusts(s, k) then Some(s.run.at) else None
    ensures TrustedFirst(init + [s], k) <==> TrustedFirst(init, k) || (Trusts(s, k) && !TouchedIn(init + [s], k))
  {
    hide Touches, Trusts, TouchedIn;
    var all := init + [s];
    assert all[..|init|] == init && all[..|init| + 1] == all;
    assert forall j | 0 <= j < |init| :: all[j] == init[j] && all[..j + 1] == init[..j + 1];
    if TrustedFirst(init, k) {
      var j: nat :| j < |init| && Trusts(init[j], k) && !TouchedIn(init[..j + 1], k);
      assert Trusts(all[j], k) && !TouchedIn(all[..j + 1], k);
    }
    if TrustedFirst(all, k) {
      var j: nat :| j < |all| && Trusts(all[j], k) && !TouchedIn(all[..j + 1], k);
      if j < |init| {
        assert Trusts(init[j], k) && !TouchedIn(init[..j + 1], k);
      }
    }
    if Trusts(s, k) && !TouchedIn(all, k) {
      assert Trusts(all[|init|], k) && !TouchedIn(all[..|init| + 1], k);
    }
  }

  lemma {:induction false} FirstTrustIffTrusted(runs: seq<Snapshot>, k: Key)
    ensures FirstTrustAt(runs, k).Some? <==> TrustedIn(runs, k)
    ensures !TouchedIn(runs, k) ==> (TrustedFirst(runs, k) <==> TrustedIn(runs, k))
  {
    hide Touches, Trusts, TouchedIn, TrustedFirst;
    if runs == [] {
      assert !TrustedFirst(runs, k) by {
        NeverTrustedFirst(k);
      }
    } else {
      var init, s := runs[..|runs| - 1], runs[|runs| - 1];
      assert runs == init + [s];
      FirstTrustIffTrusted(init, k);
      InOneMore(init, s, k);
      FirstTrustOneMore(init, s, k);
    }
  }

  lemma NeverTrustedFirst(k: Key)
    ensures !TrustedFirst([], k)
  {
  }

  // ---- runs after others ----

  ghost predicate DatedFix(e: Option<Entry>) {
    e.Some? ==> (e.value.fixedAt.Some? <==> e.value.status == Fixed)
  }

  /** The entry `was` fixed by the first trusted of the runs, when it is not fixed already. */
  ghost function FixedBy(was: Option<Entry>, runs: seq<Snapshot>, k: Key): Option<Entry> {
    if was.Some? && was.value.status != Fixed && TrustedIn(runs, k) then
      Some(was.value.(status := Fixed, fixedAt := FirstTrustAt(runs, k)))
    else was
  }

  /** How many times a finding comes back within the runs, and once more at their first touch when it was fixed
      by then. */
  ghost function Adds(runs: seq<Snapshot>, k: Key, own: nat, wasFixed: bool): nat {
    if !TouchedIn(runs, k) then 0 else own + if wasFixed || TrustedFirst(runs, k) then 1 else 0
  }

  /** The entry `was` once the runs have touched the finding, `own` being what they make of it by themselves. */
  ghost function TouchedOn(was: Option<Entry>, runs: seq<Snapshot>, k: Key, own: Entry): Entry {
    if was.None? then own
    else
      var w := was.value;
      own.(firstSeen := w.firstSeen,
           severity := if SightedIn(runs, k) then own.severity else w.severity,
           ssvc := if SightedIn(runs, k) then own.ssvc else w.ssvc,
           owner := if NamedIn(runs, k) then own.owner else w.owner,
           reopened := w.reopened + Adds(runs, k, own.reopened, w.status == Fixed))
  }

  /** `full` is what the runs make of `was`, and `own` what they make of nothing. */
  ghost predicate Composes(was: Option<Entry>, runs: seq<Snapshot>, k: Key, own: Option<Entry>, full: Option<Entry>) {
    && DatedFix(own) && DatedFix(full)
    && if TouchedIn(runs, k) then
         && own.Some? && full == Some(TouchedOn(was, runs, k, own.value))
         && (!SightedIn(runs, k) ==> own.value.severity == Unknown && own.value.ssvc.None?)
         && (!NamedIn(runs, k) ==> own.value.owner.None?)
       else own.None? && full == FixedBy(was, runs, k)
  }

  lemma UntouchedComposes(was: Option<Entry>, init: seq<Snapshot>, s: Snapshot, k: Key, own: Option<Entry>,
                      full: Option<Entry>)
    requires DatedFix(was) && Composes(was, init, k, own, full) && !TouchedIn(init, k) && !Touches(s, k)
    ensures Composes(was, init + [s], k, EntryAfter(own, s, k), EntryAfter(full, s, k))
  {
    hide EntryAfter, Touches, Trusts, Names, SeenOf, OwnerOf, TouchedIn, TrustedIn, SightedIn, NamedIn, TrustedFirst,
      FirstTrustAt, TouchedOn;
    StepSummary(own, s, k);
    StepSummary(full, s, k);
    InOneMore(init, s, k);
    FirstTrustOneMore(init, s, k);
    FirstTrustIffTrusted(init, k);
  }

  lemma FirstTouchComposes(was: Option<Entry>, init: seq<Snapshot>, s: Snapshot, k: Key, own: Option<Entry>,
                       full: Option<Entry>)
    requires DatedFix(was) && Composes(was, init, k, own, full) && !TouchedIn(init, k) && Touches(s, k)
    ensures Composes(was, init + [s], k, EntryAfter(own, s, k), EntryAfter(full, s, k))
  {
    hide EntryAfter, Touches, Trusts, Names, SeenOf, OwnerOf, TouchedIn, TrustedIn, SightedIn, NamedIn, TrustedFirst,
      FirstTrustAt;
    StepSummary(own, s, k);
    StepShows(own, s, k);
    StepSummary(full, s, k);
    StepShows(full, s, k);
    InOneMore(init, s, k);
    FirstTrustOneMore(init, s, k);
    FirstTrustIffTrusted(init, k);
    UntouchedSaysNothing(init, k);
  }

  lemma LaterComposes(was: Option<Entry>, init: seq<Snapshot>, s: Snapshot, k: Key, own: Option<Entry>,
                     full: Option<Entry>)
    requires Composes(was, init, k, own, full) && TouchedIn(init, k)
    ensures Composes(was, init + [s], k, EntryAfter(own, s, k), EntryAfter(full, s, k))
  {
    hide EntryAfter, Touches, Trusts, Names, SeenOf, OwnerOf, TouchedIn, TrustedIn, SightedIn, NamedIn, TrustedFirst,
      FirstTrustAt, FixedBy;
    SightingTouches(s, k);
    StepSummary(own, s, k);
    StepShows(own, s, k);
    StepSummary(full, s, k);
    StepShows(full, s, k);
    InOneMore(init, s, k);
    FirstTrustOneMore(init, s, k);
  }

  lemma ComposesStep(was: Option<Entry>, init: seq<Snapshot>, s: Snapshot, k: Key, own: Option<Entry>,
                     full: Option<Entry>)
    requires DatedFix(was) && Composes(was, init, k, own, full)
    ensures Composes(was, init + [s], k, EntryAfter(own, s, k), EntryAfter(full, s, k))
  {
    hide EntryAfter, Touches, Composes, TouchedIn, DatedFix;
    if TouchedIn(init, k) {
      LaterComposes(was, init, s, k, own, full);
    } else if Touches(s, k) {
      FirstTouchComposes(was, init, s, k, own, full);
    } else {
      UntouchedComposes(was, init, s, k, own, full);
    }
  }

  lemma SightingTouches(s: Snapshot, k: Key)
    ensures k in SeenOf(s.report) || Names(s, k) ==> Touches(s, k)
  {
  }

  lemma UntouchedSaysNothing(runs: seq<Snapshot>, k: Key)
    requires !TouchedIn(runs, k)
    ensures !SightedIn(runs, k) && !NamedIn(runs, k)
  {
    hide Touches, SeenOf, Names;
    forall s | s in runs
      ensures !(k in SeenOf(s.report)) && !Names(s, k)
    {
      SightingTouches(s, k);
    }
  }

  /** Runs after others: what they change of a finding depends on the others through its entry alone, and on
      little of that once they touch it. */
  lemma {:induction false} RunsCompose(p: seq<Snapshot>, d: seq<Snapshot>, k: Key)
    ensures Composes(KeyState(p, k), d, k, KeyState(d, k), KeyState(p + d, k))
  {
    FixedHasDate(p, k);
    hide EntryAfter, Composes, DatedFix;
    if d == [] {
      assert p + d == p;
      NothingComposes(KeyState(p, k), k);
    } else {
      var init, s := d[..|d| - 1], d[|d| - 1];
      assert d == init + [s] && p + d == (p + init) + [s];
      RunsCompose(p, init, k);
      ComposesStep(KeyState(p, k), init, s, k, KeyState(init, k), KeyState(p + init, k));
      KeyStateSnoc(p + init, s, k);
      KeyStateSnoc(init, s, k);
    }
  }

  lemma NothingComposes(was: Option<Entry>, k: Key)
    requires DatedFix(was)
    ensures Composes(was, [], k, KeyState([], k), was)
  {
  }

  lemma FixedHasDate(runs: seq<Snapshot>, k: Key)
    ensures DatedFix(KeyState(runs, k))
  {
    ClosedForm(runs, k);
    FoldAllAt(runs, k);
    hide FoldAll, KeyState;
  }

  lemma NeverTouched(d: seq<Snapshot>, k: Key)
    requires !TouchedIn(d, k)
    ensures KeyState(d, k).None?
  {
    RunsCompose([], d, k);
    hide KeyState, TouchedIn;
  }

  // ---- a rebuild, entry by entry ----

  /** What `rebuild` keeps of a finding: what the disk gives, with what only the index knows. */
  function Kept(own: Option<Entry>, indexed: Option<Entry>): Option<Entry> {
    if own.Some? && indexed.Some? then Some(KeepOld(own.value, indexed.value))
    else if own.Some? then own else indexed
  }

  lemma RebuiltAt(d: seq<Snapshot>, v: IndexView, k: Key)
    ensures Lookup(RebuildView(d, Some(v)).entries, k) == Kept(KeyState(d, k), Lookup(v.entries, k))
  {
    FoldAllAt(d, k);
    hide FoldAll, KeepOld, KeyState;
  }

  /** An index of the pruned runs `p` and of the known ones on disk. */
  ghost predicate Indexes(v: IndexView, p: seq<Snapshot>, d: seq<Snapshot>, known: set<RunId>) {
    v.entries == FoldAll(p + Covered(d, known)).entries
  }

  /** The rebuilt entry and the full one, from the entry the pruned runs left and what is on disk. */
  lemma BothFromTheDisk(p: seq<Snapshot>, d: seq<Snapshot>, known: set<RunId>, v: IndexView, k: Key)
    requires Indexes(v, p, d, known)
    ensures var (was, part) := (KeyState(p, k), Covered(d, known));
      var (indexed, full) := (Lookup(v.entries, k), Lookup(FoldAll(p + d).entries, k));
      && Composes(was, part, k, KeyState(part, k), indexed)
      && Composes(was, d, k, KeyState(d, k), full)
      && Lookup(RebuildView(d, Some(v)).entries, k) == Kept(KeyState(d, k), indexed)
    ensures var part := Covered(d, known);
      && (forall x :: x in part <==> x in d && x.run.id in known)
      && (TouchedIn(part, k) ==> TouchedIn(d, k))
      && (SightedIn(part, k) ==> SightedIn(d, k))
      && (NamedIn(part, k) ==> NamedIn(d, k))
  {
    hide FoldAll, KeyState, Composes, Kept, Covered, Touches, SeenOf, Names;
    var part := Covered(d, known);
    CoveredIsIn(d, known);
    RunsCompose(p, d, k);
    RunsCompose(p, part, k);
    FoldAllAt(p + d, k);
    FoldAllAt(p + part, k);
    RebuiltAt(d, v, k);
  }

  // ---- what a rebuild loses, read off the index and the disk ----

  /** A run on disk that the index does not cover, trusted for the finding's repo. */
  ghost predicate LateTrust(d: seq<Snapshot>, known: set<RunId>, k: Key) {
    exists s :: s in d && s.run.id !in known && Trusts(s, k)
  }

  /** No run on disk touches the finding, the index holds it as not fixed, and a late run is trusted for it. */
  ghost predicate LateFixIsLost(d: seq<Snapshot>, known: set<RunId>, v: IndexView, k: Key) {
    k in v.entries && v.entries[k].status != Fixed && !TouchedIn(d, k) && LateTrust(d, known, k)
  }

  /** The same, or the late run is trusted before the fix the index dates. */
  ghost predicate FixDateIsLost(d: seq<Snapshot>, known: set<RunId>, v: IndexView, k: Key) {
    && k in v.entries && !TouchedIn(d, k)
    && exists s :: s in d && s.run.id !in known && Trusts(s, k)
         && (v.entries[k].status != Fixed
             || (v.entries[k].fixedAt.Some? && s.run.at < v.entries[k].fixedAt.value))
  }

  /** Runs on disk touch the finding without sighting it, and the index has a rating. */
  ghost predicate RatingIsLost(d: seq<Snapshot>, v: IndexView, k: Key) {
    && k in v.entries && TouchedIn(d, k) && !SightedIn(d, k)
    && (v.entries[k].severity, v.entries[k].ssvc) != (Unknown, None)
  }

  /** Runs on disk touch the finding without naming an owner, and the index has one. */
  ghost predicate OwnerIsLost(d: seq<Snapshot>, v: IndexView, k: Key) {
    k in v.entries && TouchedIn(d, k) && !NamedIn(d, k) && v.entries[k].owner.Some?
  }

  /** The reopenings the runs add to a finding that was fixed before them, or was not. */
  ghost function AddsFrom(runs: seq<Snapshot>, k: Key, wasFixed: bool): nat {
    if KeyState(runs, k).Some? then Adds(runs, k, KeyState(runs, k).value.reopened, wasFixed) else 0
  }

  /** Pruned runs touched the finding before the disk does, the disk adds more reopenings than the known runs on
      it do, and what the disk shows by itself does not make up for that. Whether the pruned runs left the
      finding fixed is `wasFixed`. */
  ghost predicate ReopeningIsLost(d: seq<Snapshot>, known: set<RunId>, v: IndexView, k: Key, wasFixed: bool) {
    && k in v.entries && KeyState(d, k).Some? && v.entries[k].firstSeen < KeyState(d, k).value.firstSeen
    && var part := Covered(d, known);
       && AddsFrom(d, k, wasFixed) > AddsFrom(part, k, wasFixed)
       && v.entries[k].reopened + AddsFrom(d, k, wasFixed)
            > AddsFrom(part, k, wasFixed) + KeyState(d, k).value.reopened
  }

  /** Whatever the times: the rebuild knows the findings of the full fold, and status, rating and owner of one
      differ exactly as the guards say. */
  lemma LateAfterPruningDiffersIff(p: seq<Snapshot>, d: seq<Snapshot>, known: set<RunId>, v: IndexView, k: Key)
    requires Indexes(v, p, d, known)
    ensures var rebuilt, full := Lookup(RebuildView(d, Some(v)).entries, k), Lookup(FoldAll(p + d).entries, k);
      && (rebuilt.Some? <==> full.Some?)
      && (full.Some? ==>
           && (rebuilt.value.status != full.value.status <==> LateFixIsLost(d, known, v, k))
           && ((rebuilt.value.severity, rebuilt.value.ssvc) != (full.value.severity, full.value.ssvc)
               <==> RatingIsLost(d, v, k))
           && (rebuilt.value.owner != full.value.owner <==> OwnerIsLost(d, v, k)))
  {
    hide FoldAll, KeyState, Covered, RebuildView, TouchedIn, TrustedIn, SightedIn, NamedIn, LateTrust, FirstTrustAt,
      TrustedFirst, Indexes;
    BothFromTheDisk(p, d, known, v, k);
    TrustedSplit(d, Covered(d, known), known, k);
  }

  lemma TrustedSplit(d: seq<Snapshot>, part: seq<Snapshot>, known: set<RunId>, k: Key)
    requires forall x :: x in part <==> x in d && x.run.id in known
    ensures TrustedIn(d, k) <==> TrustedIn(part, k) || LateTrust(d, known, k)
  {
    hide Trusts;
  }

  // ---- the times ----

  lemma TimesApart(p: seq<Snapshot>, d: seq<Snapshot>)
    requires IncreasingTimes(p + d)
    ensures IncreasingTimes(p) && IncreasingTimes(d)
    ensures forall x, y | x in p && y in d :: x.run.at < y.run.at
  {
    var all := p + d;
    assert forall i | 0 <= i < |p| :: all[i] == p[i];
    assert forall i | 0 <= i < |d| :: all[|p| + i] == d[i];
  }

  lemma {:induction false} FirstSeenInRuns(runs: seq<Snapshot>, k: Key)
    requires KeyState(runs, k).Some?
    ensures exists s :: s in runs && KeyState(runs, k).value.firstSeen == s.run.at
  {
    hide EntryAfter, Touches, Trusts;
    var init, s := runs[..|runs| - 1], runs[|runs| - 1];
    StepSummary(KeyState(init, k), s, k);
    assert runs == init + [s] && s in runs;
    if KeyState(init, k).Some? {
      FirstSeenInRuns(init, k);
    }
  }

  lemma {:induction false} FirstTrustInRuns(runs: seq<Snapshot>, k: Key)
    requires FirstTrustAt(runs, k).Some?
    ensures exists s :: s in runs && Trusts(s, k) && FirstTrustAt(runs, k).value == s.run.at
  {
    hide Trusts;
    var init, s := runs[..|runs| - 1], runs[|runs| - 1];
    assert runs == init + [s] && s in runs;
    if FirstTrustAt(init, k).Some? {
      FirstTrustInRuns(init, k);
    }
  }

  /** A run that is late and trusted earlier than any known one. */
  ghost predicate EarlierLateTrust(d: seq<Snapshot>, known: set<RunId>, k: Key, first: Option<Time>) {
    exists s :: s in d && s.run.id !in known && Trusts(s, k) && (first.None? || s.run.at < first.value)
  }

  lemma {:induction false} FirstTrustDiffersIff(d: seq<Snapshot>, known: set<RunId>, k: Key)
    requires IncreasingTimes(d)
    ensures var first := FirstTrustAt(Covered(d, known), k);
      FirstTrustAt(d, k) != first <==> EarlierLateTrust(d, known, k, first)
  {
    hide Trusts, FirstTrustAt, Covered, EarlierLateTrust;
    if d == [] {
      NoTrust(known, k);
    } else {
      var init, s := d[..|d| - 1], d[|d| - 1];
      assert d == init + [s];
      TimesApart(init, [s]);
      FirstTrustDiffersIff(init, known, k);
      FirstTrustStep(init, s, known, k);
    }
  }

  lemma NoTrust(known: set<RunId>, k: Key)
    ensures FirstTrustAt([], k) == None && Covered([], known) == []
    ensures forall first :: !EarlierLateTrust([], known, k, first)
  {
  }

  /** The same for one more run, later than the others. */
  lemma FirstTrustStep(init: seq<Snapshot>, s: Snapshot, known: set<RunId>, k: Key)
    requires forall x | x in init :: x.run.at < s.run.at
    requires var first := FirstTrustAt(Covered(init, known), k);
      FirstTrustAt(init, k) != first <==> EarlierLateTrust(init, known, k, first)
    ensures var first := FirstTrustAt(Covered(init + [s], known), k);
      FirstTrustAt(init + [s], k) != first <==> EarlierLateTrust(init + [s], known, k, first)
  {
    hide Trusts, FirstTrustAt, Covered, EarlierLateTrust, TrustedFirst;
    var part := Covered(init, known);
    CoveredIsIn(init, known);
    CoveredConcat(init, [s], known);
    CoveredOne(s, known);
    FirstTrustOneMore(init, s, k);
    FirstTrustOneMore(part, s, k);
    assert part + [] == part;
    FirstTrustBefore(init, s.run.at, k);
    FirstTrustBefore(part, s.run.at, k);
    EarlierOneMore(init, s, known, k, FirstTrustAt(part, k));
    EarlierOneMore(init, s, known, k, Some(s.run.at));
    EarlierThanAll(init, known, k, s.run.at);
  }

  lemma CoveredOne(s: Snapshot, known: set<RunId>)
    ensures Covered([s], known) == if s.run.id in known then [s] else []
  {
    assert [s][..0] == [];
  }

  lemma FirstTrustBefore(runs: seq<Snapshot>, at: Time, k: Key)
    requires forall x | x in runs :: x.run.at < at
    ensures FirstTrustAt(runs, k).Some? ==> FirstTrustAt(runs, k).value < at
  {
    hide FirstTrustAt, Trusts;
    if FirstTrustAt(runs, k).Some? {
      FirstTrustInRuns(runs, k);
    }
  }

  lemma EarlierThanAll(runs: seq<Snapshot>, known: set<RunId>, k: Key, at: Time)
    requires forall x | x in runs :: x.run.at < at
    ensures EarlierLateTrust(runs, known, k, Some(at)) <==> EarlierLateTrust(runs, known, k, None)
  {
    hide Trusts;
  }

  lemma EarlierOneMore(init: seq<Snapshot>, s: Snapshot, known: set<RunId>, k: Key, first: Option<Time>)
    ensures EarlierLateTrust(init + [s], known, k, first) <==>
      EarlierLateTrust(init, known, k, first)
      || (s.run.id !in known && Trusts(s, k) && (first.None? || s.run.at < first.value))
  {
    hide Trusts;
    assert forall x :: x in init + [s] <==> x in init || x == s;
  }

  /** With increasing times the fix date differs exactly when a late run on disk is trusted before the fix the
      index dates, or it dates none, and no run on disk touches the finding. */
  lemma FixDateDiffersIff(p: seq<Snapshot>, d: seq<Snapshot>, known: set<RunId>, v: IndexView, k: Key)
    requires Indexes(v, p, d, known) && IncreasingTimes(p + d)
    ensures var rebuilt, full := Lookup(RebuildView(d, Some(v)).entries, k), Lookup(FoldAll(p + d).entries, k);
      && (rebuilt.Some? <==> full.Some?)
      && (full.Some? ==> (rebuilt.value.fixedAt != full.value.fixedAt <==> FixDateIsLost(d, known, v, k)))
  {
    BothFromTheDisk(p, d, known, v, k);
    TimesApart(p, d);
    FixedHasDate(p, k);
    FirstTrustDiffersIff(d, known, k);
    FirstTrustIffTrusted(d, k);
    FirstTrustIffTrusted(Covered(d, known), k);
    FixBeforeDisk(p, d, k);
    var was := KeyState(p, k);
    hide FoldAll, KeyState, Covered, RebuildView, TouchedIn, TrustedIn, SightedIn, NamedIn, FirstTrustAt, TrustedFirst,
      Indexes, IncreasingTimes, Trusts;
    if !TouchedIn(d, k) && was.Some? {
      var indexed := Lookup(v.entries, k);
      FixDateGuard(d, known, v, k, was.value, FirstTrustAt(Covered(d, known), k));
    }
  }

  lemma FixBeforeDisk(p: seq<Snapshot>, d: seq<Snapshot>, k: Key)
    requires IncreasingTimes(p + d)
    ensures var was := KeyState(p, k);
      was.Some? && was.value.fixedAt.Some? ==> forall s | s in d :: was.value.fixedAt.value < s.run.at
  {
    TimesApart(p, d);
    FixedHasDate(p, k);
    FoldAllAt(p, k);
    hide FoldAll, KeyState, IncreasingTimes;
    var was := KeyState(p, k);
    if was.Some? && was.value.fixedAt.Some? {
      forall s | s in d
        ensures was.value.fixedAt.value < s.run.at
      {
        assert forall i | 0 <= i < |p| :: p[i] in p;
        FixedNoLaterThan(p, k, was.value, s.run.at);
      }
    }
  }

  /** The guard on the fix date, by the entry the pruned runs left: a fix of theirs is before every run on disk. */
  lemma FixDateGuard(d: seq<Snapshot>, known: set<RunId>, v: IndexView, k: Key, was: Entry, first: Option<Time>)
    requires k in v.entries && !TouchedIn(d, k) && (was.fixedAt.Some? <==> was.status == Fixed)
    requires was.fixedAt.Some? ==> forall s | s in d :: was.fixedAt.value < s.run.at
    requires v.entries[k] ==
      if was.status != Fixed && first.Some? then was.(status := Fixed, fixedAt := first) else was
    ensures FixDateIsLost(d, known, v, k) <==> was.status != Fixed && EarlierLateTrust(d, known, k, first)
  {
    hide TouchedIn, Trusts;
  }

  /** Inserting runs after others never makes a finding younger nor forgets that it came back. */
  lemma {:induction false} InsertionAfterDominates(p: seq<Snapshot>, d: seq<Snapshot>, known: set<RunId>, k: Key)
    requires NonDecreasing(p + d)
    ensures Dominates(KeyState(p + d, k), KeyState(p + Covered(d, known), k))
  {
    hide EntryAfter;
    if d == [] {
      assert p + d == p && p + Covered(d, known) == p;
    } else {
      hide Dominates;
      var init, s := d[..|d| - 1], d[|d| - 1];
      var all, part := p + init, Covered(init, known);
      assert p + d == all + [s];
      assert forall i | 0 <= i < |all| :: all[i] == (p + d)[i];
      InsertionAfterDominates(p, init, known, k);
      if all != [] {
        FirstSeenBound(all, k);
        assert (p + d)[|all|] == s;
      }
      DominatesStep(KeyState(all, k), KeyState(p + part, k), s, k);
      KeyStateSnoc(all, s, k);
      if s.run.id in known {
        assert p + Covered(d, known) == (p + part) + [s];
        KeyStateSnoc(p + part, s, k);
      } else {
        assert Covered(d, known) == part;
      }
    }
  }

  lemma IncreasingIsNonDecreasing(runs: seq<Snapshot>)
    requires IncreasingTimes(runs)
    ensures NonDecreasing(runs)
  {
  }

  /** With increasing times: first and last sightings never differ, and the reopening count exactly when the
      guard says, given whether the pruned runs left the finding fixed. */
  lemma ReopeningDiffersIff(p: seq<Snapshot>, d: seq<Snapshot>, known: set<RunId>, v: IndexView, k: Key)
    requires Indexes(v, p, d, known) && IncreasingTimes(p + d)
    ensures var rebuilt, full := Lookup(RebuildView(d, Some(v)).entries, k), Lookup(FoldAll(p + d).entries, k);
      var was := KeyState(p, k);
      && (rebuilt.Some? <==> full.Some?)
      && (full.Some? ==>
           && rebuilt.value.firstSeen == full.value.firstSeen && rebuilt.value.lastSeen == full.value.lastSeen
           && (rebuilt.value.reopened != full.value.reopened <==>
                ReopeningIsLost(d, known, v, k, was.Some? && was.value.status == Fixed)))
  {
    BothFromTheDisk(p, d, known, v, k);
    TimesApart(p, d);
    IncreasingIsNonDecreasing(p + d);
    IncreasingIsNonDecreasing(d);
    InsertionDominates(d, known, k);
    InsertionAfterDominates(p, d, known, k);
    FoldAllAt(p + d, k);
    FoldAllAt(p + Covered(d, known), k);
    PrunedSeenFirst(p, d, k);
    hide FoldAll, KeyState, Covered, RebuildView, TouchedIn, Composes, Dominates, IncreasingTimes, NonDecreasing, Kept,
      ReopeningIsLost;
    var part := Covered(d, known);
    var was, own, ownPart := KeyState(p, k), KeyState(d, k), KeyState(part, k);
    var indexed, full := Lookup(v.entries, k), Lookup(FoldAll(p + d).entries, k);
    if TouchedIn(d, k) {
      if was.Some? {
        TouchedBoth(was.value, own, ownPart, indexed, full, d, part, known, v, k);
      } else {
        TouchedOnDiskOnly(own, ownPart, indexed, full, d, part, known, v, k);
      }
    } else {
      OffTheDisk(was, own, ownPart, indexed, full, d, part, known, v, k);
    }
  }

  /** Times and reopenings of the rebuilt entry against the full one. */
  ghost predicate CountsAgree(own: Option<Entry>, indexed: Option<Entry>, full: Option<Entry>, lost: bool) {
    var rebuilt := Kept(own, indexed);
    && (rebuilt.Some? <==> full.Some?)
    && (full.Some? ==>
         && rebuilt.value.firstSeen == full.value.firstSeen && rebuilt.value.lastSeen == full.value.lastSeen
         && (rebuilt.value.reopened != full.value.reopened <==> lost))
  }

  lemma OffTheDisk(was: Option<Entry>, own: Option<Entry>, ownPart: Option<Entry>, indexed: Option<Entry>,
                   full: Option<Entry>, d: seq<Snapshot>, part: seq<Snapshot>, known: set<RunId>, v: IndexView, k: Key)
    requires !TouchedIn(d, k) && !TouchedIn(part, k) && own == KeyState(d, k) && indexed == Lookup(v.entries, k)
    requires Composes(was, d, k, own, full) && Composes(was, part, k, ownPart, indexed)
    ensures CountsAgree(own, indexed, full, ReopeningIsLost(d, known, v, k, was.Some? && was.value.status == Fixed))
  {
    hide KeyState, Covered, TouchedIn, TrustedIn, FirstTrustAt, Adds;
  }

  lemma TouchedOnDiskOnly(own: Option<Entry>, ownPart: Option<Entry>, indexed: Option<Entry>, full: Option<Entry>,
                          d: seq<Snapshot>, part: seq<Snapshot>, known: set<RunId>, v: IndexView, k: Key)
    requires TouchedIn(d, k) && own == KeyState(d, k) && indexed == Lookup(v.entries, k)
    requires Composes(None, d, k, own, full) && Composes(None, part, k, ownPart, indexed) && Dominates(own, ownPart)
    ensures CountsAgree(own, indexed, full, ReopeningIsLost(d, known, v, k, false))
  {
    hide KeyState, Covered, TouchedIn, TrustedIn, FirstTrustAt, Adds;
  }

  lemma TouchedBoth(was: Entry, own: Option<Entry>, ownPart: Option<Entry>, indexed: Option<Entry>, full: Option<Entry>,
                    d: seq<Snapshot>, part: seq<Snapshot>, known: set<RunId>, v: IndexView, k: Key)
    requires TouchedIn(d, k) && own == KeyState(d, k) && part == Covered(d, known) && ownPart == KeyState(part, k)
    requires indexed == Lookup(v.entries, k) && own.Some? && was.firstSeen < own.value.firstSeen
    requires Composes(Some(was), d, k, own, full) && Composes(Some(was), part, k, ownPart, indexed)
    requires Dominates(full, indexed)
    ensures CountsAgree(own, indexed, full, ReopeningIsLost(d, known, v, k, was.status == Fixed))
  {
    hide KeyState, Covered, TouchedIn, TrustedIn, FirstTrustAt, TrustedFirst, SightedIn, NamedIn;
  }

  lemma PrunedSeenFirst(p: seq<Snapshot>, d: seq<Snapshot>, k: Key)
    requires IncreasingTimes(p + d)
    ensures KeyState(p, k).Some? && KeyState(d, k).Some? ==>
      KeyState(p, k).value.firstSeen < KeyState(d, k).value.firstSeen
  {
    TimesApart(p, d);
    hide KeyState, IncreasingTimes;
    if KeyState(p, k).Some? && KeyState(d, k).Some? {
      FirstSeenInRuns(p, k);
      FirstSeenInRuns(d, k);
    }
  }

  /** The whole entry: with increasing times a rebuild agrees with the full fold on a finding exactly when it
      loses neither fix date, nor rating, nor owner, nor a reopening. A lost fix is a lost fix date. */
  lemma RebuiltEntryDiffersIff(p: seq<Snapshot>, d: seq<Snapshot>, known: set<RunId>, v: IndexView, k: Key)
    requires Indexes(v, p, d, known) && IncreasingTimes(p + d)
    ensures var rebuilt, full := Lookup(RebuildView(d, Some(v)).entries, k), Lookup(FoldAll(p + d).entries, k);
      var was := KeyState(p, k);
      && (rebuilt.Some? <==> full.Some?)
      && (rebuilt != full <==>
           || FixDateIsLost(d, known, v, k)
           || RatingIsLost(d, v, k)
           || OwnerIsLost(d, v, k)
           || ReopeningIsLost(d, known, v, k, was.Some? && was.value.status == Fixed))
    ensures LateFixIsLost(d, known, v, k) ==> FixDateIsLost(d, known, v, k)
  {
    hide FoldAll, KeyState, Covered, RebuildView, TouchedIn, RatingIsLost, OwnerIsLost, ReopeningIsLost, Indexes,
      IncreasingTimes, Trusts, FixDateIsLost, LateFixIsLost;
    LateAfterPruningDiffersIff(p, d, known, v, k);
    FixDateDiffersIff(p, d, known, v, k);
    ReopeningDiffersIff(p, d, known, v, k);
    EntryGuards(d, known, v, k);
    RebuiltAt(d, v, k);
    var rebuilt, full := Lookup(RebuildView(d, Some(v)).entries, k), Lookup(FoldAll(p + d).entries, k);
    if full.Some? {
      SameEntry(rebuilt.value, full.value);
    }
  }

  /** Something of the finding is lost. */
  ghost predicate IsLost(p: seq<Snapshot>, d: seq<Snapshot>, known: set<RunId>, v: IndexView, k: Key) {
    || FixDateIsLost(d, known, v, k)
    || RatingIsLost(d, v, k)
    || OwnerIsLost(d, v, k)
    || ReopeningIsLost(d, known, v, k, KeyState(p, k).Some? && KeyState(p, k).value.status == Fixed)
  }

  /** So a rebuild after pruning is the full fold exactly when nothing of any finding is lost. */
  lemma RebuildIsExactIff(p: seq<Snapshot>, d: seq<Snapshot>, known: set<RunId>, v: IndexView)
    requires Indexes(v, p, d, known) && IncreasingTimes(p + d)
    ensures RebuildView(d, Some(v)).entries == FoldAll(p + d).entries <==> forall k :: !IsLost(p, d, known, v, k)
  {
    hide FoldAll, KeyState, RebuildView, FixDateIsLost, RatingIsLost, OwnerIsLost, ReopeningIsLost, Indexes,
      IncreasingTimes;
    var rebuilt, full := RebuildView(d, Some(v)).entries, FoldAll(p + d).entries;
    forall k
      ensures Lookup(rebuilt, k) != Lookup(full, k) <==> IsLost(p, d, known, v, k)
    {
      RebuiltEntryDiffersIff(p, d, known, v, k);
    }
    if forall k :: !IsLost(p, d, known, v, k) {
      forall k
        ensures k in rebuilt <==> k in full
        ensures k in rebuilt && k in full ==> rebuilt[k] == full[k]
      {
        assert !IsLost(p, d, known, v, k);
      }
    }
  }

  lemma SameEntry(a: Entry, b: Entry)
    ensures a == b <==>
      && a.status == b.status && (a.severity, a.ssvc) == (b.severity, b.ssvc) && a.owner == b.owner
      && a.firstSeen == b.firstSeen && a.lastSeen == b.lastSeen && a.fixedAt == b.fixedAt && a.reopened == b.reopened
  {
  }

  lemma EntryGuards(d: seq<Snapshot>, known: set<RunId>, v: IndexView, k: Key)
    ensures LateFixIsLost(d, known, v, k) ==> FixDateIsLost(d, known, v, k)
    ensures FixDateIsLost(d, known, v, k) || RatingIsLost(d, v, k) || OwnerIsLost(d, v, k) ==> k in v.entries
    ensures forall wasFixed :: ReopeningIsLost(d, known, v, k, wasFixed) ==> k in v.entries
  {
    hide TouchedIn, Trusts, SightedIn, NamedIn, KeyState, Covered;
  }

  // ---- the one bit ----

  /** While no known run on disk touches the finding, the index shows whether the pruned runs left it fixed. */
  lemma WasFixedIsReadable(p: seq<Snapshot>, d: seq<Snapshot>, known: set<RunId>, v: IndexView, k: Key)
    requires Indexes(v, p, d, known) && IncreasingTimes(p + d) && !TouchedIn(Covered(d, known), k)
    ensures KeyState(p, k).Some? && KeyState(p, k).value.status == Fixed <==>
      k in v.entries && v.entries[k].status == Fixed
      && forall s | s in d :: v.entries[k].fixedAt.Some? && v.entries[k].fixedAt.value < s.run.at
  {
    BothFromTheDisk(p, d, known, v, k);
    FixedHasDate(p, k);
    FixBeforeDisk(p, d, k);
    var part := Covered(d, known);
    FirstTrustIffTrusted(part, k);
    if FirstTrustAt(part, k).Some? {
      FirstTrustInRuns(part, k);
    }
    hide FoldAll, KeyState, Covered, RebuildView, TouchedIn, TrustedIn, FirstTrustAt, IncreasingTimes, Trusts, Indexes;
  }

  /** When one does, the bit does not matter if a trusted run comes before the first touch both on disk and among
      the known runs on it, or neither. */
  lemma WasFixedDoesNotMatter(d: seq<Snapshot>, known: set<RunId>, v: IndexView, k: Key)
    requires TouchedIn(Covered(d, known), k) && (TrustedFirst(d, k) <==> TrustedFirst(Covered(d, known), k))
    ensures ReopeningIsLost(d, known, v, k, true) <==> ReopeningIsLost(d, known, v, k, false)
  {
    TouchedHasState(Covered(d, known), k);
    assert TouchedIn(d, k) by {
      hide Touches, Covered;
      CoveredIsIn(d, known);
    }
    TouchedHasState(d, k);
    hide KeyState, Covered, TouchedIn, TrustedFirst;
    var part := Covered(d, known);
    assert AddsFrom(d, k, true) - AddsFrom(part, k, true) == AddsFrom(d, k, false) - AddsFrom(part, k, false);
    hide AddsFrom;
  }

  lemma TouchedHasState(d: seq<Snapshot>, k: Key)
    requires TouchedIn(d, k)
    ensures KeyState(d, k).Some?
  {
    RunsCompose([], d, k);
    hide KeyState, TouchedIn;
  }

  /** Otherwise nothing tells it: after runs that differ only in a last touch `c`, pruned, the index holds the same
      of the finding and the disk is the same, but the full history has it back once more. */
  lemma NeitherTellsTheReopening(a: Snapshot, b: Snapshot, c: Snapshot, late: Snapshot, y: Snapshot, k: Key)
    requires Touches(a, k) && Touches(c, k) && Touches(y, k) && !Touches(b, k) && !Touches(late, k)
    requires Trusts(b, k) && Trusts(late, k) && !Trusts(y, k)
    requires k in SeenOf(y.report) && Names(y, k)
    ensures KeyState([a, b, y], k).Some? && KeyState([a, b, y], k) == KeyState([a, b, c, y], k)
    ensures KeyState([a, b, late, y], k).Some? && KeyState([a, b, late, y], k).value.reopened == 1
    ensures KeyState([a, b, c, late, y], k).Some? && KeyState([a, b, c, late, y], k).value.reopened == 2
  {
    hide EntryAfter, Touches, Trusts, Names, SeenOf, OwnerOf, KeyState;
    NoRunsState(k);
    SnocShows([], a, k);
    SnocShows([a], b, k);
    SnocShows([a, b], y, k);
    SnocShows([a, b], c, k);
    SnocShows([a, b, c], y, k);
    SnocShows([a, b], late, k);
    SnocShows([a, b, late], y, k);
    SnocShows([a, b, c], late, k);
    SnocShows([a, b, c, late], y, k);
    assert [] + [a] == [a] && [a] + [b] == [a, b] && [a, b] + [y] == [a, b, y] && [a, b] + [c] == [a, b, c];
    assert [a, b, c] + [y] == [a, b, c, y] && [a, b] + [late] == [a, b, late];
    assert [a, b, late] + [y] == [a, b, late, y] && [a, b, c] + [late] == [a, b, c, late];
    assert [a, b, c, late] + [y] == [a, b, c, late, y];
  }

  lemma NoRunsState(k: Key)
    ensures KeyState([], k) == None
  {
  }

  lemma SnocShows(runs: seq<Snapshot>, s: Snapshot, k: Key)
    ensures KeyState(runs + [s], k) == EntryAfter(KeyState(runs, k), s, k)
    ensures var (prior, after) := (KeyState(runs, k), KeyState(runs + [s], k));
      if Touches(s, k) then
        && after.Some?
        && after.value.status == (if k in s.suppressed then Ignored else Open)
        && after.value.lastSeen == s.run.at
        && after.value.firstSeen == (if prior.Some? then prior.value.firstSeen else s.run.at)
        && after.value.fixedAt == (if prior.Some? && prior.value.status != Fixed then prior.value.fixedAt else None)
        && after.value.reopened == (
             if prior.None? then 0 else prior.value.reopened + if prior.value.status == Fixed then 1 else 0)
        && (k in SeenOf(s.report) ==>
             (after.value.severity, after.value.ssvc) == (SeenOf(s.report)[k].severity, SeenOf(s.report)[k].ssvc))
        && (Names(s, k) ==> after.value.owner == OwnerOf(s.report.contexts, k.repo))
      else if prior.Some? && prior.value.status != Fixed && Trusts(s, k) then
        after == Some(prior.value.(status := Fixed, fixedAt := Some(s.run.at)))
      else
        after == prior
  {
    KeyStateSnoc(runs, s, k);
    StepSummary(KeyState(runs, k), s, k);
    StepShows(KeyState(runs, k), s, k);
    hide EntryAfter, Touches, Trusts, Names, SeenOf, OwnerOf, KeyState;
  }

  // ---- pruned runs anywhere in the history ----

  lemma {:induction false} LastSeenBound(runs: seq<Snapshot>, k: Key)
    requires IncreasingTimes(runs) && KeyState(runs, k).Some?
    ensures runs != [] && KeyState(runs, k).value.lastSeen <= runs[|runs| - 1].run.at
  {
    hide EntryAfter, Touches, Trusts;
    var init := runs[..|runs| - 1];
    StepSummary(KeyState(init, k), runs[|runs| - 1], k);
    if KeyState(init, k).Some? {
      LastSeenBound(init, k);
    }
  }

  /** A run the index does not cover, trusted for the finding's repo, after `since`. */
  ghost predicate LateTrustAfter(runs: seq<Snapshot>, known: set<RunId>, k: Key, since: Time) {
    exists s :: s in runs && s.run.id !in known && Trusts(s, k) && s.run.at > since
  }

  /** Where the index covers every touch, the full fold differs from it by the fix of a later trusted run only. */
  ghost predicate OnlyALateFix(full: Option<Entry>, part: Option<Entry>, runs: seq<Snapshot>, known: set<RunId>,
                               k: Key)
  {
    && (full.Some? <==> part.Some?)
    && (full.Some? ==>
         && full.value.lastSeen == part.value.lastSeen
         && full.value.status ==
              if LateTrustAfter(runs, known, k, part.value.lastSeen) then Fixed else part.value.status)
  }

  lemma OnlyALateFixStep(init: seq<Snapshot>, s: Snapshot, known: set<RunId>, k: Key, full: Option<Entry>,
                         part: Option<Entry>)
    requires OnlyALateFix(full, part, init, known, k)
    requires forall x | x in init :: x.run.at < s.run.at
    requires part.Some? ==> part.value.lastSeen < s.run.at
    requires Touches(s, k) ==> s.run.id in known
    ensures OnlyALateFix(EntryAfter(full, s, k), if s.run.id in known then EntryAfter(part, s, k) else part,
                         init + [s], known, k)
  {
    hide EntryAfter, Touches, Trusts;
    StepSummary(full, s, k);
    StepSummary(part, s, k);
    var all := init + [s];
    assert forall x :: x in all <==> x in init || x == s;
    if part.Some? && !Touches(s, k) {
      assert LateTrustAfter(all, known, k, part.value.lastSeen) <==>
        LateTrustAfter(init, known, k, part.value.lastSeen) || (s.run.id !in known && Trusts(s, k));
    }
  }

  lemma {:induction false} IndexCoversTheTouches(all: seq<Snapshot>, known: set<RunId>, k: Key)
    requires IncreasingTimes(all) && forall s | s in all && Touches(s, k) :: s.run.id in known
    ensures OnlyALateFix(KeyState(all, k), KeyState(Covered(all, known), k), all, known, k)
  {
    hide EntryAfter, Touches, Trusts, OnlyALateFix;
    if all == [] {
      NothingLate(known, k);
    } else {
      var init, s := all[..|all| - 1], all[|all| - 1];
      assert all == init + [s];
      assert forall i | 0 <= i < |init| :: init[i] == all[i];
      IndexCoversTheTouches(init, known, k);
      var part := Covered(init, known);
      SameLastSeen(KeyState(init, k), KeyState(part, k), init, known, k);
      if KeyState(init, k).Some? {
        LastSeenBound(init, k);
      }
      OnlyALateFixStep(init, s, known, k, KeyState(init, k), KeyState(part, k));
      KeyStateSnoc(init, s, k);
      KeyStateSnoc(part, s, k);
      assert all[..|all| - 1] == init;
      if s.run.id in known {
        assert Covered(all, known) == part + [s];
      } else {
        assert Covered(all, known) == part + [] == part;
      }
    }
  }

  lemma NothingLate(known: set<RunId>, k: Key)
    ensures OnlyALateFix(KeyState([], k), KeyState(Covered([], known), k), [], known, k)
  {
  }

  lemma SameLastSeen(full: Option<Entry>, part: Option<Entry>, runs: seq<Snapshot>, known: set<RunId>, k: Key)
    requires OnlyALateFix(full, part, runs, known, k)
    ensures part.Some? <==> full.Some?
    ensures part.Some? ==> part.value.lastSeen == full.value.lastSeen
  {
  }

  /** Each pruned run that concerns the finding comes before some touch of it that is on disk. */
  ghost predicate PrunedBeforeATouch(all: seq<Snapshot>, disk: set<RunId>, k: Key) {
    forall j | 0 <= j < |all| && all[j].run.id !in disk && (Touches(all[j], k) || Trusts(all[j], k)) ::
      exists i :: j < i < |all| && all[i].run.id in disk && Touches(all[i], k)
  }

  /** A touch on disk decides the status when no pruned run after it concerns the finding. */
  lemma {:induction false} TouchOnDiskDecides(all: seq<Snapshot>, disk: set<RunId>, k: Key)
    requires TouchedIn(Covered(all, disk), k) && PrunedBeforeATouch(all, disk, k)
    ensures KeyState(all, k).Some? && KeyState(Covered(all, disk), k).Some?
    ensures KeyState(all, k).value.status == KeyState(Covered(all, disk), k).value.status
  {
    hide EntryAfter, Touches, Trusts;
    CoveredIsIn(all, disk);
    var init, s := all[..|all| - 1], all[|all| - 1];
    var part := Covered(init, disk);
    assert all == init + [s];
    KeyStateSnoc(init, s, k);
    KeyStateSnoc(part, s, k);
    StepSummary(KeyState(init, k), s, k);
    StepSummary(KeyState(part, k), s, k);
    if s.run.id in disk && Touches(s, k) {
      assert Covered(all, disk) == part + [s];
    } else {
      CoveredIsIn(init, disk);
      StillTouched(init, s, part, disk, k);
      TouchOnDiskDecides(init, disk, k);
      if s.run.id in disk {
        assert Covered(all, disk) == part + [s];
      } else {
        assert all[|init|] == s;
        assert Covered(all, disk) == part + [] == part;
      }
    }
  }

  lemma StillTouched(init: seq<Snapshot>, s: Snapshot, part: seq<Snapshot>, disk: set<RunId>, k: Key)
    requires part == Covered(init, disk)
    requires TouchedIn(Covered(init + [s], disk), k) && PrunedBeforeATouch(init + [s], disk, k)
    requires !(s.run.id in disk && Touches(s, k))
    ensures TouchedIn(part, k) && PrunedBeforeATouch(init, disk, k)
  {
    hide Touches, Trusts;
    var all := init + [s];
    CoveredIsIn(all, disk);
    CoveredIsIn(init, disk);
    var x :| x in Covered(all, disk) && Touches(x, k);
    assert x in init && x in part;
    forall j | 0 <= j < |init| && init[j].run.id !in disk && (Touches(init[j], k) || Trusts(init[j], k))
      ensures exists i :: j < i < |init| && init[i].run.id in disk && Touches(init[i], k)
    {
      assert all[j] == init[j];
      var i :| j < i < |all| && all[i].run.id in disk && Touches(all[i], k);
      assert i < |init| && init[i] == all[i];
    }
  }

  /** The status alone, wherever the pruned runs stand in the history, runs being told apart by their times: a
      finding no run on disk touches has another status exactly when a late trusted run after its last touch
      brings a fix; one that is touched on disk has the same status unless a pruned run after that touch concerns
      it, which neither the index nor the disk can tell. */
  lemma LateFixLostInAnyHistory(all: seq<Snapshot>, known: set<RunId>, disk: set<RunId>, v: IndexView, k: Key)
    requires IncreasingTimes(all) && Ids(all) <= known + disk
    requires v.entries == FoldAll(Covered(all, known)).entries
    requires TouchedIn(Covered(all, disk), k) ==> PrunedBeforeATouch(all, disk, k)
    ensures var d := Covered(all, disk);
      var rebuilt, full := RebuildView(d, Some(v)).entries, FoldAll(all).entries;
      && (k in rebuilt <==> k in full)
      && (k in full && rebuilt[k].status != full[k].status <==>
           && k in v.entries && v.entries[k].status != Fixed
           && !TouchedIn(d, k)
           && LateTrustAfter(d, known, k, v.entries[k].lastSeen))
  {
    hide FoldAll, EntryAfter, Touches, Trusts, KeyState, Covered, IncreasingTimes, PrunedBeforeATouch;
    var d, part := Covered(all, disk), Covered(all, known);
    CoveredIsIn(all, disk);
    CoveredIsIn(all, known);
    FoldAllAt(d, k);
    FoldAllAt(all, k);
    FoldAllAt(part, k);
    if TouchedIn(d, k) {
      TouchOnDiskDecides(all, disk, k);
    } else {
      NeverTouched(d, k);
      forall s | s in all && Touches(s, k)
        ensures s.run.id in known
      {
        assert s.run.id in Ids(all);
        assert s in d ==> TouchedIn(d, k);
      }
      IndexCoversTheTouches(all, known, k);
      forall t
        ensures LateTrustAfter(all, known, k, t) <==> LateTrustAfter(d, known, k, t)
      {
        forall s | s in all && s.run.id !in known
          ensures s in d
        {
          assert s.run.id in Ids(all);
        }
      }
    }
  }

  /** It happens: with the only run that touched a finding pruned, a late trusted run leaves it as the
      index had it, where the full history would call it fixed. */
  lemma LateAfterPruningDiffers(pruned: Snapshot, late: Snapshot, newest: Snapshot, k: Key)
    requires Touches(pruned, k) && !Touches(late, k) && !Touches(newest, k)
    requires Trusts(late, k) && !Trusts(newest, k)
    ensures var rebuilt := RebuildView([late, newest], Some(FoldAll([pruned, newest])));
      && k in rebuilt.entries && rebuilt.entries[k].status != Fixed
      && k in FoldAll([pruned, late, newest]).entries
      && FoldAll([pruned, late, newest]).entries[k].status == Fixed
  {
    hide FoldAll, EntryAfter, Touches, Trusts;
    FoldAllAt([late, newest], k);
    FoldAllAt([pruned, newest], k);
    FoldAllAt([pruned, late, newest], k);
    KeyStateSnoc([], late, k);
    KeyStateSnoc([late], newest, k);
    KeyStateSnoc([], pruned, k);
    KeyStateSnoc([pruned], newest, k);
    KeyStateSnoc([pruned], late, k);
    KeyStateSnoc([pruned, late], newest, k);
    assert [] + [late] == [late] && [] + [pruned] == [pruned];
    assert [late] + [newest] == [late, newest] && [pruned] + [newest] == [pruned, newest];
    assert [pruned] + [late] == [pruned, late] && [pruned, late] + [newest] == [pruned, late, newest];
    StepSummary(None, late, k);
    StepSummary(KeyState([late], k), newest, k);
    StepSummary(None, pruned, k);
    StepSummary(KeyState([pruned], k), newest, k);
    StepSummary(KeyState([pruned], k), late, k);
    StepSummary(KeyState([pruned, late], k), newest, k);
    hide KeyState;
  }
}
