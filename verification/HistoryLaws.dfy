/** What folding every run amounts to: the closed form of an entry, and the two folds that
    `changes` and `trend` compare. */
module HistoryLaws {
  import opened Wrappers
  import opened Severities
  import opened History

  /** One finding's entry as a state machine over the runs. */
  function KeyState(runs: seq<Snapshot>, k: Key): Option<Entry> {
    if runs == [] then None
    else EntryAfter(KeyState(runs[..|runs| - 1], k), runs[|runs| - 1], k)
  }

  lemma FoldEntriesAt(entries: map<Key, Entry>, s: Snapshot, k: Key)
    ensures Lookup(FoldEntries(entries, s), k) == EntryAfter(Lookup(entries, k), s, k)
  {
    assert Touches(s, k) <==> k in TouchedKeys(s);
  }

  lemma {:induction false} FoldAllAt(runs: seq<Snapshot>, k: Key)
    ensures Lookup(FoldAll(runs).entries, k) == KeyState(runs, k)
  {
    if runs != [] {
      hide FoldEntries, EntryAfter;
      var init := runs[..|runs| - 1];
      FoldAllAt(init, k);
      FoldEntriesAt(FoldAll(init).entries, runs[|runs| - 1], k);
    }
  }

  // ---- the closed form ----

  ghost predicate FirstTouch(runs: seq<Snapshot>, k: Key, f: nat) {
    f < |runs| && Touches(runs[f], k) && forall m | 0 <= m < f :: !Touches(runs[m], k)
  }

  ghost predicate LastTouch(runs: seq<Snapshot>, k: Key, l: nat) {
    l < |runs| && Touches(runs[l], k) && forall m | l < m < |runs| :: !Touches(runs[m], k)
  }

  /** The last run whose report has the finding, rather than only an ignore of it. */
  ghost predicate LastSighting(runs: seq<Snapshot>, k: Key, l: nat) {
    l < |runs| && k in SeenOf(runs[l].report) && forall m | l < m < |runs| :: k !in SeenOf(runs[m].report)
  }

  ghost predicate FirstTrustAfter(runs: seq<Snapshot>, k: Key, l: nat, j: nat) {
    l < j < |runs| && Trusts(runs[j], k) && forall m | l < m < j :: !Trusts(runs[m], k)
  }

  /** The finding comes back at run `i`: a trusted run lies between its last touch before `i` and `i`. */
  ghost predicate Reopens(runs: seq<Snapshot>, k: Key, i: nat) {
    i < |runs| && Touches(runs[i], k) &&
    exists p: nat, j: nat | p < j < i :: LastTouch(runs[..i], k, p) && Trusts(runs[j], k)
  }

  ghost function Reopenings(runs: seq<Snapshot>, k: Key): set<nat> {
    set i: nat | i < |runs| && Reopens(runs, k, i)
  }

  ghost predicate TrustedSince(runs: seq<Snapshot>, k: Key, l: nat) {
    exists j | l < j < |runs| :: Trusts(runs[j], k)
  }

  ghost predicate KnownIffTouched(runs: seq<Snapshot>, k: Key, state: Option<Entry>) {
    state.None? <==> forall i | 0 <= i < |runs| :: !Touches(runs[i], k)
  }

  ghost predicate SinceFirstTouch(runs: seq<Snapshot>, k: Key, e: Entry) {
    forall f: nat | FirstTouch(runs, k, f) :: e.firstSeen == runs[f].run.at
  }

  /** What follows the last touch decides the status. */
  ghost predicate StatusFrom(runs: seq<Snapshot>, k: Key, l: nat, e: Entry)
    requires l < |runs|
  {
    && e.lastSeen == runs[l].run.at
    && e.status == (if TrustedSince(runs, k, l) then Fixed else if k in runs[l].suppressed then Ignored else Open)
  }

  ghost predicate FixedFrom(runs: seq<Snapshot>, k: Key, l: nat, e: Entry) {
    forall j: nat | FirstTrustAfter(runs, k, l, j) :: e.fixedAt == Some(runs[j].run.at)
  }

  /** There is a first touch, and a last. */
  ghost predicate HasTouches(runs: seq<Snapshot>, k: Key) {
    (exists f: nat :: FirstTouch(runs, k, f)) && exists l: nat :: LastTouch(runs, k, l)
  }

  /** Status, times and reopenings of a finding, read off the runs with no state carried along. */
  ghost predicate InClosedForm(runs: seq<Snapshot>, k: Key, state: Option<Entry>) {
    && KnownIffTouched(runs, k, state)
    && (state.Some? ==>
         var e := state.value;
         && SinceFirstTouch(runs, k, e)
         && HasTouches(runs, k)
         && (forall l: nat | LastTouch(runs, k, l) :: StatusFrom(runs, k, l, e) && FixedFrom(runs, k, l, e))
         && (e.fixedAt.Some? <==> e.status == Fixed)
         && e.reopened == |Reopenings(runs, k)|)
  }

  lemma {:induction false} FirstTouchExists(runs: seq<Snapshot>, k: Key, i: nat)
    requires i < |runs| && Touches(runs[i], k)
    ensures exists f: nat :: FirstTouch(runs, k, f)
    decreases i
  {
    hide Touches;
    if m: nat :| m < i && Touches(runs[m], k) {
      FirstTouchExists(runs, k, m);
    } else {
      assert FirstTouch(runs, k, i);
    }
  }

  lemma {:induction false} LastTouchExists(runs: seq<Snapshot>, k: Key, i: nat)
    requires i < |runs| && Touches(runs[i], k)
    ensures exists l: nat :: LastTouch(runs, k, l)
    decreases |runs| - i
  {
    hide Touches;
    if m: nat :| i < m < |runs| && Touches(runs[m], k) {
      LastTouchExists(runs, k, m);
    } else {
      assert LastTouch(runs, k, i);
    }
  }

  lemma ReopeningsStep(runs: seq<Snapshot>, k: Key)
    requires runs != []
    ensures var z := |runs| - 1;
      Reopenings(runs, k) == Reopenings(runs[..z], k) + if Reopens(runs, k, z) then {z} else {}
  {
    hide Touches, Trusts;
    var z := |runs| - 1;
    var init := runs[..z];
    forall i: nat | i < z
      ensures Reopens(runs, k, i) <==> Reopens(init, k, i)
    {
      assert runs[..i] == init[..i];
    }
  }

  lemma KnownHasTouches(runs: seq<Snapshot>, k: Key, state: Option<Entry>)
    requires KnownIffTouched(runs, k, state) && state.Some?
    ensures HasTouches(runs, k)
  {
    hide Touches;
    var i: nat :| i < |runs| && Touches(runs[i], k);
    FirstTouchExists(runs, k, i);
    LastTouchExists(runs, k, i);
  }

  lemma LastTouchUnique(runs: seq<Snapshot>, k: Key, l: nat, p: nat)
    requires LastTouch(runs, k, l) && LastTouch(runs, k, p)
    ensures p == l
  {
  }

  /** The newest run brings the finding back exactly when the runs before it leave it fixed. */
  lemma ReopensWhenFixed(runs: seq<Snapshot>, k: Key, before: Option<Entry>)
    requires runs != [] && Touches(runs[|runs| - 1], k)
    requires InClosedForm(runs[..|runs| - 1], k, before)
    ensures Reopens(runs, k, |runs| - 1) <==> before.Some? && before.value.status == Fixed
  {
    hide Touches, Trusts, SinceFirstTouch, FixedFrom, Reopenings;
    var z := |runs| - 1;
    var init := runs[..z];
    if before.Some? {
      var i: nat :| i < z && Touches(init[i], k);
      LastTouchExists(init, k, i);
      var l: nat :| LastTouch(init, k, l);
      hide KnownIffTouched, LastTouch;
      assert before.value.status == Fixed <==> TrustedSince(init, k, l);
      if TrustedSince(init, k, l) {
        var j :| l < j < |init| && Trusts(init[j], k);
        assert Trusts(runs[j], k);
      }
      if Reopens(runs, k, z) {
        var p: nat, j: nat :| p < j < z && LastTouch(runs[..z], k, p) && Trusts(runs[j], k);
        LastTouchUnique(init, k, l, p);
        assert Trusts(init[j], k);
      }
    }
  }

  /** One run's effect on an entry, by whether it touches the finding and is trusted for its repo. */
  lemma StepSummary(prior: Option<Entry>, s: Snapshot, k: Key)
    ensures var after := EntryAfter(prior, s, k);
      if Touches(s, k) then
        && after.Some?
        && after.value.status == (if k in s.suppressed then Ignored else Open)
        && after.value.lastSeen == s.run.at
        && after.value.firstSeen == (if prior.Some? then prior.value.firstSeen else s.run.at)
        && after.value.fixedAt == (if prior.Some? && prior.value.status != Fixed then prior.value.fixedAt else None)
        && after.value.reopened == (
             if prior.None? then 0 else prior.value.reopened + if prior.value.status == Fixed then 1 else 0)
      else if prior.Some? && prior.value.status != Fixed && Trusts(s, k) then
        after == Some(prior.value.(status := Fixed, fixedAt := Some(s.run.at)))
      else
        after == prior
  {
  }

  lemma KnownStep(runs: seq<Snapshot>, k: Key)
    requires runs != [] && KnownIffTouched(runs[..|runs| - 1], k, KeyState(runs[..|runs| - 1], k))
    ensures KnownIffTouched(runs, k, KeyState(runs, k))
  {
    hide EntryAfter, Trusts, Touches;
    var z := |runs| - 1;
    StepSummary(KeyState(runs[..z], k), runs[z], k);
    assert forall m | 0 <= m < z :: runs[..z][m] == runs[m];
  }

  lemma FirstTouchOfPrefix(runs: seq<Snapshot>, k: Key, z: nat, f: nat)
    requires z <= |runs| && FirstTouch(runs, k, f)
    ensures if f < z then FirstTouch(runs[..z], k, f) else forall i | 0 <= i < z :: !Touches(runs[..z][i], k)
  {
    hide Touches;
  }

  lemma FirstTouchStep(runs: seq<Snapshot>, k: Key)
    requires runs != []
    requires var before := KeyState(runs[..|runs| - 1], k);
      KnownIffTouched(runs[..|runs| - 1], k, before)
      && (before.Some? ==> SinceFirstTouch(runs[..|runs| - 1], k, before.value))
    ensures var after := KeyState(runs, k);
      KnownIffTouched(runs, k, after) && (after.Some? ==> SinceFirstTouch(runs, k, after.value))
  {
    KnownStep(runs, k);
    var z := |runs| - 1;
    var init := runs[..z];
    var before, after := KeyState(init, k), KeyState(runs, k);
    StepSummary(before, runs[z], k);
    hide EntryAfter, Trusts, Touches, KeyState, FirstTouch, KnownIffTouched, SinceFirstTouch;
    if after.Some? {
      FirstSeenStep(runs, k, before, after.value);
    }
  }

  lemma FirstSeenStep(runs: seq<Snapshot>, k: Key, before: Option<Entry>, after: Entry)
    requires runs != [] && KnownIffTouched(runs[..|runs| - 1], k, before)
    requires before.Some? ==> SinceFirstTouch(runs[..|runs| - 1], k, before.value)
    requires after.firstSeen == if before.Some? then before.value.firstSeen else runs[|runs| - 1].run.at
    ensures SinceFirstTouch(runs, k, after)
  {
    hide Touches, FirstTouch;
    var z := |runs| - 1;
    forall f: nat | FirstTouch(runs, k, f)
      ensures f < |runs| && after.firstSeen == runs[f].run.at
    {
      FirstTouchOfPrefix(runs, k, z, f);
      FirstTouchIsATouch(runs, k, f);
      if f < z {
        assert runs[..z][f] == runs[f];
      }
    }
  }

  lemma FirstTouchIsATouch(runs: seq<Snapshot>, k: Key, f: nat)
    requires FirstTouch(runs, k, f)
    ensures f < |runs| && Touches(runs[f], k)
  {
  }

  lemma ReopenedStep(runs: seq<Snapshot>, k: Key, before: Option<Entry>)
    requires runs != [] && Touches(runs[|runs| - 1], k)
    requires InClosedForm(runs[..|runs| - 1], k, before)
    ensures var z := |runs| - 1;
      |Reopenings(runs, k)| ==
        if before.None? then 0 else before.value.reopened + if before.value.status == Fixed then 1 else 0
  {
    ReopeningsStep(runs, k);
    ReopensWhenFixed(runs, k, before);
    var z := |runs| - 1;
    var init := runs[..z];
    assert z !in Reopenings(init, k);
    if before.None? {
      assert forall i: nat :: !Reopens(init, k, i) by {
        assert forall i | 0 <= i < z :: !Touches(init[i], k);
        hide Touches, Trusts;
      }
      assert Reopenings(init, k) == {};
    }
    hide Touches, Trusts, Reopenings, Reopens, KnownIffTouched, SinceFirstTouch, HasTouches, StatusFrom, FixedFrom;
  }

  lemma TouchedStep(runs: seq<Snapshot>, k: Key)
    requires runs != [] && Touches(runs[|runs| - 1], k)
    requires InClosedForm(runs[..|runs| - 1], k, KeyState(runs[..|runs| - 1], k))
    ensures InClosedForm(runs, k, KeyState(runs, k))
  {
    hide EntryAfter, Trusts, Touches, SinceFirstTouch, KnownIffTouched, StatusFrom, FixedFrom, HasTouches, Reopenings;
    var z := |runs| - 1;
    var before := KeyState(runs[..z], k);
    FirstTouchStep(runs, k);
    ReopenedStep(runs, k, before);
    StepSummary(before, runs[z], k);
    KnownHasTouches(runs, k, KeyState(runs, k));
    LastTouchIsNewest(runs, k, KeyState(runs, k).value);
    hide LastTouch;
  }

  /** Right after a touch nothing has followed it. */
  lemma LastTouchIsNewest(runs: seq<Snapshot>, k: Key, e: Entry)
    requires runs != [] && Touches(runs[|runs| - 1], k)
    requires e.lastSeen == runs[|runs| - 1].run.at
    requires e.status == if k in runs[|runs| - 1].suppressed then Ignored else Open
    ensures forall l: nat | LastTouch(runs, k, l) :: l < |runs| && StatusFrom(runs, k, l, e) && FixedFrom(runs, k, l, e)
  {
    hide Touches, Trusts;
  }

  lemma LastTouchStep(runs: seq<Snapshot>, k: Key, l: nat)
    requires runs != [] && !Touches(runs[|runs| - 1], k)
    ensures var init := runs[..|runs| - 1];
      && (LastTouch(runs, k, l) <==> LastTouch(init, k, l))
      && (l < |init| ==> (TrustedSince(runs, k, l) <==> TrustedSince(init, k, l) || Trusts(runs[|runs| - 1], k)))
  {
    hide Touches, Trusts;
    var init := runs[..|runs| - 1];
    if TrustedSince(init, k, l) {
      var j :| l < j < |init| && Trusts(init[j], k);
      assert Trusts(runs[j], k);
    }
    if TrustedSince(runs, k, l) && !Trusts(runs[|runs| - 1], k) {
      var j :| l < j < |runs| && Trusts(runs[j], k);
      assert Trusts(init[j], k);
    }
  }

  lemma FixedStep(runs: seq<Snapshot>, k: Key, l: nat)
    requires runs != [] && !Touches(runs[|runs| - 1], k) && LastTouch(runs, k, l)
    requires var before := KeyState(runs[..|runs| - 1], k);
      before.Some? && StatusFrom(runs[..|runs| - 1], k, l, before.value)
      && FixedFrom(runs[..|runs| - 1], k, l, before.value)
    ensures var after := KeyState(runs, k);
      after.Some? && StatusFrom(runs, k, l, after.value) && FixedFrom(runs, k, l, after.value)
  {
    hide EntryAfter, Trusts, Touches;
    var z := |runs| - 1;
    var init := runs[..z];
    StepSummary(KeyState(init, k), runs[z], k);
    LastTouchStep(runs, k, l);
    forall j: nat | FirstTrustAfter(runs, k, l, j)
      ensures KeyState(runs, k).value.fixedAt == Some(runs[j].run.at)
    {
      if j < z {
        assert Trusts(init[j], k);
        assert TrustedSince(init, k, l);
        assert FirstTrustAfter(init, k, l, j);
      }
    }
  }

  lemma UntouchedStep(runs: seq<Snapshot>, k: Key)
    requires runs != [] && !Touches(runs[|runs| - 1], k)
    requires InClosedForm(runs[..|runs| - 1], k, KeyState(runs[..|runs| - 1], k))
    ensures InClosedForm(runs, k, KeyState(runs, k))
  {
    FirstTouchStep(runs, k);
    if KeyState(runs, k).Some? {
      KnownHasTouches(runs, k, KeyState(runs, k));
    }
    ReopeningsStep(runs, k);
    assert !Reopens(runs, k, |runs| - 1);
    hide EntryAfter, Trusts, Touches, Reopens, FirstTouch, SinceFirstTouch, KnownIffTouched, StatusFrom, FixedFrom,
      HasTouches;
    var z := |runs| - 1;
    StepSummary(KeyState(runs[..z], k), runs[z], k);
    if KeyState(runs, k).Some? {
      forall l: nat | LastTouch(runs, k, l)
        ensures StatusFrom(runs, k, l, KeyState(runs, k).value) && FixedFrom(runs, k, l, KeyState(runs, k).value)
      {
        LastTouchStep(runs, k, l);
        FixedStep(runs, k, l);
      }
    }
  }

  /** The closed form holds of every run sequence. */
  lemma {:induction false} ClosedForm(runs: seq<Snapshot>, k: Key)
    ensures InClosedForm(runs, k, Lookup(FoldAll(runs).entries, k))
  {
    FoldAllAt(runs, k);
    hide FoldAll, EntryAfter;
    if runs == [] {
      assert Reopenings(runs, k) == {};
    } else {
      ClosedForm(runs[..|runs| - 1], k);
      FoldAllAt(runs[..|runs| - 1], k);
      if Touches(runs[|runs| - 1], k) {
        TouchedStep(runs, k);
      } else {
        UntouchedStep(runs, k);
      }
    }
  }

  /** Severity and urgency are those of the last run that sighted the finding. */
  lemma {:induction false} RatedByLastSighting(runs: seq<Snapshot>, k: Key, l: nat)
    requires LastSighting(runs, k, l)
    ensures var e := Lookup(FoldAll(runs).entries, k);
      e.Some? && Sighting(e.value.severity, e.value.ssvc) == SeenOf(runs[l].report)[k]
  {
    FoldAllAt(runs, k);
    hide FoldAll, FoldEntries;
    var z := |runs| - 1;
    if l < z {
      assert runs[..z][l] == runs[l];
      RatedByLastSighting(runs[..z], k, l);
      FoldAllAt(runs[..z], k);
    }
  }

  /** A finding no run sighted, only ignores named, has no rating to show. */
  lemma {:induction false} UnratedWhenNeverSighted(runs: seq<Snapshot>, k: Key)
    requires forall i | 0 <= i < |runs| :: k !in SeenOf(runs[i].report)
    ensures var e := Lookup(FoldAll(runs).entries, k);
      e.Some? ==> e.value.severity == Unknown && e.value.ssvc.None? && e.value.status != Open
  {
    FoldAllAt(runs, k);
    hide FoldAll, FoldEntries;
    if runs != [] {
      var init := runs[..|runs| - 1];
      assert forall i | 0 <= i < |init| :: init[i] == runs[i];
      UnratedWhenNeverSighted(init, k);
      FoldAllAt(init, k);
    }
  }

  /** The run touches the finding and names an owner of its repo. */
  ghost predicate Names(s: Snapshot, k: Key) {
    Touches(s, k) && OwnerOf(s.report.contexts, k.repo).Some?
  }

  ghost predicate LastNaming(runs: seq<Snapshot>, k: Key, l: nat) {
    l < |runs| && Names(runs[l], k) && forall m | l < m < |runs| :: !Names(runs[m], k)
  }

  /** One run's effect on what the entry shows beside its status: the rating changes with a sighting alone,
      the owner with a touch that names one. */
  lemma StepShows(prior: Option<Entry>, s: Snapshot, k: Key)
    ensures var after := EntryAfter(prior, s, k);
      after.Some? ==>
        && (after.value.severity, after.value.ssvc) == (
             if k in SeenOf(s.report) then (SeenOf(s.report)[k].severity, SeenOf(s.report)[k].ssvc)
             else if prior.Some? then (prior.value.severity, prior.value.ssvc) else (Unknown, None))
        && after.value.owner == (
             if Names(s, k) then OwnerOf(s.report.contexts, k.repo)
             else if prior.Some? then prior.value.owner else None)
  {
  }

  /** The owner is the one named by the last run that touched the finding and named one. */
  lemma {:induction false} OwnedByLastNaming(runs: seq<Snapshot>, k: Key, l: nat)
    requires LastNaming(runs, k, l)
    ensures var e := Lookup(FoldAll(runs).entries, k);
      e.Some? && e.value.owner == OwnerOf(runs[l].report.contexts, k.repo)
  {
    FoldAllAt(runs, k);
    hide FoldAll, FoldEntries, EntryAfter, SeenOf, OwnerOf;
    var z := |runs| - 1;
    var init := runs[..z];
    StepShows(KeyState(init, k), runs[z], k);
    StepSummary(KeyState(init, k), runs[z], k);
    if l < z {
      assert forall m | 0 <= m < z :: init[m] == runs[m];
      OwnedByLastNaming(init, k, l);
      FoldAllAt(init, k);
    }
  }

  /** A finding no touching run named an owner for has none. */
  lemma {:induction false} UnownedWhenNeverNamed(runs: seq<Snapshot>, k: Key)
    requires forall i | 0 <= i < |runs| :: !Names(runs[i], k)
    ensures var e := Lookup(FoldAll(runs).entries, k); e.Some? ==> e.value.owner.None?
  {
    FoldAllAt(runs, k);
    hide FoldAll, FoldEntries, EntryAfter, SeenOf, OwnerOf;
    if runs != [] {
      var init := runs[..|runs| - 1];
      assert forall i | 0 <= i < |init| :: init[i] == runs[i];
      UnownedWhenNeverNamed(init, k);
      FoldAllAt(init, k);
      StepShows(KeyState(init, k), runs[|runs| - 1], k);
      StepSummary(KeyState(init, k), runs[|runs| - 1], k);
    }
  }

  // ---- packages ----

  ghost predicate Records(s: Snapshot, p: PackageName) {
    p in RunPackages(s)
  }

  /** A package is known iff some run recorded it, since the earliest run that did. */
  lemma {:induction false} PackagesSinceFirstRecorded(runs: seq<Snapshot>, p: PackageName)
    ensures var known := FoldAll(runs).packages;
      && (p in known <==> exists i :: 0 <= i < |runs| && Records(runs[i], p))
      && (p in known ==>
           && (forall i | 0 <= i < |runs| && Records(runs[i], p) :: known[p] <= runs[i].run.at)
           && exists i :: 0 <= i < |runs| && Records(runs[i], p) && known[p] == runs[i].run.at)
  {
    if runs != [] {
      var z := |runs| - 1;
      var init := runs[..z];
      PackagesSinceFirstRecorded(init, p);
      hide FoldEntries;
      assert Records(runs[z], p) ==> RunPackages(runs[z])[p] == runs[z].run.at;
      var was, known := FoldAll(init).packages, FoldAll(runs).packages;
      assert known == MergePackages(was, RunPackages(runs[z]));
      if p in was {
        var i :| 0 <= i < |init| && Records(init[i], p) && was[p] == init[i].run.at;
        assert runs[i] == init[i];
        if !Records(runs[z], p) || runs[z].run.at >= was[p] {
          assert known[p] == runs[i].run.at;
        } else {
          assert known[p] == runs[z].run.at;
        }
      }
      forall i | 0 <= i < |runs| && Records(runs[i], p)
        ensures p in known && known[p] <= runs[i].run.at
      {
        if i < z {
          assert Records(init[i], p);
        }
      }
    }
  }

  // ---- what the newest run changed ----

  function Opens(entries: map<Key, Entry>): set<Key> {
    set k | k in entries && entries[k].status == Open
  }

  function Fixes(entries: map<Key, Entry>): set<Key> {
    set k | k in entries && entries[k].status == Fixed
  }

  /** The findings `changes` calls new: open in the index and not open before, where a finding the
      earlier snapshots do not know is new only if the newest run first saw it. */
  predicate CalledNew(entries: map<Key, Entry>, before: map<Key, Entry>, at: Time, k: Key) {
    k in entries && entries[k].status == Open &&
    if k in before then before[k].status != Open else entries[k].firstSeen == at
  }

  predicate CalledFixed(entries: map<Key, Entry>, at: Time, k: Key) {
    k in entries && entries[k].status == Fixed && entries[k].fixedAt == Some(at)
  }

  /** `changes`, from the index and the snapshots still on disk: the new and the fixed findings. */
  method Changes(entries: map<Key, Entry>, snapshots: seq<Snapshot>)
    returns (r: Option<(set<Key>, set<Key>)>)
    ensures r.None? <==> snapshots == []
    ensures r.Some? ==>
      var latest, earlier := snapshots[|snapshots| - 1], snapshots[..|snapshots| - 1];
      && (forall k :: k in r.value.0 <==> CalledNew(entries, FoldAll(earlier).entries, latest.run.at, k))
      && (forall k :: k in r.value.1 <==> CalledFixed(entries, latest.run.at, k))
  {
    if snapshots == [] {
      return None;
    }
    var latest, earlier := snapshots[|snapshots| - 1], snapshots[..|snapshots| - 1];
    var index := Rebuild(earlier, None);
    var before := index.entries;
    assert before == index.View().entries;
    hide FoldAll;
    var appeared: set<Key>, resolved: set<Key> := {}, {};
    var todo := entries.Keys;
    while todo != {}
      invariant todo <= entries.Keys
      invariant forall k ::
        k in appeared <==> k in entries && k !in todo && CalledNew(entries, before, latest.run.at, k)
      invariant forall k :: k in resolved <==> k in entries && k !in todo && CalledFixed(entries, latest.run.at, k)
      decreases |todo|
    {
      var k :| k in todo;
      todo := todo - {k};
      var e := entries[k];
      match e.status {
        case Open =>
          var isNew := if k in before then before[k].status != Open else e.firstSeen == latest.run.at;
          if isNew {
            appeared := appeared + {k};
          }
        case Fixed =>
          if e.fixedAt == Some(latest.run.at) {
            resolved := resolved + {k};
          }
        case Ignored =>
      }
    }
    return Some((appeared, resolved));
  }

  ghost predicate IncreasingTimes(runs: seq<Snapshot>) {
    forall i, j | 0 <= i < j < |runs| :: runs[i].run.at < runs[j].run.at
  }

  lemma {:induction false} FixedNoLaterThan(runs: seq<Snapshot>, k: Key, e: Entry, at: Time)
    requires Lookup(FoldAll(runs).entries, k) == Some(e) && e.status == Fixed
    requires forall i | 0 <= i < |runs| :: runs[i].run.at < at
    ensures e.fixedAt.Some? && e.fixedAt.value < at
  {
    FoldAllAt(runs, k);
    hide FoldAll, FoldEntries;
    var z := |runs| - 1;
    var init := runs[..z];
    StepSummary(KeyState(init, k), runs[z], k);
    if KeyState(init, k) == Some(e) {
      FoldAllAt(init, k);
      assert forall i | 0 <= i < |init| :: init[i] == runs[i];
      FixedNoLaterThan(init, k, e, at);
    }
  }

  /** With nothing pruned and increasing times, `changes` is the exact difference of two folds. */
  lemma ChangesAreTheDifference(runs: seq<Snapshot>, k: Key)
    requires runs != [] && IncreasingTimes(runs)
    ensures var now, before := FoldAll(runs).entries, FoldAll(runs[..|runs| - 1]).entries;
      var at := runs[|runs| - 1].run.at;
      && (CalledNew(now, before, at, k) <==> k in Opens(now) - Opens(before))
      && (CalledFixed(now, at, k) <==> k in Fixes(now) - Fixes(before))
  {
    hide FoldAll, FoldEntries, EntryAfter, Touches, Trusts;
    var z := |runs| - 1;
    var init := runs[..z];
    FoldAllAt(runs, k);
    FoldAllAt(init, k);
    var before := KeyState(init, k);
    StepSummary(before, runs[z], k);
    if before.Some? && before.value.status == Fixed {
      FixedNoLaterThan(init, k, before.value, runs[z].run.at);
    }
  }

  // ---- trend ----

  /** What one run's trend point counts: the findings present and not ignored. */
  function TrendKeys(s: Snapshot): set<Key> {
    SeenKeys(s.report.findings) - set k | k in s.suppressed
  }

  lemma TrendAt(runs: seq<Snapshot>, k: Key)
    requires runs != []
    ensures var s := runs[|runs| - 1];
      var open := Opens(FoldAll(runs).entries);
      && (k in TrendKeys(s) <==> k in open && Touches(s, k))
      && (k in open && Trusts(s, k) ==> Touches(s, k))
  {
    hide FoldAll, FoldEntries, EntryAfter;
    var s := runs[|runs| - 1];
    FoldAllAt(runs, k);
    StepSummary(KeyState(runs[..|runs| - 1], k), s, k);
    assert Touches(s, k) <==> k in SeenKeys(s.report.findings) || k in s.suppressed;
    hide SeenKeys, KeyState, Touches;
    assert k in Opens(FoldAll(runs).entries) <==> KeyState(runs, k).Some? && KeyState(runs, k).value.status == Open;
  }

  /** The newest trend count never exceeds the index's open count. The two agree exactly when
      every open finding is in the newest report, which a run trusted for every repo holding an
      open finding ensures. */
  lemma TrendBoundsOpen(runs: seq<Snapshot>)
    requires runs != []
    ensures var s := runs[|runs| - 1];
      var open := Opens(FoldAll(runs).entries);
      && |TrendKeys(s)| <= |open|
      && (|TrendKeys(s)| == |open| <==> forall k | k in open :: Touches(s, k))
      && ((forall k | k in open :: Trusts(s, k)) ==> |TrendKeys(s)| == |open|)
  {
    hide FoldAll, Opens, TrendKeys, Touches, Trusts;
    var s := runs[|runs| - 1];
    var open := Opens(FoldAll(runs).entries);
    var shown := TrendKeys(s);
    forall k
      ensures k in shown <==> k in open && Touches(s, k)
      ensures k in open && Trusts(s, k) ==> Touches(s, k)
    {
      TrendAt(runs, k);
    }
    PartIsSmaller(shown, open);
    if forall k | k in open :: Touches(s, k) {
      assert shown == open;
    }
  }

  lemma PartIsSmaller(part: set<Key>, whole: set<Key>)
    requires part <= whole
    ensures |part| <= |whole|
    ensures |part| == |whole| ==> part == whole
  {
    assert whole == part + (whole - part);
    assert |whole| == |part| + |whole - part|;
    if |part| == |whole| {
      assert whole - part == {};
    }
  }
}
