/** The scan history index (crates/cli/src/history.rs): what one run says about each finding,
    and folding a run into the index. */
module History {
  import opened Wrappers
  import opened Severities

  /** A parsed RFC 3339 time. */
  type Time = int

  /** A run's file stem, as its position in the order of file names. */
  type RunId = nat

  // ---- a run as stored ----

  datatype Decided = Defer | Scheduled | OutOfCycle | Immediate
  {
    function Rank(): nat {
      match this
      case Defer => 0
      case Scheduled => 1
      case OutOfCycle => 2
      case Immediate => 3
    }
  }

  datatype Key = Key(advisory: string, ecosystem: string, repo: string, package: string, version: string)

  datatype PackageName = PackageName(ecosystem: string, name: string)

  /** `vulnerable` is the verdict of the version requirements, which this model takes as given. */
  datatype Occurrence =
    | InRepo(repo: string, package: string, installed: string, vulnerable: bool)
    | Toolchain

  datatype Finding = Finding(advisory: string, ecosystem: string, severity: Severity, occurrences: seq<Occurrence>)

  datatype Decision = Decision(advisory: string, repo: string, package: string, installed: string, outcome: Decided)

  datatype ScanStatus = Scanned | Errored

  datatype RepoOutcome = RepoOutcome(repo: string, status: ScanStatus)

  datatype Context = Context(repo: string, owner: Option<string>)

  /** `coverage` names the repo of each coverage gap. */
  datatype Report = Report(
    findings: seq<Finding>,
    decisions: seq<Decision>,
    outcomes: seq<RepoOutcome>,
    coverage: seq<string>,
    contexts: seq<Context>)

  datatype Run = Run(id: RunId, at: Time, exitCode: nat)

  datatype Snapshot = Snapshot(
    run: Run,
    suppressed: seq<Key>,
    packages: Option<seq<PackageName>>,
    report: Report)

  // ---- the index ----

  datatype Status = Open | Ignored | Fixed

  datatype Entry = Entry(
    status: Status,
    severity: Severity,
    ssvc: Option<Decided>,
    owner: Option<string>,
    firstSeen: Time,
    lastSeen: Time,
    fixedAt: Option<Time>,
    reopened: nat)

  /** The index as a value. The stored list of entries, sorted by key, is a map here. */
  datatype IndexView = IndexView(runs: seq<RunId>, entries: map<Key, Entry>, packages: map<PackageName, Time>)

  const EMPTY: IndexView := IndexView([], map[], map[])

  // ---- what a run says ----

  datatype Sighting = Sighting(severity: Severity, ssvc: Option<Decided>)

  function KeyOf(f: Finding, occ: Occurrence): Key
    requires occ.InRepo?
  {
    Key(f.advisory, f.ecosystem, occ.repo, occ.package, occ.installed)
  }

  function FindingKeys(f: Finding): set<Key> {
    set occ | occ in f.occurrences && occ.InRepo? && occ.vulnerable :: KeyOf(f, occ)
  }

  function SeenKeys(findings: seq<Finding>): set<Key> {
    set f, k | f in findings && k in FindingKeys(f) :: k
  }

  /** The severity of the last finding in the report that sights the key. */
  function LastSeverity(findings: seq<Finding>, k: Key): Severity {
    if findings == [] then Unknown
    else
      var f := findings[|findings| - 1];
      if k in FindingKeys(f) then f.severity else LastSeverity(findings[..|findings| - 1], k)
  }

  predicate Concerns(d: Decision, k: Key) {
    d.advisory == k.advisory && d.repo == k.repo && d.package == k.package && d.installed == k.version
  }

  function MoreUrgent(a: Option<Decided>, b: Decided): Option<Decided> {
    if a.Some? && a.value.Rank() >= b.Rank() then a else Some(b)
  }

  /** The most urgent decision on the key. */
  function Urgency(decisions: seq<Decision>, k: Key): Option<Decided> {
    if decisions == [] then None
    else
      var d := decisions[|decisions| - 1];
      var before := Urgency(decisions[..|decisions| - 1], k);
      if Concerns(d, k) then MoreUrgent(before, d.outcome) else before
  }

  /** The keys of every vulnerable in-repo occurrence, with what the report says of each. */
  function SeenOf(r: Report): map<Key, Sighting> {
    map k | k in SeenKeys(r.findings) :: Sighting(LastSeverity(r.findings, k), Urgency(r.decisions, k))
  }

  type DecisionKey = (string, string, string, string)

  function DecisionKeyOf(k: Key): DecisionKey {
    (k.advisory, k.repo, k.package, k.version)
  }

  /** The first pass of `present`: the worst outcome per decision key. */
  method WorstOutcomes(decisions: seq<Decision>) returns (ssvc: map<DecisionKey, Decided>)
    ensures forall k: Key :: Urgency(decisions, k) == Lookup(ssvc, DecisionKeyOf(k))
  {
    ssvc := map[];
    for i := 0 to |decisions|
      invariant forall k: Key :: Urgency(decisions[..i], k) == Lookup(ssvc, DecisionKeyOf(k))
    {
      var d := decisions[i];
      var slot := (d.advisory, d.repo, d.package, d.installed);
      assert decisions[..i + 1][..i] == decisions[..i];
      var worst := if slot in ssvc && ssvc[slot].Rank() >= d.outcome.Rank() then ssvc[slot] else d.outcome;
      ssvc := ssvc[slot := worst];
    }
    assert decisions[..|decisions|] == decisions;
  }

  lemma FindingKeysStep(f: Finding, j: nat)
    requires j < |f.occurrences|
    ensures var occ := f.occurrences[j];
      FindingKeys(f.(occurrences := f.occurrences[..j + 1])) ==
      FindingKeys(f.(occurrences := f.occurrences[..j])) + if occ.InRepo? && occ.vulnerable then {KeyOf(f, occ)} else {}
  {
    assert f.occurrences[..j + 1] == f.occurrences[..j] + [f.occurrences[j]];
  }

  lemma SeenKeysStep(findings: seq<Finding>, i: nat)
    requires i < |findings|
    ensures SeenKeys(findings[..i + 1]) == SeenKeys(findings[..i]) + FindingKeys(findings[i])
  {
    assert findings[..i + 1] == findings[..i] + [findings[i]];
  }

  /** What one finding adds to the sightings: each of its keys, with its own severity. */
  function WithFinding(seen: map<Key, Sighting>, f: Finding, decisions: seq<Decision>): map<Key, Sighting> {
    map k | k in seen.Keys + FindingKeys(f) ::
      if k in FindingKeys(f) then Sighting(f.severity, Urgency(decisions, k)) else seen[k]
  }

  /** One more occurrence of the finding. */
  lemma WithFindingStep(before: map<Key, Sighting>, f: Finding, j: nat, decisions: seq<Decision>)
    requires j < |f.occurrences|
    ensures var occ := f.occurrences[j];
      var was := WithFinding(before, f.(occurrences := f.occurrences[..j]), decisions);
      WithFinding(before, f.(occurrences := f.occurrences[..j + 1]), decisions) ==
        if occ.InRepo? && occ.vulnerable then
          was[KeyOf(f, occ) := Sighting(f.severity, Urgency(decisions, KeyOf(f, occ)))]
        else was
  {
    FindingKeysStep(f, j);
    hide Urgency, FindingKeys, KeyOf;
  }

  lemma WithNothing(before: map<Key, Sighting>, f: Finding, decisions: seq<Decision>)
    ensures WithFinding(before, f.(occurrences := f.occurrences[..0]), decisions) == before
  {
    hide Urgency;
    assert FindingKeys(f.(occurrences := f.occurrences[..0])) == {};
  }

  method AddFinding(before: map<Key, Sighting>, f: Finding, decisions: seq<Decision>, ssvc: map<DecisionKey, Decided>)
    returns (seen: map<Key, Sighting>)
    requires forall k: Key :: Urgency(decisions, k) == Lookup(ssvc, DecisionKeyOf(k))
    ensures seen == WithFinding(before, f, decisions)
  {
    hide WithFinding, Urgency, FindingKeys, Lookup, DecisionKeyOf;
    seen := before;
    WithNothing(before, f, decisions);
    for j := 0 to |f.occurrences|
      invariant seen == WithFinding(before, f.(occurrences := f.occurrences[..j]), decisions)
    {
      var occ := f.occurrences[j];
      WithFindingStep(before, f, j, decisions);
      if occ.InRepo? && occ.vulnerable {
        var k := KeyOf(f, occ);
        seen := seen[k := Sighting(f.severity, Lookup(ssvc, DecisionKeyOf(k)))];
      }
    }
    assert f.(occurrences := f.occurrences[..|f.occurrences|]) == f;
  }

  lemma SeenStep(r: Report, i: nat)
    requires i < |r.findings|
    ensures SeenOf(r.(findings := r.findings[..i + 1])) ==
            WithFinding(SeenOf(r.(findings := r.findings[..i])), r.findings[i], r.decisions)
  {
    hide Urgency, SeenKeys, FindingKeys;
    var f, before, after := r.findings[i], r.findings[..i], r.findings[..i + 1];
    SeenKeysStep(r.findings, i);
    assert after[..i] == before && after[i] == f;
    forall k
      ensures LastSeverity(after, k) == if k in FindingKeys(f) then f.severity else LastSeverity(before, k)
    {
    }
  }

  /** `present`. */
  method Present(r: Report) returns (seen: map<Key, Sighting>)
    ensures seen == SeenOf(r)
  {
    var ssvc := WorstOutcomes(r.decisions);
    seen := map[];
    for i := 0 to |r.findings|
      invariant seen == SeenOf(r.(findings := r.findings[..i]))
    {
      SeenStep(r, i);
      seen := AddFinding(seen, r.findings[i], r.decisions, ssvc);
    }
    assert r.(findings := r.findings[..|r.findings|]) == r;
  }

  /** The repos a run can vouch for: scanned without error and read in full, in a run that did
      not exit 2. */
  function Trustworthy(s: Snapshot): set<string> {
    if s.run.exitCode == 2 then {}
    else set o | o in s.report.outcomes && o.status.Scanned? && o.repo !in s.report.coverage :: o.repo
  }

  function OwnerOf(contexts: seq<Context>, repo: string): Option<string> {
    if contexts == [] then None
    else
      var c := contexts[|contexts| - 1];
      if c.repo == repo && c.owner.Some? then c.owner else OwnerOf(contexts[..|contexts| - 1], repo)
  }

  predicate Touches(s: Snapshot, k: Key) {
    k in SeenKeys(s.report.findings) || k in s.suppressed
  }

  predicate Trusts(s: Snapshot, k: Key) {
    k.repo in Trustworthy(s)
  }

  // ---- folding one run ----

  function Touch(prior: Option<Entry>, at: Time, status: Status, sighting: Option<Sighting>,
                 owner: Option<string>): Entry
  {
    var entry := if prior.Some? then prior.value
                 else Entry(status, if sighting.Some? then sighting.value.severity else Unknown,
                            None, None, at, at, None, 0);
    var back := if entry.status == Fixed then entry.(reopened := entry.reopened + 1, fixedAt := None) else entry;
    var rated :=
      if sighting.Some? then back.(severity := sighting.value.severity, ssvc := sighting.value.ssvc) else back;
    rated.(status := status, lastSeen := at, owner := if owner.Some? then owner else rated.owner)
  }

  /** What one run leaves of one entry. */
  function EntryAfter(prior: Option<Entry>, s: Snapshot, k: Key): Option<Entry> {
    var owner := OwnerOf(s.report.contexts, k.repo);
    if k in SeenKeys(s.report.findings) then
      Some(Touch(prior, s.run.at, if k in s.suppressed then Ignored else Open,
                 Some(Sighting(LastSeverity(s.report.findings, k), Urgency(s.report.decisions, k))), owner))
    else if k in s.suppressed then
      Some(Touch(prior, s.run.at, Ignored, None, owner))
    else if prior.Some? && prior.value.status != Fixed && Trusts(s, k) then
      Some(prior.value.(status := Fixed, fixedAt := Some(s.run.at)))
    else
      prior
  }

  function TouchedKeys(s: Snapshot): set<Key> {
    SeenKeys(s.report.findings) + set k | k in s.suppressed
  }

  function FoldEntries(entries: map<Key, Entry>, s: Snapshot): map<Key, Entry> {
    map k | k in entries.Keys + TouchedKeys(s) :: EntryAfter(Lookup(entries, k), s, k).value
  }

  /** `entries` with the run applied at the keys `at` alone. */
  function Advance(entries: map<Key, Entry>, s: Snapshot, at: set<Key>): (after: map<Key, Entry>)
    ensures after.Keys == entries.Keys + at * TouchedKeys(s)
  {
    map k | k in entries.Keys + at * TouchedKeys(s) ::
      if k in at then EntryAfter(Lookup(entries, k), s, k).value else entries[k]
  }

  lemma AdvanceStep(entries: map<Key, Entry>, s: Snapshot, at: set<Key>, k: Key)
    requires k !in at && (k in entries || Touches(s, k))
    ensures Advance(entries, s, at + {k}) == Advance(entries, s, at)[k := EntryAfter(Lookup(entries, k), s, k).value]
    ensures Lookup(Advance(entries, s, at), k) == Lookup(entries, k)
  {
    assert Touches(s, k) <==> k in TouchedKeys(s);
  }

  lemma AdvanceNothing(entries: map<Key, Entry>, s: Snapshot)
    ensures Advance(entries, s, {}) == entries
  {
  }

  lemma AdvanceTwice(entries: map<Key, Entry>, s: Snapshot, a: set<Key>, b: set<Key>)
    requires a !! b
    ensures Advance(Advance(entries, s, a), s, b) == Advance(entries, s, a + b)
  {
    var once := Advance(entries, s, a);
    forall k | k in b
      ensures Lookup(once, k) == Lookup(entries, k)
    {
    }
  }

  lemma AdvanceAll(entries: map<Key, Entry>, s: Snapshot, at: set<Key>)
    requires entries.Keys + TouchedKeys(s) <= at
    ensures Advance(entries, s, at) == FoldEntries(entries, s)
  {
  }

  lemma TouchingAdvances(prior: Option<Entry>, s: Snapshot, k: Key)
    ensures var after := EntryAfter(prior, s, k);
      var owner := OwnerOf(s.report.contexts, k.repo);
      if k in SeenOf(s.report) then
        after == Some(Touch(prior, s.run.at, if k in s.suppressed then Ignored else Open,
                            Some(SeenOf(s.report)[k]), owner))
      else if k in s.suppressed then
        after == Some(Touch(prior, s.run.at, Ignored, None, owner))
      else if prior.Some? && prior.value.status != Fixed && k.repo in Trustworthy(s) then
        after == Some(prior.value.(status := Fixed, fixedAt := Some(s.run.at)))
      else
        after == prior
  {
  }

  /** What the last pass leaves of a finding the run does not touch. */
  function Gone(e: Entry, s: Snapshot, k: Key): Entry {
    if e.status != Fixed && k.repo in Trustworthy(s) then e.(status := Fixed, fixedAt := Some(s.run.at)) else e
  }

  lemma GoneMeans(e: Entry, s: Snapshot, k: Key)
    ensures Gone(e, s, k) ==
      if e.status != Fixed && k.repo in Trustworthy(s) then e.(status := Fixed, fixedAt := Some(s.run.at)) else e
  {
  }

  /** A finding the run does not touch, at its turn in the last pass: `todo` of `rest` is left. */
  lemma GoneStep(entries: map<Key, Entry>, s: Snapshot, rest: set<Key>, todo: set<Key>, k: Key)
    requires todo <= rest && rest == entries.Keys - TouchedKeys(s) && k in todo
    ensures k in Advance(entries, s, rest - todo) && Advance(entries, s, rest - todo)[k] == entries[k]
    ensures Advance(entries, s, rest - (todo - {k})) == Advance(entries, s, rest - todo)[k := Gone(entries[k], s, k)]
  {
    AdvanceStep(entries, s, rest - todo, k);
    TouchingAdvances(Lookup(entries, k), s, k);
    hide Advance, EntryAfter, SeenKeys, Trustworthy;
    assert rest - (todo - {k}) == rest - todo + {k};
  }

  lemma NothingDone(entries: map<Key, Entry>, s: Snapshot, rest: set<Key>)
    ensures Advance(entries, s, rest - rest) == entries
  {
    AdvanceNothing(entries, s);
    assert rest - rest == {};
  }

  function Earlier(a: Time, b: Time): Time {
    if b < a then b else a
  }

  /** Every name with its earliest sighting in either map. */
  function MergePackages(known: map<PackageName, Time>, seen: map<PackageName, Time>): map<PackageName, Time> {
    map p | p in known.Keys + seen.Keys ::
      if p in known && p in seen then Earlier(known[p], seen[p])
      else if p in known then known[p] else seen[p]
  }

  function RunPackages(s: Snapshot): map<PackageName, Time> {
    match s.packages
    case None => map[]
    case Some(names) => AllAt(names, s.run.at)
  }

  function AllAt(names: seq<PackageName>, at: Time): map<PackageName, Time> {
    map p | p in names :: at
  }

  function FoldView(v: IndexView, s: Snapshot): IndexView {
    IndexView(v.runs + [s.run.id], FoldEntries(v.entries, s), MergePackages(v.packages, RunPackages(s)))
  }

  /** The simple thing the index speeds up: every run folded in order from nothing. */
  function FoldAll(runs: seq<Snapshot>): IndexView {
    if runs == [] then EMPTY
    else FoldView(FoldAll(runs[..|runs| - 1]), runs[|runs| - 1])
  }

  function FoldFrom(v: IndexView, runs: seq<Snapshot>): IndexView {
    if runs == [] then v
    else FoldView(FoldFrom(v, runs[..|runs| - 1]), runs[|runs| - 1])
  }

  function EarlierMerge(known: map<PackageName, Time>, p: PackageName, at: Time): map<PackageName, Time> {
    if p in known && known[p] <= at then known else known[p := at]
  }

  // ---- rebuilding ----

  function KeepOld(rebuilt: Entry, prior: Entry): Entry {
    rebuilt.(firstSeen := Earlier(rebuilt.firstSeen, prior.firstSeen),
           reopened := if prior.reopened > rebuilt.reopened then prior.reopened else rebuilt.reopened)
  }

  function MergeEntries(rebuilt: map<Key, Entry>, prior: map<Key, Entry>): map<Key, Entry> {
    map k | k in rebuilt.Keys + prior.Keys ::
      if k in rebuilt && k in prior then KeepOld(rebuilt[k], prior[k])
      else if k in rebuilt then rebuilt[k] else prior[k]
  }

  /** One more entry of the old index merged in. */
  lemma MergeEntriesStep(rebuilt: map<Key, Entry>, prior: map<Key, Entry>, todo: set<Key>, k: Key)
    requires k in todo && todo <= prior.Keys
    ensures Lookup(MergeEntries(rebuilt, prior - todo), k) == Lookup(rebuilt, k)
    ensures MergeEntries(rebuilt, prior - (todo - {k})) ==
      MergeEntries(rebuilt, prior - todo)[k := if k in rebuilt then KeepOld(rebuilt[k], prior[k]) else prior[k]]
  {
    hide KeepOld;
    assert prior - (todo - {k}) == (prior - todo)[k := prior[k]];
  }

  lemma LookupBoth(a: map<Key, Entry>, b: map<Key, Entry>, k: Key)
    requires Lookup(a, k) == Lookup(b, k)
    ensures k in a <==> k in b
    ensures k in a ==> a[k] == b[k]
  {
  }

  lemma KeptIs(rebuilt: Entry, prior: Entry, kept: Entry)
    requires kept == rebuilt.(firstSeen := kept.firstSeen, reopened := kept.reopened)
    requires kept.firstSeen == Earlier(rebuilt.firstSeen, prior.firstSeen)
    requires kept.reopened == if prior.reopened > rebuilt.reopened then prior.reopened else rebuilt.reopened
    ensures kept == KeepOld(rebuilt, prior)
  {
  }

  lemma MergeNoEntries(rebuilt: map<Key, Entry>, prior: map<Key, Entry>)
    ensures MergeEntries(rebuilt, prior - prior.Keys) == rebuilt
  {
  }

  /** One more package of the old index merged in. */
  lemma MergePackagesStep(known: map<PackageName, Time>, prior: map<PackageName, Time>, todo: set<PackageName>,
                          p: PackageName)
    requires p in todo && todo <= prior.Keys
    ensures MergePackages(known, prior - (todo - {p})) == EarlierMerge(MergePackages(known, prior - todo), p, prior[p])
  {
    assert prior - (todo - {p}) == (prior - todo)[p := prior[p]];
  }

  lemma MergeNoPackages(known: map<PackageName, Time>, prior: map<PackageName, Time>)
    ensures MergePackages(known, prior - prior.Keys) == known
  {
  }

  function AppendNew(runs: seq<RunId>, ids: seq<RunId>): seq<RunId> {
    if ids == [] then runs
    else
      var before := AppendNew(runs, ids[..|ids| - 1]);
      var id := ids[|ids| - 1];
      if id in before then before else before + [id]
  }

  /** The runs a rebuilt index covers: those of the old one in their order, then each it lacks, once. */
  lemma {:induction false} AppendNewIs(runs: seq<RunId>, ids: seq<RunId>)
    ensures runs <= AppendNew(runs, ids)
    ensures forall id :: id in AppendNew(runs, ids) <==> id in runs || id in ids
    ensures forall i, j | |runs| <= j < |AppendNew(runs, ids)| && 0 <= i < j ::
      AppendNew(runs, ids)[i] != AppendNew(runs, ids)[j]
  {
    if ids != [] {
      var init, id := ids[..|ids| - 1], ids[|ids| - 1];
      assert ids == init + [id];
      AppendNewIs(runs, init);
      var before := AppendNew(runs, init);
      assert AppendNew(runs, ids) == before || AppendNew(runs, ids) == before + [id];
      assert forall i | 0 <= i < |before| :: before[i] in before;
    }
  }

  function RebuildView(snapshots: seq<Snapshot>, prior: Option<IndexView>): IndexView {
    var rebuilt := FoldAll(snapshots);
    match prior
    case None => rebuilt
    case Some(o) => IndexView(AppendNew(o.runs, rebuilt.runs), MergeEntries(rebuilt.entries, o.entries),
                              MergePackages(rebuilt.packages, o.packages))
  }

  // ---- the index as the program updates it ----

  class Index {
    var runs: seq<RunId>
    var entries: map<Key, Entry>
    var packages: map<PackageName, Time>

    function View(): IndexView
      reads this
    {
      IndexView(runs, entries, packages)
    }

    constructor (v: IndexView)
      ensures View() == v
    {
      runs, entries, packages := v.runs, v.entries, v.packages;
    }

    method TouchEntry(s: Snapshot, k: Key, status: Status, sighting: Option<Sighting>)
      modifies this`entries
      ensures entries == old(entries)[k := Touch(Lookup(old(entries), k), s.run.at, status, sighting,
                                                 OwnerOf(s.report.contexts, k.repo))]
    {
      var at := s.run.at;
      var owner := OwnerOf(s.report.contexts, k.repo);
      var entry := if k in entries then entries[k]
                   else Entry(status, if sighting.Some? then sighting.value.severity else Unknown,
                              None, None, at, at, None, 0);
      if entry.status == Fixed {
        entry := entry.(reopened := entry.reopened + 1, fixedAt := None);
      }
      entry := entry.(status := status, lastSeen := at);
      if sighting.Some? {
        entry := entry.(severity := sighting.value.severity, ssvc := sighting.value.ssvc);
      }
      if owner.Some? {
        entry := entry.(owner := owner);
      }
      entries := entries[k := entry];
    }

    /** The first pass of `fold`: every finding the run sees. */
    method TouchSeen(s: Snapshot, seen: map<Key, Sighting>)
      requires seen == SeenOf(s.report)
      modifies this`entries
      ensures entries == Advance(old(entries), s, seen.Keys)
    {
      hide Advance, FoldEntries, EntryAfter, SeenKeys;
      var ignored := set k | k in s.suppressed;
      ghost var before := entries;
      var todo := seen.Keys;
      AdvanceNothing(before, s);
      assert seen.Keys - todo == {};
      while todo != {}
        invariant todo <= seen.Keys
        invariant entries == Advance(before, s, seen.Keys - todo)
        decreases |todo|
      {
        var k :| k in todo;
        AdvanceStep(before, s, seen.Keys - todo, k);
        TouchingAdvances(Lookup(before, k), s, k);
        assert seen.Keys - (todo - {k}) == seen.Keys - todo + {k};
        todo := todo - {k};
        TouchEntry(s, k, if k in ignored then Ignored else Open, Some(seen[k]));
      }
      assert seen.Keys - {} == seen.Keys;
    }

    /** The second pass: what an ignore hides and the run does not see. */
    method TouchHidden(s: Snapshot, hidden: set<Key>)
      requires forall k :: k in hidden ==> k in s.suppressed && k !in SeenOf(s.report)
      modifies this`entries
      ensures entries == Advance(old(entries), s, hidden)
    {
      hide Advance, FoldEntries, EntryAfter, SeenKeys;
      ghost var before := entries;
      var todo := hidden;
      AdvanceNothing(before, s);
      assert hidden - todo == {};
      while todo != {}
        invariant todo <= hidden
        invariant entries == Advance(before, s, hidden - todo)
        decreases |todo|
      {
        var k :| k in todo;
        AdvanceStep(before, s, hidden - todo, k);
        TouchingAdvances(Lookup(before, k), s, k);
        assert hidden - (todo - {k}) == hidden - todo + {k};
        todo := todo - {k};
        TouchEntry(s, k, Ignored, None);
      }
      assert hidden - {} == hidden;
    }

    /** The third pass: what a trusted run no longer has is fixed. */
    method MarkGone(s: Snapshot, touched: set<Key>)
      requires touched == TouchedKeys(s)
      modifies this`entries
      ensures entries == Advance(old(entries), s, old(entries).Keys - touched)
    {
      hide Advance, FoldEntries, EntryAfter, SeenKeys, TouchedKeys, Trustworthy, Lookup, Gone;
      var trusted := Trustworthy(s);
      ghost var before := entries;
      var todo := entries.Keys - touched;
      ghost var rest := todo;
      NothingDone(before, s, rest);
      while todo != {}
        invariant todo <= rest
        invariant entries == Advance(before, s, rest - todo)
        decreases |todo|
      {
        var k :| k in todo;
        GoneStep(before, s, rest, todo, k);
        GoneMeans(entries[k], s, k);
        todo := todo - {k};
        var entry := entries[k];
        if entry.status != Fixed && k.repo in trusted {
          entry := entry.(status := Fixed, fixedAt := Some(s.run.at));
        }
        entries := entries[k := entry];
      }
      assert rest - {} == rest;
    }

    /** `fold`. */
    method Fold(s: Snapshot)
      modifies this
      ensures View() == FoldView(old(View()), s)
    {
      hide Advance, FoldEntries, EntryAfter, SeenKeys;
      var seen := Present(s.report);
      var hidden := (set k | k in s.suppressed) - seen.Keys;
      ghost var before := entries;
      TouchSeen(s, seen);
      TouchHidden(s, hidden);
      AdvanceTwice(before, s, seen.Keys, hidden);
      var touched := seen.Keys + hidden;
      assert touched == TouchedKeys(s);
      ghost var gone := entries.Keys - touched;
      MarkGone(s, touched);
      AdvanceTwice(before, s, touched, gone);
      AdvanceAll(before, s, touched + gone);
      runs := runs + [s.run.id];
      if s.packages.Some? {
        MergeNames(s.packages.value, s.run.at);
      }
    }

    /** `merge_packages` over one run's names. */
    method MergeNames(names: seq<PackageName>, at: Time)
      modifies this`packages
      ensures packages == MergePackages(old(packages), AllAt(names, at))
    {
      ghost var known := packages;
      for i := 0 to |names|
        invariant packages == MergePackages(known, AllAt(names[..i], at))
      {
        assert names[..i + 1] == names[..i] + [names[i]];
        assert AllAt(names[..i + 1], at) == AllAt(names[..i], at)[names[i] := at];
        packages := EarlierMerge(packages, names[i], at);
      }
      assert names[..|names|] == names;
    }

    /** The tail of `rebuild`: keep what the old index knew of findings whose snapshots are gone. */
    method MergeOld(prior: IndexView)
      modifies this
      ensures View() == IndexView(AppendNew(prior.runs, old(runs)), MergeEntries(old(entries), prior.entries),
                                  MergePackages(old(packages), prior.packages))
    {
      MergeOldEntries(prior.entries);
      MergeOldPackages(prior.packages);
      var merged := prior.runs;
      for i := 0 to |runs|
        invariant merged == AppendNew(prior.runs, runs[..i])
      {
        assert runs[..i + 1][..i] == runs[..i];
        if runs[i] !in merged {
          merged := merged + [runs[i]];
        }
      }
      assert runs[..|runs|] == runs;
      runs := merged;
    }

    method MergeOldEntries(prior: map<Key, Entry>)
      modifies this`entries
      ensures entries == MergeEntries(old(entries), prior)
    {
      hide MergeEntries, KeepOld, Lookup;
      ghost var rebuilt := entries;
      var todo := prior.Keys;
      MergeNoEntries(rebuilt, prior);
      while todo != {}
        invariant todo <= prior.Keys
        invariant entries == MergeEntries(rebuilt, prior - todo)
        decreases |todo|
      {
        var k :| k in todo;
        MergeEntriesStep(rebuilt, prior, todo, k);
        LookupBoth(entries, rebuilt, k);
        var e := prior[k];
        if k in entries {
          var kept := entries[k];
          if e.firstSeen < kept.firstSeen {
            kept := kept.(firstSeen := e.firstSeen);
          }
          kept := kept.(reopened := if e.reopened > kept.reopened then e.reopened else kept.reopened);
          KeptIs(entries[k], e, kept);
          entries := entries[k := kept];
        } else {
          entries := entries[k := e];
        }
        todo := todo - {k};
      }
      assert prior - {} == prior;
    }

    method MergeOldPackages(prior: map<PackageName, Time>)
      modifies this`packages
      ensures packages == MergePackages(old(packages), prior)
    {
      hide MergePackages, EarlierMerge;
      ghost var known := packages;
      var todo := prior.Keys;
      MergeNoPackages(known, prior);
      while todo != {}
        invariant todo <= prior.Keys
        invariant packages == MergePackages(known, prior - todo)
        decreases |todo|
      {
        var p :| p in todo;
        MergePackagesStep(known, prior, todo, p);
        packages := EarlierMerge(packages, p, prior[p]);
        todo := todo - {p};
      }
      assert prior - {} == prior;
    }
  }

  /** `rebuild`. */
  method Rebuild(snapshots: seq<Snapshot>, prior: Option<IndexView>) returns (index: Index)
    ensures fresh(index) && index.View() == RebuildView(snapshots, prior)
  {
    index := new Index(EMPTY);
    for i := 0 to |snapshots|
      invariant fresh(index) && index.View() == FoldAll(snapshots[..i])
    {
      assert snapshots[..i + 1][..i] == snapshots[..i];
      index.Fold(snapshots[i]);
    }
    assert snapshots[..|snapshots|] == snapshots;
    if prior.Some? {
      index.MergeOld(prior.value);
    }
  }
}
