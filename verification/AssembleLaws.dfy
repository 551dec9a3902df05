/** What `assemble` reports and how a scan exits, told by the records and the suppressions alone. */
module AssembleLaws {
  import opened Assemble
  import opened Severities
  import opened Wrappers

  // ---- suppressions ----

  /** The suppression's id is the finding's, or an alias one of its records has. */
  ghost predicate NamesFinding(s: Suppression, raws: seq<Raw>, k: GroupKey) {
    s.id == k.0 || exists r :: r in raws && (r.id, r.ecosystem, r.title) == k && s.id in r.aliases
  }

  /** Whatever the suppression is narrowed to, a repo, a package and version, or a package of an ecosystem, is the
      occurrence's own; a toolchain has none of them. */
  ghost predicate CoversPlace(s: Suppression, k: GroupKey, o: Occurrence) {
    match o
    case InRepo(repo, package, installed, _) =>
      s.repo in {None, Some(repo)} && s.package in {None, Some((package, installed))}
      && s.scope in {None, Some((k.1, package))}
    case Toolchain(_) =>
      s.repo == None && s.package == None && s.scope == None
  }

  ghost predicate Silenced(suppressions: seq<Suppression>, raws: seq<Raw>, k: GroupKey, o: Occurrence) {
    exists s :: s in suppressions && NamesFinding(s, raws, k) && CoversPlace(s, k, o)
  }

  lemma AppliesMeans(s: Suppression, raws: seq<Raw>, k: GroupKey, o: Occurrence)
    requires k in Groups(raws)
    ensures Applies(s, Groups(raws)[k], o) <==> NamesFinding(s, raws, k) && CoversPlace(s, k, o)
  {
    GroupsConserve(raws);
    hide Groups, Malware, Rated;
  }

  lemma MatchingMeans(suppressions: seq<Suppression>, raws: seq<Raw>, k: GroupKey, o: Occurrence)
    requires k in Groups(raws)
    ensures Matching(suppressions, Groups(raws)[k], o).Some? <==> Silenced(suppressions, raws, k, o)
  {
    hide Matching, Groups, Applies, NamesFinding, CoversPlace;
    forall s
      ensures Applies(s, Groups(raws)[k], o) <==> NamesFinding(s, raws, k) && CoversPlace(s, k, o)
    {
      AppliesMeans(s, raws, k, o);
    }
    if s :| s in suppressions && NamesFinding(s, raws, k) && CoversPlace(s, k, o) {
      var i :| 0 <= i < |suppressions| && suppressions[i] == s;
      assert Applies(suppressions[i], Groups(raws)[k], o);
    }
  }

  /** The records of a finding that place it at `o`. */
  ghost predicate Recorded(raws: seq<Raw>, k: GroupKey, o: Occurrence) {
    exists r :: r in raws && (r.id, r.ecosystem, r.title) == k && o in r.occurrences
  }

  /** An occurrence is in the report exactly when a record has it and no suppression of the finding covers its
      place: one that names another repo, package or ecosystem leaves it. */
  lemma ReportedUnlessSilenced(raws: seq<Raw>, warnings: seq<Warning>, suppressions: seq<Suppression>, out: Suppressed,
                               k: GroupKey, o: Occurrence)
    requires Accounts(Groups(raws), warnings, suppressions, out)
    ensures (k in out.findings && o in out.findings[k].occurrences)
      <==> Recorded(raws, k, o) && !Silenced(suppressions, raws, k, o)
  {
    OccurrencesAreConserved(raws, warnings, suppressions, out, k, o);
    GroupHoldsOccurrences(raws, k, o);
    if k in Groups(raws) {
      MatchingMeans(suppressions, raws, k, o);
    }
    hide Groups, Matching, Silenced, Malware;
  }

  /** Suppression `i` is the first that covers the occurrence. */
  ghost predicate FirstToCover(suppressions: seq<Suppression>, raws: seq<Raw>, k: GroupKey, o: Occurrence, i: nat) {
    && i < |suppressions| && NamesFinding(suppressions[i], raws, k) && CoversPlace(suppressions[i], k, o)
    && forall j | 0 <= j < i :: !(NamesFinding(suppressions[j], raws, k) && CoversPlace(suppressions[j], k, o))
  }

  ghost predicate FirstIs(suppressions: seq<Suppression>, raws: seq<Raw>, k: GroupKey, o: Occurrence, id: string) {
    exists i: nat :: FirstToCover(suppressions, raws, k, o, i) && suppressions[i].id == id
  }

  predicate FirstApplies(suppressions: seq<Suppression>, f: Finding, o: Occurrence, i: nat) {
    i < |suppressions| && Applies(suppressions[i], f, o) && forall j | 0 <= j < i :: !Applies(suppressions[j], f, o)
  }

  lemma {:induction false} FirstMatches(suppressions: seq<Suppression>, f: Finding, o: Occurrence)
    requires Matching(suppressions, f, o).Some?
    ensures exists i: nat ::
      FirstApplies(suppressions, f, o, i) && suppressions[i] == Matching(suppressions, f, o).value
  {
    hide Applies;
    if Applies(suppressions[0], f, o) {
      assert FirstApplies(suppressions, f, o, 0);
    } else {
      FirstMatches(suppressions[1..], f, o);
      var rest := suppressions[1..];
      var i: nat :| FirstApplies(rest, f, o, i) && rest[i] == Matching(rest, f, o).value;
      assert forall j | 1 <= j < i + 1 :: suppressions[j] == rest[j - 1];
      assert FirstApplies(suppressions, f, o, i + 1);
    }
  }

  lemma FirstToCoverMatches(suppressions: seq<Suppression>, raws: seq<Raw>, k: GroupKey, o: Occurrence, id: string)
    requires k in Groups(raws)
    ensures var m := Matching(suppressions, Groups(raws)[k], o);
      m.Some? && m.value.id == id
      <==> FirstIs(suppressions, raws, k, o, id)
  {
    hide Groups, Matching, Applies, NamesFinding, CoversPlace, Silenced;
    var f := Groups(raws)[k];
    forall s
      ensures Applies(s, f, o) <==> NamesFinding(s, raws, k) && CoversPlace(s, k, o)
    {
      AppliesMeans(s, raws, k, o);
    }
    MatchingMeans(suppressions, raws, k, o);
    if Matching(suppressions, f, o).Some? {
      FirstMatches(suppressions, f, o);
      var i: nat :| FirstApplies(suppressions, f, o, i) && suppressions[i] == Matching(suppressions, f, o).value;
      assert FirstToCover(suppressions, raws, k, o, i);
      forall i': nat | FirstToCover(suppressions, raws, k, o, i')
        ensures i' == i
      {
        assert Applies(suppressions[i'], f, o);
      }
    }
  }

  /** An id is stale exactly when it is listed, was never the first to cover an occurrence of a record, and no
      fleet-wide suppression with it names a warning. */
  lemma StaleIsExact(raws: seq<Raw>, warnings: seq<Warning>, suppressions: seq<Suppression>, out: Suppressed,
                     id: string)
    requires Accounts(Groups(raws), warnings, suppressions, out)
    ensures id in out.stale <==>
      && (exists s :: s in suppressions && s.id == id)
      && (forall k, o :: Recorded(raws, k, o) ==> !FirstIs(suppressions, raws, k, o, id))
      && !((exists w :: w in warnings && w.id == Some(id))
           && exists s :: s in suppressions && s.id == id && s.repo == None && s.package == None && s.scope == None)
  {
    hide Groups, Matching, Recorded, FirstIs, Malware;
    forall k, o
      ensures Recorded(raws, k, o) <==> k in Groups(raws) && o in Groups(raws)[k].occurrences
    {
      GroupHoldsOccurrences(raws, k, o);
      assert Recorded(raws, k, o) <==> exists r :: r in raws && KeyOf(r) == k && o in r.occurrences by {
        RecordedMeans(raws, k, o);
      }
    }
    forall k | k in Groups(raws)
      ensures id in MatchedBy(Groups(raws)[k], suppressions) <==>
        exists o :: Recorded(raws, k, o) && FirstIs(suppressions, raws, k, o, id)
    {
      MatchedMeans(raws, suppressions, k, id);
    }
    forall w | w in warnings && w.id == Some(id)
      ensures WarningSuppressed(w, suppressions) <==>
        (exists s :: s in suppressions && s.id == id && s.repo == None && s.package == None && s.scope == None)
    {
      assert forall s :: s in suppressions <==> exists i :: 0 <= i < |suppressions| && suppressions[i] == s;
    }
    hide MatchedBy, WarningSuppressed;
  }

  lemma RecordedMeans(raws: seq<Raw>, k: GroupKey, o: Occurrence)
    ensures Recorded(raws, k, o) <==> exists r :: r in raws && KeyOf(r) == k && o in r.occurrences
  {
    if r :| r in raws && KeyOf(r) == k && o in r.occurrences {
      assert (r.id, r.ecosystem, r.title) == k;
    }
  }

  lemma MatchedMeans(raws: seq<Raw>, suppressions: seq<Suppression>, k: GroupKey, id: string)
    requires k in Groups(raws)
    ensures id in MatchedBy(Groups(raws)[k], suppressions) <==>
      exists o :: Recorded(raws, k, o) && FirstIs(suppressions, raws, k, o, id)
  {
    hide Groups, Matching, FirstIs, Malware, Recorded;
    forall o
      ensures Recorded(raws, k, o) <==> o in Groups(raws)[k].occurrences
      ensures var m := Matching(suppressions, Groups(raws)[k], o);
        m.Some? && m.value.id == id
        <==> FirstIs(suppressions, raws, k, o, id)
    {
      GroupHoldsOccurrences(raws, k, o);
      RecordedMeans(raws, k, o);
      FirstToCoverMatches(suppressions, raws, k, o, id);
    }
  }

  // ---- the exit code ----

  /** A known severity no lower than the floor; an unknown one is at the unknown floor alone. */
  ghost predicate AtFloor(severity: Severity, floor: Severity) {
    match severity
    case Unknown => floor == Unknown
    case Low => floor in {Unknown, Low}
    case Medium => floor in {Unknown, Low, Medium}
    case High => floor != Critical
    case Critical => true
  }

  /** The finding's worst severity is at the floor, or none of its records gives one. */
  ghost predicate Reaches(raws: seq<Raw>, k: GroupKey, floor: Severity) {
    || (exists r :: r in raws && (r.id, r.ecosystem, r.title) == k && AtFloor(r.severity, floor))
    || (forall r :: r in raws && (r.id, r.ecosystem, r.title) == k ==> r.severity == Unknown)
  }

  /** The finding is known malware: a record of it has a malware name, as its id or as an alias. */
  ghost predicate IsMalware(raws: seq<Raw>, k: GroupKey) {
    || "MAL-" <= k.0
    || exists r, a :: r in raws && (r.id, r.ecosystem, r.title) == k && a in r.aliases && "MAL-" <= a
  }

  /** An occurrence that trips the gate: of known malware wherever it is; of a dev package by the gate for dev
      packages; and any other by the severity the run fails on. */
  ghost predicate Trips(raws: seq<Raw>, k: GroupKey, o: Occurrence, g: Gate) {
    if IsMalware(raws, k) then true
    else if o.InRepo? && o.dev then
      (match g.dev
       case Same => Reaches(raws, k, g.failOn)
       case From(floor) => Reaches(raws, k, floor)
       case Never => false)
    else Reaches(raws, k, g.failOn)
  }

  lemma IsMalwareMeans(raws: seq<Raw>, k: GroupKey)
    requires k in Groups(raws)
    ensures Malware(Groups(raws)[k].id, Groups(raws)[k].aliases) <==> IsMalware(raws, k)
  {
    GroupsConserve(raws);
    hide Groups, Rated;
    var f := Groups(raws)[k];
    if a :| a in f.aliases && MAL <= a {
      var r :| r in raws && KeyOf(r) == k && a in r.aliases;
      assert IsMalware(raws, k);
    }
    if r, a :| r in raws && (r.id, r.ecosystem, r.title) == k && a in r.aliases && "MAL-" <= a {
      assert KeyOf(r) == k;
      assert a in f.aliases;
    }
  }

  lemma ReachesMeans(raws: seq<Raw>, k: GroupKey, floor: Severity)
    requires k in Groups(raws) && !IsMalware(raws, k)
    ensures Gates(Groups(raws)[k].severity, floor) <==> Reaches(raws, k, floor)
  {
    var severity := Groups(raws)[k].severity;
    WorstOfRecords(raws, k);
    hide Groups;
    if AtFloor(severity, floor) {
      var r :| r in raws && (r.id, r.ecosystem, r.title) == k && r.severity == severity;
      assert AtFloor(r.severity, floor);
    }
  }

  /** Of a finding that is no malware, the group's severity is the worst its records give. */
  lemma WorstOfRecords(raws: seq<Raw>, k: GroupKey)
    requires k in Groups(raws) && !IsMalware(raws, k)
    ensures exists r :: r in raws && (r.id, r.ecosystem, r.title) == k && r.severity == Groups(raws)[k].severity
    ensures forall r | r in raws && (r.id, r.ecosystem, r.title) == k :: Groups(raws)[k].severity.AtLeast(r.severity)
  {
    GroupsConserve(raws);
    hide Groups, Malware;
    forall r | r in raws && KeyOf(r) == k
      ensures Rated(r) == r
    {
      NotRated(raws, k, r);
    }
    hide Rated;
    var r :| r in raws && KeyOf(r) == k && Rated(r).severity == Groups(raws)[k].severity;
  }

  lemma NotRated(raws: seq<Raw>, k: GroupKey, r: Raw)
    requires r in raws && KeyOf(r) == k && !IsMalware(raws, k)
    ensures Rated(r) == r
  {
  }

  /** A warning trips the gate unless dev packages never do and all it has are dev packages. */
  ghost predicate WarningTrips(w: Warning, g: Gate) {
    g.dev != Never || w.occurrences == {} || exists o :: o in w.occurrences && (o.InRepo? ==> !o.dev)
  }

  lemma TripsGates(raws: seq<Raw>, k: GroupKey, kept: Finding, g: Gate)
    requires k in Groups(raws) && kept.occurrences != {}
    requires kept == Groups(raws)[k].(occurrences := kept.occurrences)
    ensures VulnGates(kept, g) <==> exists o :: o in kept.occurrences && Trips(raws, k, o, g)
  {
    var f := Groups(raws)[k];
    IsMalwareMeans(raws, k);
    if IsMalware(raws, k) {
      MalwareGroupsAreCritical(raws, k);
      var o :| o in kept.occurrences;
      assert Trips(raws, k, o, g);
    } else {
      forall floor
        ensures Gates(f.severity, floor) <==> Reaches(raws, k, floor)
      {
        ReachesMeans(raws, k, floor);
      }
    }
    hide Groups, Malware, Gates, Reaches, IsMalware;
  }

  lemma WarningTripsGates(w: Warning, g: Gate)
    ensures WarningGates(w, g) <==> WarningTrips(w, g)
  {
  }

  /** An occurrence that no suppression covers trips the gate. */
  ghost predicate FindingAlarms(raws: seq<Raw>, suppressions: seq<Suppression>, g: Gate) {
    exists k, o ::
      k in Groups(raws) && Recorded(raws, k, o) && !Silenced(suppressions, raws, k, o) && Trips(raws, k, o, g)
  }

  /** A warning that no fleet-wide suppression names trips the gate. */
  ghost predicate WarningAlarms(warnings: seq<Warning>, suppressions: seq<Suppression>, g: Gate) {
    exists w :: w in warnings && WarningTrips(w, g) && !FleetWideNames(suppressions, w)
  }

  ghost predicate FleetWideNames(suppressions: seq<Suppression>, w: Warning) {
    exists s :: s in suppressions && Some(s.id) == w.id && s.repo == None && s.package == None && s.scope == None
  }

  lemma FindingAlarmsAre(raws: seq<Raw>, warnings: seq<Warning>, suppressions: seq<Suppression>, out: Suppressed,
                         g: Gate)
    requires Accounts(Groups(raws), warnings, suppressions, out)
    ensures (exists k :: k in out.findings && VulnGates(out.findings[k], g)) <==> FindingAlarms(raws, suppressions, g)
  {
    hide Groups, Matching, Silenced, Recorded, Malware, VulnGates, Trips;
    forall k | k in out.findings
      ensures k in Groups(raws)
      ensures VulnGates(out.findings[k], g) <==> exists o :: o in out.findings[k].occurrences && Trips(raws, k, o, g)
    {
      TripsGates(raws, k, out.findings[k], g);
    }
    forall k, o
      ensures (k in out.findings && o in out.findings[k].occurrences)
        <==> Recorded(raws, k, o) && !Silenced(suppressions, raws, k, o)
    {
      ReportedUnlessSilenced(raws, warnings, suppressions, out, k, o);
    }
    hide Accounts;
  }

  lemma WarningAlarmsAre(raws: seq<Raw>, warnings: seq<Warning>, suppressions: seq<Suppression>, out: Suppressed,
                         g: Gate)
    requires Accounts(Groups(raws), warnings, suppressions, out)
    ensures (exists i :: 0 <= i < |out.warnings| && WarningGates(out.warnings[i], g))
      <==> WarningAlarms(warnings, suppressions, g)
  {
    forall w
      ensures WarningGates(w, g) <==> WarningTrips(w, g)
      ensures WarningSuppressed(w, suppressions) <==> FleetWideNames(suppressions, w)
    {
      WarningTripsGates(w, g);
      assert forall s :: s in suppressions <==> exists i :: 0 <= i < |suppressions| && suppressions[i] == s;
    }
    assert forall w :: w in out.warnings <==> w in warnings && !WarningSuppressed(w, suppressions);
    assert forall w :: w in out.warnings <==> exists i :: 0 <= i < |out.warnings| && out.warnings[i] == w;
    hide Groups, Accounts, WarningGates, WarningTrips, WarningSuppressed, FleetWideNames;
    if w :| w in warnings && WarningTrips(w, g) && !FleetWideNames(suppressions, w) {
      var i :| 0 <= i < |out.warnings| && out.warnings[i] == w;
      assert WarningGates(out.warnings[i], g);
    }
  }

  /** The exit code in both directions. It is 2 exactly when something errored or nothing was scanned. Otherwise it is 1
      exactly when some occurrence that no suppression covers trips the gate, or the run fails on warnings and one
      that no fleet-wide suppression names does; and 0 when nothing does. */
  lemma ExitIsExact(raws: seq<Raw>, warnings: seq<Warning>, suppressions: seq<Suppression>, out: Suppressed,
                    scanned: nat, errored: nat, g: Gate)
    requires Accounts(Groups(raws), warnings, suppressions, out)
    ensures ExitCode(scanned, errored, out.findings, out.warnings, g) ==
      if errored > 0 || scanned == 0 then 2
      else if FindingAlarms(raws, suppressions, g) || (g.failOnWarnings && WarningAlarms(warnings, suppressions, g))
      then 1
      else 0
  {
    FindingAlarmsAre(raws, warnings, suppressions, out, g);
    WarningAlarmsAre(raws, warnings, suppressions, out, g);
    hide Groups, Accounts, FindingAlarms, WarningAlarms, VulnGates, WarningGates;
  }
}
