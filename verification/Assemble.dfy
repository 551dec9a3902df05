/** From scan output to a report and its exit code: grouping findings (crates/correlate/src/lib.rs),
    suppressing occurrences and gating (crates/cli/src/assemble.rs). */
module Assemble {
  import opened Severities
  import opened Wrappers

  /** `dev` marks a dev or build-only package. */
  datatype Occurrence =
    | InRepo(repo: string, package: string, installed: string, dev: bool)
    | Toolchain(channel: string)

  /** A finding as one feeder reports it. */
  datatype Raw = Raw(id: string, aliases: set<string>, ecosystem: string, title: string, severity: Severity,
                     occurrences: seq<Occurrence>)

  type GroupKey = (string, string, string)

  /** A finding of the fleet: occurrences in order, each once, are a set here. */
  datatype Finding = Finding(id: string, aliases: set<string>, ecosystem: string, title: string, severity: Severity,
                             occurrences: set<Occurrence>)

  function KeyOf(r: Raw): GroupKey {
    (r.id, r.ecosystem, r.title)
  }

  function Places(r: Raw): set<Occurrence> {
    set o | o in r.occurrences
  }

  // ---- malware ----

  const MAL := "MAL-"

  predicate Malware(id: string, aliases: set<string>) {
    MAL <= id || exists a :: a in aliases && MAL <= a
  }

  /** Known malware is critical whatever the record says. */
  function Rated(r: Raw): Raw {
    if Malware(r.id, r.aliases) then r.(severity := Critical) else r
  }

  // ---- grouping ----

  function Lone(r: Raw): Finding {
    Finding(r.id, r.aliases, r.ecosystem, r.title, r.severity, Places(r))
  }

  /** `merge_vuln`: the worst severity, and everything either one holds. */
  function Merged(f: Finding, r: Raw): Finding {
    f.(severity := Worse(f.severity, r.severity), aliases := f.aliases + r.aliases,
       occurrences := f.occurrences + Places(r))
  }

  function Grouped(groups: map<GroupKey, Finding>, r: Raw): map<GroupKey, Finding> {
    var k := KeyOf(r);
    groups[k := if k in groups then Merged(groups[k], r) else Lone(r)]
  }

  function Groups(raws: seq<Raw>): map<GroupKey, Finding> {
    if raws == [] then map[] else Grouped(Groups(raws[..|raws| - 1]), Rated(raws[|raws| - 1]))
  }

  /** What a group holds of its members: all of it, and nothing else; and the worst of their severities. */
  ghost predicate GroupHolds(raws: seq<Raw>, k: GroupKey, f: Finding) {
    && (f.id, f.ecosystem, f.title) == k
    && (forall o :: o in f.occurrences <==> exists r :: r in raws && KeyOf(r) == k && o in r.occurrences)
    && (forall a :: a in f.aliases <==> exists r :: r in raws && KeyOf(r) == k && a in r.aliases)
    && (forall r | r in raws && KeyOf(r) == k :: f.severity.AtLeast(Rated(r).severity))
    && exists r :: r in raws && KeyOf(r) == k && Rated(r).severity == f.severity
  }

  ghost predicate Conserves(raws: seq<Raw>, groups: map<GroupKey, Finding>) {
    && (forall k :: k in groups <==> exists r :: r in raws && KeyOf(r) == k)
    && (forall k | k in groups :: GroupHolds(raws, k, groups[k]))
  }

  lemma ConservesStep(raws: seq<Raw>, r: Raw, groups: map<GroupKey, Finding>)
    requires Conserves(raws, groups)
    ensures Conserves(raws + [r], Grouped(groups, Rated(r)))
  {
    hide Malware, GroupHolds, Merged, Lone;
    var all, after := raws + [r], Grouped(groups, Rated(r));
    assert forall x :: x in all <==> x in raws || x == r;
    forall k
      ensures k in after <==> exists x :: x in all && KeyOf(x) == k
    {
      if k in groups {
        var x :| x in raws && KeyOf(x) == k;
        assert x in all;
      } else if k == KeyOf(r) {
        assert r in all;
      }
    }
    forall k | k in after
      ensures GroupHolds(all, k, after[k])
    {
      GroupHoldsStep(raws, r, k, if k in groups then Some(groups[k]) else None);
    }
  }

  lemma GroupHoldsStep(raws: seq<Raw>, r: Raw, k: GroupKey, was: Option<Finding>)
    requires was.Some? ==> GroupHolds(raws, k, was.value)
    requires was.None? ==> (forall x | x in raws :: KeyOf(x) != k) && KeyOf(r) == k
    ensures GroupHolds(raws + [r], k,
      if KeyOf(r) == k then (if was.Some? then Merged(was.value, Rated(r)) else Lone(Rated(r))) else was.value)
  {
    hide Malware;
    var all := raws + [r];
    assert forall x :: x in all <==> x in raws || x == r;
    assert r in all && Rated(r).occurrences == r.occurrences && Rated(r).aliases == r.aliases;
    var f := if KeyOf(r) == k then (if was.Some? then Merged(was.value, Rated(r)) else Lone(Rated(r))) else was.value;
    forall o
      ensures o in f.occurrences <==> exists x :: x in all && KeyOf(x) == k && o in x.occurrences
    {
      if was.Some? && o in was.value.occurrences {
        var x :| x in raws && KeyOf(x) == k && o in x.occurrences;
        assert x in all;
      }
    }
    forall a
      ensures a in f.aliases <==> exists x :: x in all && KeyOf(x) == k && a in x.aliases
    {
      if was.Some? && a in was.value.aliases {
        var x :| x in raws && KeyOf(x) == k && a in x.aliases;
        assert x in all;
      }
    }
    if was.Some? {
      var x :| x in raws && KeyOf(x) == k && Rated(x).severity == was.value.severity;
      assert x in all;
      assert f.severity == was.value.severity || f.severity == Rated(r).severity;
    }
  }

  /** Grouping conserves every occurrence and alias, and takes the worst severity of the group. */
  lemma {:induction false} GroupsConserve(raws: seq<Raw>)
    ensures Conserves(raws, Groups(raws))
  {
    if raws != [] {
      var init, r := raws[..|raws| - 1], raws[|raws| - 1];
      assert raws == init + [r];
      GroupsConserve(init);
      ConservesStep(init, r, Groups(init));
    }
  }

  /** A group with a malware name, in any of its members, is critical. */
  lemma MalwareGroupsAreCritical(raws: seq<Raw>, k: GroupKey)
    requires k in Groups(raws) && Malware(Groups(raws)[k].id, Groups(raws)[k].aliases)
    ensures Groups(raws)[k].severity == Critical
  {
    GroupsConserve(raws);
    var f := Groups(raws)[k];
    hide Groups;
    var r: Raw;
    if MAL <= f.id {
      r :| r in raws && KeyOf(r) == k;
    } else {
      var a :| a in f.aliases && MAL <= a;
      r :| r in raws && KeyOf(r) == k && a in r.aliases;
    }
    assert Rated(r).severity == Critical;
  }

  // ---- suppressions ----

  datatype Suppression = Suppression(
    id: string,
    repo: Option<string>,
    package: Option<(string, string)>,
    scope: Option<(string, string)>)

  predicate Applies(s: Suppression, f: Finding, o: Occurrence) {
    && (s.id == f.id || s.id in f.aliases)
    && (s.repo.Some? ==> o.InRepo? && o.repo == s.repo.value)
    && (s.package.Some? ==> o.InRepo? && (o.package, o.installed) == s.package.value)
    && (s.scope.Some? ==> s.scope.value.0 == f.ecosystem && o.InRepo? && o.package == s.scope.value.1)
  }

  /** `matching_suppression`: the first that applies. */
  function Matching(suppressions: seq<Suppression>, f: Finding, o: Occurrence): (m: Option<Suppression>)
    ensures m.Some? <==> exists i :: 0 <= i < |suppressions| && Applies(suppressions[i], f, o)
  {
    if suppressions == [] then None
    else if Applies(suppressions[0], f, o) then
      Some(suppressions[0])
    else
      var rest := Matching(suppressions[1..], f, o);
      assert rest.None? ==> forall i | 0 <= i < |suppressions| :: i == 0 || suppressions[i] == suppressions[1..][i - 1];
      rest
  }

  function KeptOf(f: Finding, suppressions: seq<Suppression>): set<Occurrence> {
    set o | o in f.occurrences && Matching(suppressions, f, o).None?
  }

  function Narrowed(f: Finding, suppressions: seq<Suppression>): Finding {
    f.(occurrences := KeptOf(f, suppressions))
  }

  /** What a suppression took away: the finding's key and the occurrence. */
  type Taken = (GroupKey, Occurrence)

  datatype Warning = Warning(id: Option<string>, occurrences: set<Occurrence>)

  predicate FleetWide(s: Suppression) {
    s.repo.None? && s.package.None? && s.scope.None?
  }

  predicate WarningSuppressed(w: Warning, suppressions: seq<Suppression>) {
    w.id.Some? && exists i :: 0 <= i < |suppressions| && suppressions[i].id == w.id.value && FleetWide(suppressions[i])
  }

  function MatchedBy(f: Finding, suppressions: seq<Suppression>): set<string> {
    set o | o in f.occurrences && Matching(suppressions, f, o).Some? :: Matching(suppressions, f, o).value.id
  }

  datatype Suppressed = Suppressed(
    findings: map<GroupKey, Finding>,
    warnings: seq<Warning>,
    taken: set<Taken>,
    stale: seq<string>)

  /** `apply_suppressions`: each occurrence is kept or taken, never both; a finding goes only when
      nothing of it is kept; an id is stale when it was the first match of nothing. */
  ghost predicate Accounts(
    findings: map<GroupKey, Finding>, warnings: seq<Warning>, suppressions: seq<Suppression>, out: Suppressed)
  {
    && (forall k :: k in out.findings <==> k in findings && KeptOf(findings[k], suppressions) != {})
    && (forall k | k in out.findings :: out.findings[k] == Narrowed(findings[k], suppressions))
    && (forall k, o :: (k, o) in out.taken <==>
         k in findings && o in findings[k].occurrences && Matching(suppressions, findings[k], o).Some?)
    && (forall w :: w in out.warnings <==> w in warnings && !WarningSuppressed(w, suppressions))
    && (forall id :: id in out.stale <==>
         && (exists i :: 0 <= i < |suppressions| && suppressions[i].id == id)
         && (forall k | k in findings :: id !in MatchedBy(findings[k], suppressions))
         && (forall w | w in warnings :: w.id == Some(id) ==> !WarningSuppressed(w, suppressions)))
  }

  method SuppressFindings(findings: map<GroupKey, Finding>, suppressions: seq<Suppression>)
    returns (kept: map<GroupKey, Finding>, taken: set<Taken>, matched: set<string>)
    ensures forall k :: k in kept <==> k in findings && KeptOf(findings[k], suppressions) != {}
    ensures forall k | k in kept :: kept[k] == Narrowed(findings[k], suppressions)
    ensures forall k, o :: (k, o) in taken <==>
      k in findings && o in findings[k].occurrences && Matching(suppressions, findings[k], o).Some?
    ensures forall id :: id in matched <==> exists k :: k in findings && id in MatchedBy(findings[k], suppressions)
  {
    hide Matching, KeptOf, MatchedBy;
    kept, taken, matched := map[], {}, {};
    var todo := findings.Keys;
    while todo != {}
      invariant todo <= findings.Keys
      invariant forall k :: k in kept <==> k in findings && k !in todo && KeptOf(findings[k], suppressions) != {}
      invariant forall k | k in kept :: kept[k] == Narrowed(findings[k], suppressions)
      invariant forall k, o :: (k, o) in taken <==>
        k in findings && k !in todo && o in findings[k].occurrences && Matching(suppressions, findings[k], o).Some?
      invariant forall id :: id in matched <==>
        exists k :: k in findings && k !in todo && id in MatchedBy(findings[k], suppressions)
      decreases |todo|
    {
      var k :| k in todo;
      todo := todo - {k};
      var f := findings[k];
      var stay, gone, ids := SuppressOne(f, suppressions);
      taken := taken + set o | o in gone :: (k, o);
      matched := matched + ids;
      if stay != {} {
        kept := kept[k := f.(occurrences := stay)];
      }
    }
  }

  /** The ids that took one of `done`. */
  ghost predicate IdsOf(f: Finding, suppressions: seq<Suppression>, done: set<Occurrence>, ids: set<string>) {
    forall id :: id in ids <==>
      exists o :: o in done && Matching(suppressions, f, o).Some? && Matching(suppressions, f, o).value.id == id
  }

  lemma IdsOfStep(f: Finding, suppressions: seq<Suppression>, done: set<Occurrence>, ids: set<string>, o: Occurrence)
    requires IdsOf(f, suppressions, done, ids)
    ensures IdsOf(f, suppressions, done + {o},
      if Matching(suppressions, f, o).Some? then ids + {Matching(suppressions, f, o).value.id} else ids)
  {
    hide Matching, Applies;
  }

  lemma IdsOfAll(f: Finding, suppressions: seq<Suppression>, ids: set<string>)
    requires IdsOf(f, suppressions, f.occurrences, ids)
    ensures ids == MatchedBy(f, suppressions)
  {
    hide Matching, Applies;
  }

  /** One finding's occurrences, each asked for its first suppression. */
  method SuppressOne(f: Finding, suppressions: seq<Suppression>)
    returns (stay: set<Occurrence>, gone: set<Occurrence>, ids: set<string>)
    ensures stay == KeptOf(f, suppressions)
    ensures gone == set o | o in f.occurrences && Matching(suppressions, f, o).Some?
    ensures ids == MatchedBy(f, suppressions)
  {
    hide Matching, Applies, IdsOf, MatchedBy;
    stay, gone, ids := {}, {}, {};
    var todo, done := f.occurrences, {};
    assert IdsOf(f, suppressions, done, ids) by {
      NoIds(f, suppressions);
    }
    while todo != {}
      invariant todo + done == f.occurrences
      invariant forall o :: o in stay <==> o in done && Matching(suppressions, f, o).None?
      invariant forall o :: o in gone <==> o in done && Matching(suppressions, f, o).Some?
      invariant IdsOf(f, suppressions, done, ids)
      decreases |todo|
    {
      var o :| o in todo;
      IdsOfStep(f, suppressions, done, ids, o);
      todo, done := todo - {o}, done + {o};
      var m := Matching(suppressions, f, o);
      if m.Some? {
        ids := ids + {m.value.id};
        gone := gone + {o};
      } else {
        stay := stay + {o};
      }
    }
    assert done == f.occurrences;
    IdsOfAll(f, suppressions, ids);
  }

  lemma NoIds(f: Finding, suppressions: seq<Suppression>)
    ensures IdsOf(f, suppressions, {}, {})
  {
  }

  /** The warnings that stay, and the ids that took the others. */
  method SuppressWarnings(warnings: seq<Warning>, suppressions: seq<Suppression>)
    returns (kept: seq<Warning>, matched: set<string>)
    ensures forall w :: w in kept <==> w in warnings && !WarningSuppressed(w, suppressions)
    ensures forall id :: id in matched <==>
      exists w :: w in warnings && w.id == Some(id) && WarningSuppressed(w, suppressions)
  {
    hide WarningSuppressed;
    kept, matched := [], {};
    for n := 0 to |warnings|
      invariant forall w :: w in kept <==> w in warnings[..n] && !WarningSuppressed(w, suppressions)
      invariant forall id :: id in matched <==>
        exists w :: w in warnings[..n] && w.id == Some(id) && WarningSuppressed(w, suppressions)
    {
      var w := warnings[n];
      assert warnings[..n + 1] == warnings[..n] + [w];
      if WarningSuppressed(w, suppressions) {
        SuppressedHasId(w, suppressions);
        matched := matched + {w.id.value};
      } else {
        kept := kept + [w];
      }
    }
    assert warnings[..|warnings|] == warnings;
  }

  lemma SuppressedHasId(w: Warning, suppressions: seq<Suppression>)
    requires WarningSuppressed(w, suppressions)
    ensures w.id.Some?
  {
  }

  /** The ids that matched nothing, in order and each once. */
  method StaleIds(suppressions: seq<Suppression>, matched: set<string>) returns (stale: seq<string>)
    ensures forall id :: id in stale <==>
      id !in matched && exists i :: 0 <= i < |suppressions| && suppressions[i].id == id
    ensures forall i, j | 0 <= i < j < |stale| :: stale[i] != stale[j]
  {
    stale := [];
    for n := 0 to |suppressions|
      invariant forall id :: id in stale <==> id !in matched && exists i :: 0 <= i < n && suppressions[i].id == id
      invariant forall i, j | 0 <= i < j < |stale| :: stale[i] != stale[j]
    {
      var id := suppressions[n].id;
      if id !in matched && id !in stale {
        stale := stale + [id];
      }
    }
  }

  method ApplySuppressions(findings: map<GroupKey, Finding>, warnings: seq<Warning>, suppressions: seq<Suppression>)
    returns (out: Suppressed)
    ensures Accounts(findings, warnings, suppressions, out)
  {
    hide MatchedBy, WarningSuppressed, KeptOf, Matching;
    var kept, taken, matched := SuppressFindings(findings, suppressions);
    var stay, ids := SuppressWarnings(warnings, suppressions);
    var stale := StaleIds(suppressions, matched + ids);
    out := Suppressed(kept, stay, taken, stale);
  }

  /** `correlate`, over findings already rated: one pass, each finding into its group. */
  method Correlate(raws: seq<Raw>) returns (groups: map<GroupKey, Finding>)
    ensures groups == Groups(raws)
  {
    hide Malware;
    groups := map[];
    for i := 0 to |raws|
      invariant groups == Groups(raws[..i])
    {
      var r := Rated(raws[i]);
      assert raws[..i + 1][..i] == raws[..i];
      var k := KeyOf(r);
      groups := groups[k := if k in groups then Merged(groups[k], r) else Lone(r)];
    }
    assert raws[..|raws|] == raws;
  }

  /** `assemble`, without a severity filter. */
  method AssembleReport(raws: seq<Raw>, warnings: seq<Warning>, suppressions: seq<Suppression>)
    returns (out: Suppressed)
    ensures Accounts(Groups(raws), warnings, suppressions, out)
  {
    var groups := Correlate(raws);
    out := ApplySuppressions(groups, warnings, suppressions);
  }

  /** Occurrences are conserved: each input occurrence is in the report or taken, and not both. */
  lemma OccurrencesAreConserved(raws: seq<Raw>, warnings: seq<Warning>, suppressions: seq<Suppression>, out: Suppressed,
                                k: GroupKey, o: Occurrence)
    requires Accounts(Groups(raws), warnings, suppressions, out)
    ensures var kept := k in out.findings && o in out.findings[k].occurrences;
      var taken := (k, o) in out.taken;
      && !(kept && taken)
      && (kept || taken <==> exists r :: r in raws && KeyOf(r) == k && o in r.occurrences)
  {
    hide Groups, Matching, Malware, Conserves;
    GroupHoldsOccurrences(raws, k, o);
    assert k in Groups(raws) ==> (o in KeptOf(Groups(raws)[k], suppressions) <==>
      o in Groups(raws)[k].occurrences && Matching(suppressions, Groups(raws)[k], o).None?);
  }

  lemma GroupHoldsOccurrences(raws: seq<Raw>, k: GroupKey, o: Occurrence)
    ensures (k in Groups(raws) && o in Groups(raws)[k].occurrences) <==>
      exists r :: r in raws && KeyOf(r) == k && o in r.occurrences
  {
    GroupsConserve(raws);
    hide Groups, Malware;
  }

  // ---- gating ----

  datatype DevGate = Same | From(floor: Severity) | Never

  datatype Gate = Gate(failOn: Severity, failOnWarnings: bool, dev: DevGate)

  predicate IsDev(o: Occurrence) {
    o.InRepo? && o.dev
  }

  /** An unknown severity always trips the gate. */
  predicate Gates(severity: Severity, failOn: Severity) {
    severity == Unknown || severity.AtLeast(failOn)
  }

  function DevFloor(g: Gate): Option<Severity> {
    match g.dev
    case Same => Some(g.failOn)
    case From(floor) => Some(floor)
    case Never => None
  }

  /** `vuln_gates`. */
  predicate VulnGates(f: Finding, g: Gate) {
    var runtime := Gates(f.severity, g.failOn);
    if f.occurrences == {} || Malware(f.id, f.aliases) then runtime
    else
      var dev := DevFloor(g).Some? && Gates(f.severity, DevFloor(g).value);
      exists o :: o in f.occurrences && (if IsDev(o) then dev else runtime)
  }

  predicate WarningGates(w: Warning, g: Gate) {
    !g.dev.Never? || w.occurrences == {} || exists o :: o in w.occurrences && !IsDev(o)
  }

  /** `exit_code`: 2 when something was not scanned, 1 when the gate trips, else 0. */
  function ExitCode(scanned: nat, errored: nat, findings: map<GroupKey, Finding>, warnings: seq<Warning>,
                    g: Gate): nat
  {
    if errored > 0 || scanned == 0 then 2
    else if exists k :: k in findings && VulnGates(findings[k], g) then 1
    else if g.failOnWarnings && exists i :: 0 <= i < |warnings| && WarningGates(warnings[i], g) then 1
    else 0
  }

  /** An occurrence that may stand in a clean report: on a dev package when those never gate, or of a
      known severity below the floor of its scope. */
  predicate Excused(severity: Severity, o: Occurrence, g: Gate) {
    if IsDev(o) && g.dev.Never? then true
    else severity != Unknown && !severity.AtLeast(if IsDev(o) then DevFloor(g).value else g.failOn)
  }

  ghost predicate Claimed(suppressions: seq<Suppression>, f: Finding, o: Occurrence) {
    exists i :: 0 <= i < |suppressions| && Applies(suppressions[i], f, o)
  }

  lemma UngatedIsExcused(f: Finding, g: Gate, o: Occurrence)
    requires !VulnGates(f, g) && o in f.occurrences
    ensures Malware(f.id, f.aliases) ==> !f.severity.AtLeast(g.failOn)
    ensures !Malware(f.id, f.aliases) ==> Excused(f.severity, o, g)
  {
    hide Malware;
  }

  /** No false clean, by the group: with no severity filter, exit 0 means something was scanned, nothing
      errored, and every input occurrence is claimed by a suppression or excused by its group's severity;
      malware only by a suppression. */
  lemma NoFalseCleanByGroup(raws: seq<Raw>, warnings: seq<Warning>, suppressions: seq<Suppression>, out: Suppressed,
                            scanned: nat, errored: nat, g: Gate, r: Raw, o: Occurrence)
    requires Accounts(Groups(raws), warnings, suppressions, out)
    requires ExitCode(scanned, errored, out.findings, out.warnings, g) == 0
    requires r in raws && o in r.occurrences
    ensures scanned > 0 && errored == 0
    ensures KeyOf(r) in Groups(raws)
    ensures var f := Groups(raws)[KeyOf(r)];
      Claimed(suppressions, f, o) || (!Malware(f.id, f.aliases) && Excused(f.severity, o, g))
  {
    hide Groups, Matching, Applies, VulnGates, Malware, Excused, WarningGates;
    HeldByItsGroup(raws, r, o);
    var k := KeyOf(r);
    var f := Groups(raws)[k];
    if Matching(suppressions, f, o).None? {
      assert o in KeptOf(f, suppressions);
      var kept := out.findings[k];
      assert kept == Narrowed(f, suppressions) && !VulnGates(kept, g);
      assert Critical.AtLeast(g.failOn);
      if Malware(f.id, f.aliases) {
        MalwareGroupsAreCritical(raws, k);
      }
      UngatedIsExcused(kept, g, o);
    }
  }

  /** No false clean, by the record itself: exit 0 means something was scanned, nothing errored, and every
      input occurrence is claimed by a suppression, or is of no known malware and the severity its own record
      gave it is excused: known and below its scope's floor, or on a dev package when those never gate. The one
      gap is a record without a severity, hidden by known ones of the same finding. */
  lemma NoFalseClean(raws: seq<Raw>, warnings: seq<Warning>, suppressions: seq<Suppression>, out: Suppressed,
                     scanned: nat, errored: nat, g: Gate, r: Raw, o: Occurrence)
    requires Accounts(Groups(raws), warnings, suppressions, out)
    requires ExitCode(scanned, errored, out.findings, out.warnings, g) == 0
    requires r in raws && o in r.occurrences
    ensures scanned > 0 && errored == 0
    ensures KeyOf(r) in Groups(raws)
    ensures
      || Claimed(suppressions, Groups(raws)[KeyOf(r)], o)
      || (!Malware(r.id, r.aliases)
          && (Excused(Rated(r).severity, o, g) || HidesUnknown(raws, r, ScopeFloor(o, g))))
  {
    NoFalseCleanByGroup(raws, warnings, suppressions, out, scanned, errored, g, r, o);
    hide Groups, Claimed, Applies, ExitCode, Accounts;
    var f := Groups(raws)[KeyOf(r)];
    if !Claimed(suppressions, f, o) {
      MalwareIsInItsGroup(raws, r);
      UnknownIsHiddenExactlyByKnownRecords(raws, r, ScopeFloor(o, g));
      hide Malware, Rated, HidesUnknown;
    }
  }

  /** The floor an occurrence is gated at; dev packages that never gate are excused before it is asked. */
  function ScopeFloor(o: Occurrence, g: Gate): Severity {
    if IsDev(o) && DevFloor(g).Some? then DevFloor(g).value else g.failOn
  }

  lemma MalwareIsInItsGroup(raws: seq<Raw>, r: Raw)
    requires r in raws
    ensures KeyOf(r) in Groups(raws)
    ensures Malware(r.id, r.aliases) ==> Malware(Groups(raws)[KeyOf(r)].id, Groups(raws)[KeyOf(r)].aliases)
  {
    GroupsConserve(raws);
    hide Groups;
    var f := Groups(raws)[KeyOf(r)];
    if a :| a in r.aliases && MAL <= a {
      assert a in f.aliases;
    }
  }

  lemma HeldByItsGroup(raws: seq<Raw>, r: Raw, o: Occurrence)
    requires r in raws && o in r.occurrences
    ensures KeyOf(r) in Groups(raws) && o in Groups(raws)[KeyOf(r)].occurrences
  {
    GroupsConserve(raws);
    hide Groups, Malware;
  }

  /** A record without a severity among records of the same finding that have one, all below the floor. */
  ghost predicate HidesUnknown(raws: seq<Raw>, r: Raw, floor: Severity) {
    && Rated(r).severity == Unknown
    && (exists x :: x in raws && KeyOf(x) == KeyOf(r) && Rated(x).severity != Unknown)
    && forall x | x in raws && KeyOf(x) == KeyOf(r) :: !Rated(x).severity.AtLeast(floor)
  }

  /** Grouping loses a severity that gates exactly where a record gives none and others of its finding give
      known ones, all below the floor. */
  lemma UnknownIsHiddenExactlyByKnownRecords(raws: seq<Raw>, r: Raw, floor: Severity)
    requires r in raws
    ensures KeyOf(r) in Groups(raws)
    ensures Gates(Rated(r).severity, floor) && !Gates(Groups(raws)[KeyOf(r)].severity, floor)
      <==> HidesUnknown(raws, r, floor)
  {
    GroupsConserve(raws);
    hide Groups, Malware;
  }

  /** When the records of one advisory agree on its severity, the group's severity is the input's. */
  lemma AgreeingRecordsHideNothing(raws: seq<Raw>, r: Raw)
    requires r in raws
    requires forall x | x in raws && KeyOf(x) == KeyOf(r) :: Rated(x).severity == Rated(r).severity
    ensures KeyOf(r) in Groups(raws) && Groups(raws)[KeyOf(r)].severity == Rated(r).severity
  {
    GroupsConserve(raws);
    hide Groups, Malware;
  }

  /** The gap is real: of two records of one advisory, one rated low and one not rated, the fleet
      gating on high exits clean. */
  lemma UnknownHiddenHappens(low: Raw, unrated: Raw, g: Gate)
    requires KeyOf(low) == KeyOf(unrated) && low.severity == Low && unrated.severity == Unknown
    requires !Malware(low.id, low.aliases) && !Malware(unrated.id, unrated.aliases)
    requires g == Gate(High, false, Same) && unrated.occurrences != []
    ensures Gates(unrated.severity, g.failOn)
    ensures ExitCode(1, 0, Groups([unrated, low]), [], g) == 0
  {
    var k := KeyOf(low);
    assert [unrated, low][..1] == [unrated] && [unrated][..0] == [];
    assert Groups([unrated]) == map[k := Lone(unrated)];
    assert Groups([unrated, low]) == map[k := Merged(Lone(unrated), low)];
  }
}
