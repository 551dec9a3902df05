/** What the health cache says of each use, and the gaps it leaves (crates/cli/src/health.rs). */
module HealthReport {
  import opened Wrappers
  import opened HealthCache

  /** One listing of a package: a repo can list the same version from several files. */
  datatype Use = Use(repo: string, ecosystem: Ecosystem, name: string, version: string, direct: bool, dev: bool,
                     source: string)

  datatype Project = Project(scorecard: Option<real>, archived: Option<bool>)

  /** What a report reads: the cached answers, the lookups that failed, and the source repos. */
  datatype View = View(answers: map<Key, Reply>, failed: set<Key>, sources: map<Key, Option<string>>,
                       projects: map<string, Project>, floor: Option<real>)

  type Identity = (string, Key, string)
  type GapKey = (string, string, Ecosystem)

  /** The id of a warning: signals said of one version carry it. */
  datatype FlagId = FlagId(signal: Signal, ecosystem: Ecosystem, name: string, version: Option<string>)

  datatype Place = Place(repo: string, name: string, version: string, direct: bool, dev: bool)

  function KeyOf(u: Use): Key {
    (u.ecosystem, u.name)
  }

  function IdentityOf(u: Use): Identity {
    (u.repo, KeyOf(u), u.version)
  }

  function GapOf(u: Use): GapKey {
    (u.repo, u.source, u.ecosystem)
  }

  function PlaceOf(u: Use): Place {
    Place(u.repo, u.name, u.version, u.direct, u.dev)
  }

  predicate PerVersion(s: Signal) {
    s in {Yanked, Retracted, Retired}
  }

  function IdOf(u: Use, f: Flag): FlagId {
    FlagId(f.signal, u.ecosystem, u.name, if PerVersion(f.signal) then Some(u.version) else None)
  }

  /** The cache's explicit answer for a use. */
  function Said(view: View, u: Use): Option<seq<Flag>> {
    if KeyOf(u) in view.answers && u.version in view.answers[KeyOf(u)].versions then
      Some(view.answers[KeyOf(u)].versions[u.version])
    else None
  }

  predicate Unanswered(view: View, u: Use) {
    HasRegistry(u.ecosystem) && (Said(view, u).None? || KeyOf(u) in view.failed)
  }

  /** What its source repo adds. */
  function ProjectFlags(view: View, u: Use): seq<Flag> {
    if KeyOf(u) in view.sources && view.sources[KeyOf(u)].Some? && view.sources[KeyOf(u)].value in view.projects then
      var id := view.sources[KeyOf(u)].value;
      var project := view.projects[id];
      (if project.archived == Some(true) then [Flag(Archived, id, None)] else [])
      + (if view.floor.Some? && project.scorecard.Some? && project.scorecard.value < view.floor.value
         then [Flag(LowScorecard, id, None)] else [])
    else []
  }

  function FlagsOf(view: View, u: Use): seq<Flag> {
    (if Said(view, u).Some? then Said(view, u).value else []) + ProjectFlags(view, u)
  }

  // ---- what the report must hold ----

  /** The first of its identity: the only one the report counts. */
  predicate First(used: seq<Use>, i: nat)
    requires i < |used|
  {
    forall j | 0 <= j < i :: IdentityOf(used[j]) != IdentityOf(used[i])
  }

  /** How many of the first `n` uses count as unanswered under gap `g`. */
  function Missing(view: View, used: seq<Use>, n: nat, g: GapKey): nat
    requires n <= |used|
  {
    if n == 0 then 0
    else
      Missing(view, used, n - 1, g)
      + if First(used, n - 1) && Unanswered(view, used[n - 1]) && GapOf(used[n - 1]) == g then 1 else 0
  }

  function Hits(u: Use, flags: seq<Flag>, id: FlagId): seq<Place> {
    if flags == [] then []
    else Hits(u, flags[..|flags| - 1], id) + if IdOf(u, flags[|flags| - 1]) == id then [PlaceOf(u)] else []
  }

  /** The places a warning lists: each counted use, once for each of its flags with the id. */
  function Listed(view: View, used: seq<Use>, n: nat, id: FlagId): seq<Place>
    requires n <= |used|
  {
    if n == 0 then []
    else
      Listed(view, used, n - 1, id)
      + if First(used, n - 1) then Hits(used[n - 1], FlagsOf(view, used[n - 1]), id) else []
  }

  ghost predicate Counts(view: View, used: seq<Use>, n: nat, gaps: map<GapKey, nat>)
    requires n <= |used|
  {
    && (forall g :: g in gaps <==> Missing(view, used, n, g) > 0)
    && (forall g | g in gaps :: gaps[g] == Missing(view, used, n, g))
  }

  ghost predicate Lists(view: View, used: seq<Use>, n: nat, findings: map<FlagId, seq<Place>>)
    requires n <= |used|
  {
    && (forall id :: id in findings <==> Listed(view, used, n, id) != [])
    && (forall id | id in findings :: findings[id] == Listed(view, used, n, id))
  }

  /** `report`. */
  method Report(used: seq<Use>, view: View) returns (findings: map<FlagId, seq<Place>>, gaps: map<GapKey, nat>)
    ensures Counts(view, used, |used|, gaps)
    ensures Lists(view, used, |used|, findings)
  {
    hide FlagsOf, Unanswered, Hits, Counts, Lists, Listed, Missing;
    findings, gaps := map[], map[];
    var seen: set<Identity> := {};
    NothingReported(view, used);
    for n := 0 to |used|
      invariant forall x :: x in seen <==> exists j :: 0 <= j < n && IdentityOf(used[j]) == x
      invariant Counts(view, used, n, gaps)
      invariant Lists(view, used, n, findings)
    {
      var u := used[n];
      assert First(used, n) <==> IdentityOf(u) !in seen;
      if IdentityOf(u) in seen {
        SkippedCount(view, used, n, gaps);
        SkippedListing(view, used, n, findings);
        continue;
      }
      seen := seen + {IdentityOf(u)};
      CountedUse(view, used, n, gaps);
      if Unanswered(view, u) {
        gaps := gaps[GapOf(u) := (if GapOf(u) in gaps then gaps[GapOf(u)] else 0) + 1];
      }
      findings := AddFlags(view, used, n, findings);
    }
  }

  lemma NothingReported(view: View, used: seq<Use>)
    ensures Counts(view, used, 0, map[]) && Lists(view, used, 0, map[])
  {
  }

  lemma SkippedCount(view: View, used: seq<Use>, n: nat, gaps: map<GapKey, nat>)
    requires n < |used| && !First(used, n) && Counts(view, used, n, gaps)
    ensures Counts(view, used, n + 1, gaps)
  {
    hide First, Unanswered;
    assert forall g :: Missing(view, used, n + 1, g) == Missing(view, used, n, g);
  }

  lemma SkippedListing(view: View, used: seq<Use>, n: nat, findings: map<FlagId, seq<Place>>)
    requires n < |used| && !First(used, n) && Lists(view, used, n, findings)
    ensures Lists(view, used, n + 1, findings)
  {
    hide First, FlagsOf;
    assert forall id :: Listed(view, used, n + 1, id) == Listed(view, used, n, id) + [];
    assert forall id :: Listed(view, used, n, id) + [] == Listed(view, used, n, id);
  }

  lemma CountedUse(view: View, used: seq<Use>, n: nat, gaps: map<GapKey, nat>)
    requires n < |used| && First(used, n) && Counts(view, used, n, gaps)
    ensures var g := GapOf(used[n]);
      Counts(view, used, n + 1,
        if Unanswered(view, used[n]) then gaps[g := (if g in gaps then gaps[g] else 0) + 1] else gaps)
  {
    hide First, Unanswered;
    forall g
      ensures Missing(view, used, n + 1, g) ==
        Missing(view, used, n, g) + if Unanswered(view, used[n]) && GapOf(used[n]) == g then 1 else 0
    {
    }
  }

  /** Each flag of a use, under its id. */
  method AddFlags(view: View, used: seq<Use>, n: nat, findings: map<FlagId, seq<Place>>)
    returns (after: map<FlagId, seq<Place>>)
    requires n < |used| && First(used, n) && Lists(view, used, n, findings)
    ensures Lists(view, used, n + 1, after)
  {
    hide First, FlagsOf, Lists;
    var u, flags := used[n], FlagsOf(view, used[n]);
    after := findings;
    assert PartlyListed(view, used, n, u, flags[..0], after) by {
      NotYetListed(view, used, n, u, findings);
    }
    for i := 0 to |flags|
      invariant PartlyListed(view, used, n, u, flags[..i], after)
    {
      var id := IdOf(u, flags[i]);
      assert flags[..i + 1] == flags[..i] + [flags[i]];
      ListedOneMore(view, used, n, u, flags[..i], flags[i], after);
      after := after[id := (if id in after then after[id] else []) + [PlaceOf(u)]];
    }
    assert flags[..|flags|] == flags;
    WhollyListed(view, used, n, after);
  }

  ghost predicate PartlyListed(view: View, used: seq<Use>, n: nat, u: Use, flags: seq<Flag>,
                               findings: map<FlagId, seq<Place>>)
    requires n <= |used|
  {
    && (forall id :: id in findings <==> Listed(view, used, n, id) + Hits(u, flags, id) != [])
    && (forall id | id in findings :: findings[id] == Listed(view, used, n, id) + Hits(u, flags, id))
  }

  lemma NotYetListed(view: View, used: seq<Use>, n: nat, u: Use, findings: map<FlagId, seq<Place>>)
    requires n <= |used| && Lists(view, used, n, findings)
    ensures PartlyListed(view, used, n, u, [], findings)
  {
    hide Listed;
    assert forall id :: Listed(view, used, n, id) + Hits(u, [], id) == Listed(view, used, n, id);
  }

  lemma ListedOneMore(view: View, used: seq<Use>, n: nat, u: Use, flags: seq<Flag>, f: Flag,
                      findings: map<FlagId, seq<Place>>)
    requires n <= |used| && PartlyListed(view, used, n, u, flags, findings)
    ensures var id := IdOf(u, f);
      PartlyListed(view, used, n, u, flags + [f],
        findings[id := (if id in findings then findings[id] else []) + [PlaceOf(u)]])
  {
    hide Listed;
    assert (flags + [f])[..|flags|] == flags;
    forall id
      ensures Listed(view, used, n, id) + Hits(u, flags + [f], id) ==
        (Listed(view, used, n, id) + Hits(u, flags, id)) + if IdOf(u, f) == id then [PlaceOf(u)] else []
    {
    }
  }

  lemma WhollyListed(view: View, used: seq<Use>, n: nat, findings: map<FlagId, seq<Place>>)
    requires n < |used| && First(used, n)
    requires PartlyListed(view, used, n, used[n], FlagsOf(view, used[n]), findings)
    ensures Lists(view, used, n + 1, findings)
  {
    hide First, FlagsOf, Hits;
    forall id
      ensures Listed(view, used, n + 1, id) == Listed(view, used, n, id) + Hits(used[n], FlagsOf(view, used[n]), id)
    {
    }
  }

  // ---- nothing is silent ----

  /** The first use with the identity of `used[i]`, looked for from `j` on. */
  function FirstFrom(used: seq<Use>, i: nat, j: nat): (k: nat)
    requires j <= i < |used|
    requires forall l | 0 <= l < j :: IdentityOf(used[l]) != IdentityOf(used[i])
    ensures k <= i && IdentityOf(used[k]) == IdentityOf(used[i]) && First(used, k)
    decreases i - j
  {
    if IdentityOf(used[j]) == IdentityOf(used[i]) then j else FirstFrom(used, i, j + 1)
  }

  lemma {:induction false} MissingCountsEach(view: View, used: seq<Use>, n: nat, j: nat)
    requires j < n <= |used| && First(used, j) && Unanswered(view, used[j])
    ensures Missing(view, used, n, GapOf(used[j])) > 0
  {
    hide First, Unanswered;
    if j < n - 1 {
      MissingCountsEach(view, used, n - 1, j);
    }
  }

  lemma {:induction false} HitsExactly(u: Use, flags: seq<Flag>, id: FlagId, p: Place)
    ensures p in Hits(u, flags, id) <==> p == PlaceOf(u) && exists f :: f in flags && IdOf(u, f) == id
  {
    if flags != [] {
      var init, last := flags[..|flags| - 1], flags[|flags| - 1];
      assert flags == init + [last];
      HitsExactly(u, init, id, p);
    }
  }

  ghost predicate Gives(view: View, u: Use, id: FlagId, p: Place) {
    p == PlaceOf(u) && exists f :: f in FlagsOf(view, u) && IdOf(u, f) == id
  }

  /** A warning lists exactly the places of the uses flagged with its id, each identity once. */
  lemma {:induction false} ListedExactly(view: View, used: seq<Use>, n: nat, id: FlagId, p: Place)
    requires n <= |used|
    ensures p in Listed(view, used, n, id) <==> exists j :: 0 <= j < n && First(used, j) && Gives(view, used[j], id, p)
  {
    hide First, FlagsOf, Hits;
    if n > 0 {
      ListedExactly(view, used, n - 1, id, p);
      HitsExactly(used[n - 1], FlagsOf(view, used[n - 1]), id, p);
      assert Gives(view, used[n - 1], id, p) <==> p in Hits(used[n - 1], FlagsOf(view, used[n - 1]), id);
    }
  }

  /** No answer is never clean: a use of a registry package is in a gap, or its registry answered for
      its very version and every flag it raised is listed; with neither, the answer is an explicit
      "nothing". Repeated listings stand behind the first. */
  lemma NoAnswerIsNeverClean(view: View, used: seq<Use>, findings: map<FlagId, seq<Place>>, gaps: map<GapKey, nat>,
                             i: nat)
    requires i < |used| && HasRegistry(used[i].ecosystem)
    requires Counts(view, used, |used|, gaps) && Lists(view, used, |used|, findings)
    ensures var first := used[FirstFrom(used, i, 0)];
      && (Unanswered(view, used[i]) ==> GapOf(first) in gaps && gaps[GapOf(first)] > 0)
      && (!Unanswered(view, used[i]) ==>
           && Said(view, used[i]).Some?
           && forall f | f in Said(view, used[i]).value ::
                IdOf(used[i], f) in findings && PlaceOf(first) in findings[IdOf(used[i], f)])
      && (GapOf(first) !in gaps && (forall id | id in findings :: PlaceOf(first) !in findings[id]) ==>
           Said(view, used[i]) == Some([]) && KeyOf(used[i]) !in view.failed)
  {
    hide First, Missing, Listed, HasRegistry, ProjectFlags;
    var j := FirstFrom(used, i, 0);
    var u := used[i];
    if Unanswered(view, u) {
      MissingCountsEach(view, used, |used|, j);
    } else {
      forall f | f in Said(view, u).value
        ensures IdOf(u, f) in findings && PlaceOf(used[j]) in findings[IdOf(u, f)]
      {
        assert f in FlagsOf(view, used[j]) && IdOf(used[j], f) == IdOf(u, f);
        assert Gives(view, used[j], IdOf(u, f), PlaceOf(used[j]));
        ListedExactly(view, used, |used|, IdOf(u, f), PlaceOf(used[j]));
      }
      if Said(view, u).value != [] {
        assert Said(view, u).value[0] in Said(view, u).value;
      }
    }
  }

  /** A registry package for whose version there is no cached answer, or whose lookup failed. */
  ghost predicate NoAnswerFor(view: View, u: Use) {
    var k := (u.ecosystem, u.name);
    && !Unregistered(u.ecosystem)
    && (k in view.failed || !(k in view.answers && u.version in view.answers[k].versions))
  }

  lemma {:induction false} MissingMeans(view: View, used: seq<Use>, n: nat, repo: string, source: string,
                                        ecosystem: Ecosystem)
    requires n <= |used|
    ensures Missing(view, used, n, (repo, source, ecosystem)) > 0 <==>
      exists j :: 0 <= j < n && First(used, j) && NoAnswerFor(view, used[j])
        && used[j].repo == repo && used[j].source == source && used[j].ecosystem == ecosystem
  {
    hide First;
    if n > 0 {
      MissingMeans(view, used, n - 1, repo, source, ecosystem);
    }
  }

  /** A repo's file has a gap exactly when it is the first listing of a use with no answer. */
  lemma GapsExactly(view: View, used: seq<Use>, gaps: map<GapKey, nat>, repo: string, source: string,
                    ecosystem: Ecosystem)
    requires Counts(view, used, |used|, gaps)
    ensures (repo, source, ecosystem) in gaps <==>
      exists j: nat :: j < |used| && NoAnswerFor(view, used[j])
        && used[j].repo == repo && used[j].source == source && used[j].ecosystem == ecosystem
        && forall i | 0 <= i < j ::
             !(used[i].repo == used[j].repo && used[i].ecosystem == used[j].ecosystem
               && used[i].name == used[j].name && used[i].version == used[j].version)
  {
    MissingMeans(view, used, |used|, repo, source, ecosystem);
    hide Missing, NoAnswerFor;
  }

  // ---- what is flagged, from the answers and the source repos ----

  /** The registry's cached answer for the use's own version raises the signal. */
  ghost predicate RegistryRaises(view: View, u: Use, signal: Signal) {
    var k := (u.ecosystem, u.name);
    k in view.answers && u.version in view.answers[k].versions
    && exists f :: f in view.answers[k].versions[u.version] && f.signal == signal
  }

  /** The package's source repo, where it is known and was looked up. */
  ghost predicate HasProject(view: View, u: Use, project: Project) {
    exists id ::
      Lookup(view.sources, (u.ecosystem, u.name)) == Some(Some(id)) && Lookup(view.projects, id) == Some(project)
  }

  /** The source repo is archived, or scores below the floor. */
  ghost predicate ProjectRaises(view: View, u: Use, signal: Signal) {
    exists project :: HasProject(view, u, project) &&
      match signal
      case Archived => project.archived == Some(true)
      case LowScorecard =>
        view.floor.Some? && project.scorecard.Some? && project.scorecard.value < view.floor.value
      case _ => false
  }

  /** The warning's id is the signal's on the use's package, and on its version for a signal about one release. */
  ghost predicate Names(id: FlagId, u: Use) {
    && id.ecosystem == u.ecosystem && id.name == u.name
    && id.version == if id.signal in {Yanked, Retracted, Retired} then Some(u.version) else None
  }

  function SaidFlags(view: View, u: Use): seq<Flag> {
    if Said(view, u).Some? then Said(view, u).value else []
  }

  lemma RegistryRaisesMeans(view: View, u: Use, signal: Signal)
    ensures (exists f :: f in SaidFlags(view, u) && f.signal == signal) <==> RegistryRaises(view, u, signal)
  {
  }

  lemma FlagsAre(view: View, u: Use, f: Flag)
    ensures f in FlagsOf(view, u) <==> f in SaidFlags(view, u) || f in ProjectFlags(view, u)
  {
    hide Said, ProjectFlags;
  }

  lemma RaisesMeans(view: View, u: Use, id: FlagId)
    ensures (exists f :: f in FlagsOf(view, u) && IdOf(u, f) == id) <==>
      Names(id, u) && (RegistryRaises(view, u, id.signal) || ProjectRaises(view, u, id.signal))
  {
    hide FlagsOf, SaidFlags, ProjectFlags, RegistryRaises, ProjectRaises, Said;
    RegistryRaisesMeans(view, u, id.signal);
    ProjectRaisesMeans(view, u, id.signal);
    forall f
      ensures f in FlagsOf(view, u) <==> f in SaidFlags(view, u) || f in ProjectFlags(view, u)
      ensures IdOf(u, f) == id <==> Names(id, u) && f.signal == id.signal
    {
      FlagsAre(view, u, f);
    }
    hide Names, IdOf;
  }

  lemma ProjectRaisesMeans(view: View, u: Use, signal: Signal)
    ensures (exists f :: f in ProjectFlags(view, u) && f.signal == signal) <==> ProjectRaises(view, u, signal)
  {
    if ProjectRaises(view, u, signal) {
      var id := view.sources[KeyOf(u)].value;
      assert Flag(signal, id, None) in ProjectFlags(view, u);
    }
    if f :| f in ProjectFlags(view, u) && f.signal == signal {
      assert HasProject(view, u, view.projects[view.sources[KeyOf(u)].value]);
    }
  }

  /** A warning is in the report exactly when some use of the package raises its signal: the registry says so of that
      version, or the source repo is archived, or it scores below the floor the run asks for. */
  lemma FlaggedExactlyWhenRaised(view: View, used: seq<Use>, findings: map<FlagId, seq<Place>>, id: FlagId)
    requires Lists(view, used, |used|, findings)
    ensures id in findings <==>
      exists u :: u in used && Names(id, u) && (RegistryRaises(view, u, id.signal) || ProjectRaises(view, u, id.signal))
  {
    hide Listed, First, FlagsOf, RegistryRaises, ProjectRaises, Names, Gives;
    if id in findings {
      var p := Listed(view, used, |used|, id)[0];
      ListedExactly(view, used, |used|, id, p);
      var j :| 0 <= j < |used| && First(used, j) && Gives(view, used[j], id, p);
      GivesRaises(view, used[j], id, p);
    }
    if u :| u in used && Names(id, u) && (RegistryRaises(view, u, id.signal) || ProjectRaises(view, u, id.signal)) {
      var i: nat :| i < |used| && used[i] == u;
      var j := FirstFrom(used, i, 0);
      RaisesMeans(view, u, id);
      SameFlags(view, u, used[j], id);
      ListedExactly(view, used, |used|, id, PlaceOf(used[j]));
      assert PlaceOf(used[j]) in Listed(view, used, |used|, id);
    }
  }

  lemma GivesRaises(view: View, u: Use, id: FlagId, p: Place)
    requires Gives(view, u, id, p)
    ensures Names(id, u) && (RegistryRaises(view, u, id.signal) || ProjectRaises(view, u, id.signal))
  {
    hide FlagsOf;
    RaisesMeans(view, u, id);
  }

  lemma SameFlags(view: View, u: Use, first: Use, id: FlagId)
    requires IdentityOf(u) == IdentityOf(first) && exists f :: f in FlagsOf(view, u) && IdOf(u, f) == id
    ensures Gives(view, first, id, PlaceOf(first))
  {
    var f :| f in FlagsOf(view, u) && IdOf(u, f) == id;
    assert f in FlagsOf(view, first) && IdOf(first, f) == id;
  }

  // ---- every unanswered use is counted once ----

  ghost function Total(gaps: map<GapKey, nat>): nat {
    if gaps == map[] then 0
    else
      var g :| g in gaps;
      gaps[g] + Total(gaps - {g})
  }

  lemma {:induction false} TotalWithout(gaps: map<GapKey, nat>, g: GapKey)
    requires g in gaps
    ensures Total(gaps) == gaps[g] + Total(gaps - {g})
    decreases |gaps|
  {
    var h :| h in gaps && Total(gaps) == gaps[h] + Total(gaps - {h});
    if h != g {
      TotalWithout(gaps - {h}, g);
      TotalWithout(gaps - {g}, h);
      assert (gaps - {h}) - {g} == (gaps - {g}) - {h};
    }
  }

  lemma TotalOneMore(gaps: map<GapKey, nat>, g: GapKey)
    ensures Total(gaps[g := (if g in gaps then gaps[g] else 0) + 1]) == Total(gaps) + 1
  {
    var more := gaps[g := (if g in gaps then gaps[g] else 0) + 1];
    TotalWithout(more, g);
    assert more - {g} == gaps - {g};
    if g in gaps {
      TotalWithout(gaps, g);
    } else {
      assert gaps - {g} == gaps;
    }
  }

  /** The distinct uses without an answer. */
  function UnansweredIdentities(view: View, used: seq<Use>, n: nat): set<Identity>
    requires n <= |used|
  {
    set i | 0 <= i < n && Unanswered(view, used[i]) :: IdentityOf(used[i])
  }

  /** The gaps of the first `n` uses, built as the report builds them. */
  function GapsAt(view: View, used: seq<Use>, n: nat): map<GapKey, nat>
    requires n <= |used|
  {
    if n == 0 then map[]
    else
      var gaps, g := GapsAt(view, used, n - 1), GapOf(used[n - 1]);
      if First(used, n - 1) && Unanswered(view, used[n - 1]) then gaps[g := (if g in gaps then gaps[g] else 0) + 1]
      else gaps
  }

  lemma UnansweredOneMore(view: View, used: seq<Use>, n: nat)
    requires n < |used|
    ensures |UnansweredIdentities(view, used, n + 1)| == |UnansweredIdentities(view, used, n)|
      + if First(used, n) && Unanswered(view, used[n]) then 1 else 0
  {
    var was, now := UnansweredIdentities(view, used, n), UnansweredIdentities(view, used, n + 1);
    var x := IdentityOf(used[n]);
    assert forall i | 0 <= i < n && IdentityOf(used[i]) == x :: Unanswered(view, used[i]) == Unanswered(view, used[n]);
    hide Unanswered;
    if Unanswered(view, used[n]) {
      assert now == was + {x};
      assert x in was <==> !First(used, n);
      if x in was {
        assert now == was;
      }
    } else {
      assert now == was;
    }
  }

  lemma {:induction false} GapsAtAddUp(view: View, used: seq<Use>, n: nat)
    requires n <= |used|
    ensures Counts(view, used, n, GapsAt(view, used, n))
    ensures Total(GapsAt(view, used, n)) == |UnansweredIdentities(view, used, n)|
  {
    hide First, Unanswered, Counts, Total, UnansweredIdentities;
    if n == 0 {
      NothingReported(view, used);
      NoTotal(view, used);
    } else {
      var gaps := GapsAt(view, used, n - 1);
      GapsAtAddUp(view, used, n - 1);
      UnansweredOneMore(view, used, n - 1);
      TotalOneMore(gaps, GapOf(used[n - 1]));
      if First(used, n - 1) {
        CountedUse(view, used, n - 1, gaps);
      } else {
        SkippedCount(view, used, n - 1, gaps);
      }
    }
  }

  lemma NoTotal(view: View, used: seq<Use>)
    ensures Total(map[]) == |UnansweredIdentities(view, used, 0)|
  {
  }

  /** Each distinct use of a registry package without an answer is counted in exactly one gap: the gaps
      add up to their number. */
  lemma GapsCountEachUseOnce(view: View, used: seq<Use>, gaps: map<GapKey, nat>)
    requires Counts(view, used, |used|, gaps)
    ensures Total(gaps) == |UnansweredIdentities(view, used, |used|)|
  {
    hide Missing, Unanswered, Total, UnansweredIdentities, GapsAt;
    GapsAtAddUp(view, used, |used|);
    assert gaps == GapsAt(view, used, |used|);
  }

  // ---- a whole run ----

  ghost function KeysOf(used: seq<Use>): set<Key> {
    set u | u in used :: KeyOf(u)
  }

  /** The versions in use of each package. */
  ghost function WantedOf(used: seq<Use>): map<Key, set<string>> {
    map k | k in KeysOf(used) :: set w | w in used && KeyOf(w) == k :: w.version
  }

  method Wanted(used: seq<Use>) returns (wanted: map<Key, set<string>>)
    ensures wanted == WantedOf(used)
  {
    wanted := map[];
    for n := 0 to |used|
      invariant forall k :: k in wanted <==> exists u :: u in used[..n] && KeyOf(u) == k
      invariant forall k, v | k in wanted ::
        v in wanted[k] <==> exists u :: u in used[..n] && KeyOf(u) == k && u.version == v
    {
      var u := used[n];
      assert used[..n + 1] == used[..n] + [u];
      var k := KeyOf(u);
      wanted := wanted[k := (if k in wanted then wanted[k] else {}) + {u.version}];
    }
    assert used[..|used|] == used;
    forall k | k in wanted
      ensures wanted[k] == WantedOf(used)[k]
    {
    }
  }

  /** `run`: the cache refreshed, then read. */
  method Run(used: seq<Use>, cache: Cache, fetch: Option<Registry>, now: int, sources: map<Key, Option<string>>,
             projects: map<string, Project>, floor: Option<real>)
    returns (findings: map<FlagId, seq<Place>>, gaps: map<GapKey, nat>, failed: set<Key>)
    requires cache.Valid()
    modifies cache, cache.Repr
    ensures cache.Valid()
    ensures RefreshedAll(old(cache.Contents()), Round(now, WantedOf(used), fetch), cache.Contents(), failed)
    ensures Counts(View(cache.Contents(), failed, sources, projects, floor), used, |used|, gaps)
    ensures Lists(View(cache.Contents(), failed, sources, projects, floor), used, |used|, findings)
  {
    hide RefreshedAll, WantedOf, Counts, Lists;
    var wanted := Wanted(used);
    var reason;
    failed, reason := cache.Refresh(Round(now, wanted, fetch));
    findings, gaps := Report(used, View(cache.Contents(), failed, sources, projects, floor));
  }

  /** After an online run the gaps are exactly the failed lookups and the versions the registry does not
      have; every other use is answered, within the freshness limit. */
  lemma OnlineGapsAreFailuresAndUnknownVersions(was: map<Key, Reply>, used: seq<Use>, fetch: Registry, now: int,
                                                  view: View, i: nat)
    requires i < |used| && HasRegistry(used[i].ecosystem)
    requires forall k | k in was :: was[k].Coherent()
    requires RefreshedAll(was, Round(now, WantedOf(used), Some(fetch)), view.answers, view.failed)
    ensures Unanswered(view, used[i]) <==>
      KeyOf(used[i]) in view.failed || Spoken(Lookup(view.answers, KeyOf(used[i])), used[i].version) == Absent
    ensures !Unanswered(view, used[i]) ==> now - view.answers[KeyOf(used[i])].fetched < FRESH_SECS
  {
    hide HasRegistry, Refreshes, Fails, Stale;
    var k, round := KeyOf(used[i]), Round(now, WantedOf(used), Some(fetch));
    var v := used[i].version;
    assert k in round.wanted && v in round.wanted[k];
    assert Refreshes(Lookup(was, k), k, round, Lookup(view.answers, k));
    RefreshKeepsOrRenews(Lookup(was, k), k, round, Lookup(view.answers, k), v);
    if k !in view.failed {
      AnsweredAfterAnOnlineRun(Lookup(was, k), k, round, Lookup(view.answers, k));
    }
  }
}
