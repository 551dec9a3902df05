/** Attributing new findings to a change and gating on them (crates/cli/src/attribute.rs). */
module Attribute {
  import opened Wrappers
  import S = Severities
  import A = Assemble
  import L = AssembleLaws

  datatype Occurrence =
    | InRepo(repo: string, package: string, installed: string, direct: Option<string>, dev: bool)
    | Toolchain(channel: string)

  /** One occurrence as a report lists it; a warning has no severity. */
  datatype Listing = Listing(advisory: string, severity: Option<S.Severity>, malware: bool, occurrence: Occurrence)

  datatype Origin = Introduced | Unknown | Existing

  datatype Place = Place(file: string, line: nat)

  datatype Attributed = Attributed(origin: Origin, advisory: string, severity: Option<S.Severity>,
                                   repo: Option<string>, package: string, version: string, at: Option<Place>,
                                   dev: bool, direct: Option<string>)

  /** Repo, advisory, package, version: what makes a finding new. */
  type Key = (string, string, string, string)

  function KeyOf(l: Listing): Key {
    match l.occurrence
    case InRepo(repo, package, installed, _, _) => (repo, l.advisory, package, installed)
    case Toolchain(channel) => ("", l.advisory, channel, "")
  }

  function KeyOfAttributed(a: Attributed): Key {
    (if a.repo.Some? then a.repo.value else "", a.advisory, a.package, a.version)
  }

  predicate InDevScope(o: Occurrence) {
    o.InRepo? && o.dev
  }

  function Unplaced(l: Listing): Attributed {
    var k := KeyOf(l);
    Attributed(Unknown, l.advisory, l.severity, if k.0 == "" then None else Some(k.0), k.2, k.3, None,
      InDevScope(l.occurrence) && !l.malware, if l.occurrence.InRepo? then l.occurrence.direct else None)
  }

  // ---- what is new ----

  predicate Known(baseline: seq<Listing>, k: Key) {
    exists i | 0 <= i < |baseline| :: KeyOf(baseline[i]) == k
  }

  /** The first listing of its key: the one that speaks for the others. */
  predicate First(current: seq<Listing>, i: nat)
    requires i < |current|
  {
    forall j | 0 <= j < i :: KeyOf(current[j]) != KeyOf(current[i])
  }

  /** The attributed findings are exactly the first listings of the keys the baseline lacks, one each. */
  ghost predicate IsNew(baseline: seq<Listing>, current: seq<Listing>, n: nat, out: seq<Attributed>)
    requires n <= |current|
  {
    && (forall a :: a in out <==>
         exists i :: 0 <= i < n && First(current, i) && !Known(baseline, KeyOf(current[i]))
           && a == Unplaced(current[i]))
    && (forall i, j | 0 <= i < j < |out| :: KeyOfAttributed(out[i]) != KeyOfAttributed(out[j]))
  }

  lemma UnplacedKeepsTheKey(l: Listing)
    ensures KeyOfAttributed(Unplaced(l)) == KeyOf(l)
  {
  }

  method NewOccurrences(baseline: seq<Listing>, current: seq<Listing>) returns (out: seq<Attributed>)
    ensures IsNew(baseline, current, |current|, out)
  {
    hide Unplaced, KeyOf, KeyOfAttributed;
    var known: set<Key> := {};
    for i := 0 to |baseline|
      invariant forall k :: k in known <==> exists j :: 0 <= j < i && KeyOf(baseline[j]) == k
    {
      known := known + {KeyOf(baseline[i])};
    }
    assert forall k :: k in known <==> Known(baseline, k);
    var seen: set<Key> := {};
    out := [];
    for i := 0 to |current|
      invariant forall k :: k in seen <==>
        !Known(baseline, k) && exists j :: 0 <= j < i && KeyOf(current[j]) == k
      invariant IsNew(baseline, current, i, out)
    {
      var k := KeyOf(current[i]);
      UnplacedKeepsTheKey(current[i]);
      if k !in known && k !in seen {
        NewOne(baseline, current, i, out);
        seen := seen + {k};
        out := out + [Unplaced(current[i])];
      } else {
        NotNew(baseline, current, i, out);
      }
    }
  }

  lemma NewOne(baseline: seq<Listing>, current: seq<Listing>, i: nat, out: seq<Attributed>)
    requires i < |current| && IsNew(baseline, current, i, out)
    requires First(current, i) && !Known(baseline, KeyOf(current[i]))
    ensures IsNew(baseline, current, i + 1, out + [Unplaced(current[i])])
  {
    hide Unplaced, KeyOf, KeyOfAttributed, Known;
    var more := out + [Unplaced(current[i])];
    UnplacedKeepsTheKey(current[i]);
    forall a | a in out
      ensures KeyOfAttributed(a) != KeyOf(current[i])
    {
      var j :| 0 <= j < i && First(current, j) && !Known(baseline, KeyOf(current[j])) && a == Unplaced(current[j]);
      UnplacedKeepsTheKey(current[j]);
    }
    assert forall a :: a in more <==> a in out || a == Unplaced(current[i]);
  }

  lemma NotNew(baseline: seq<Listing>, current: seq<Listing>, i: nat, out: seq<Attributed>)
    requires i < |current| && IsNew(baseline, current, i, out)
    requires !First(current, i) || Known(baseline, KeyOf(current[i]))
    ensures IsNew(baseline, current, i + 1, out)
  {
    hide Unplaced, KeyOf, KeyOfAttributed, Known;
  }

  // ---- where it came from ----

  /** A tracked lockfile that may hold the package at its version: the line at HEAD and at the merge base. */
  datatype Lock = Lock(file: string, head: Option<nat>, base: Option<nat>)

  predicate Introduces(l: Lock) {
    l.head.Some? && l.base.None?
  }

  /** `at` is the first of the lockfiles that introduces the package. */
  ghost predicate IntroducedAt(locks: seq<Lock>, at: Place) {
    exists i | 0 <= i < |locks| ::
      Introduces(locks[i]) && at == Place(locks[i].file, locks[i].head.value)
      && forall j | 0 <= j < i :: !Introduces(locks[j])
  }

  /** `at` is the first of the lockfiles that holds the package. */
  ghost predicate HeldAt(locks: seq<Lock>, at: Place) {
    exists i | 0 <= i < |locks| ::
      locks[i].head.Some? && at == Place(locks[i].file, locks[i].head.value)
      && forall j | 0 <= j < i :: locks[j].head.None?
  }

  /** Placed by the lockfiles: introduced when one holds it only now, existing when every one that holds
      it held it at the merge base, else still unknown; at the first lockfile that says so. */
  ghost predicate Placed(a: Attributed, locks: seq<Lock>, b: Attributed) {
    && b.(origin := a.origin, at := a.at) == a
    && (b.origin.Introduced? <==> exists i | 0 <= i < |locks| :: Introduces(locks[i]))
    && (b.origin.Unknown? <==> forall i | 0 <= i < |locks| :: locks[i].head.None?)
    && (b.origin.Introduced? ==> b.at.Some? && IntroducedAt(locks, b.at.value))
    && (b.origin.Existing? ==> b.at.Some? && HeldAt(locks, b.at.value))
    && (b.origin.Unknown? ==> b.at == a.at)
  }

  method PlaceOne(a: Attributed, locks: seq<Lock>) returns (b: Attributed)
    requires a.origin.Unknown? && a.at.None?
    ensures Placed(a, locks, b)
  {
    b := a;
    for i := 0 to |locks|
      invariant b.(origin := a.origin, at := a.at) == a
      invariant forall j | 0 <= j < i :: !Introduces(locks[j])
      invariant b.origin.Unknown? || b.origin.Existing?
      invariant b.origin.Unknown? <==> forall j | 0 <= j < i :: locks[j].head.None?
      invariant b.origin.Unknown? ==> b.at.None?
      invariant b.origin.Existing? ==> b.at.Some? && HeldAt(locks, b.at.value)
    {
      var lock := locks[i];
      if lock.head.None? {
        continue;
      }
      var at := Place(lock.file, lock.head.value);
      if lock.base.None? {
        assert Introduces(locks[i]) && IntroducedAt(locks, at);
        b := b.(origin := Introduced, at := Some(at));
        return;
      }
      b := b.(origin := Existing, at := if b.at.None? then Some(at) else b.at);
    }
  }

  // ---- the gate ----

  predicate Gates(a: Attributed, g: A.Gate) {
    var floor := if a.dev then A.DevFloor(g) else Some(g.failOn);
    && floor.Some?
    && !a.origin.Existing?
    && if a.severity.Some? then A.Gates(a.severity.value, floor.value) else g.failOnWarnings
  }

  /** A place only ever lifts the gate from a finding that HEAD holds somewhere and the merge base held
      in every file HEAD holds it in: a format nothing can read hides no finding. */
  lemma PlacingHidesOnlyWhatWasThere(a: Attributed, locks: seq<Lock>, b: Attributed, g: A.Gate)
    requires a.origin.Unknown? && Placed(a, locks, b)
    ensures Gates(b, g) <==>
      && Gates(a, g)
      && !((exists i :: 0 <= i < |locks| && locks[i].head.Some?)
           && forall i | 0 <= i < |locks| && locks[i].head.Some? :: locks[i].base.Some?)
  {
    assert b.dev == a.dev && b.severity == a.severity;
    if b.origin.Introduced? {
      var i :| 0 <= i < |locks| && Introduces(locks[i]);
    } else {
      assert forall i | 0 <= i < |locks| :: !Introduces(locks[i]);
    }
  }

  /** The first listing of a key. */
  function FirstOf(current: seq<Listing>, i: nat, j: nat): (k: nat)
    requires j <= i < |current|
    requires forall l | 0 <= l < j :: KeyOf(current[l]) != KeyOf(current[i])
    ensures k <= i && KeyOf(current[k]) == KeyOf(current[i]) && First(current, k)
    decreases i - j
  {
    if KeyOf(current[j]) == KeyOf(current[i]) then j else FirstOf(current, i, j + 1)
  }

  ghost predicate Caught(out: seq<Attributed>, k: Key, g: A.Gate) {
    exists a :: a in out && KeyOfAttributed(a) == k && Gates(a, g)
  }

  /** Before placing, a new occurrence is caught exactly when the first listing of its key gates: that
      listing's severity and scope stand for all of them. */
  lemma NewFindingsAreCaughtByTheFirstListing(baseline: seq<Listing>, current: seq<Listing>, out: seq<Attributed>,
                                              i: nat, g: A.Gate)
    requires IsNew(baseline, current, |current|, out)
    requires i < |current| && !Known(baseline, KeyOf(current[i]))
    ensures Caught(out, KeyOf(current[i]), g) <==> Gates(Unplaced(current[FirstOf(current, i, 0)]), g)
  {
    hide Unplaced, KeyOf, KeyOfAttributed, Known, Gates;
    var k, f := KeyOf(current[i]), FirstOf(current, i, 0);
    UnplacedKeepsTheKey(current[f]);
    assert Unplaced(current[f]) in out;
    forall a | a in out && KeyOfAttributed(a) == k
      ensures a == Unplaced(current[f])
    {
      var j :| 0 <= j < |current| && First(current, j) && !Known(baseline, KeyOf(current[j]))
        && a == Unplaced(current[j]);
      UnplacedKeepsTheKey(current[j]);
    }
  }

  // ---- in the listings' own terms ----

  /** Two listings of one advisory on one package at one version in one repo, or on one toolchain channel. */
  ghost predicate SameFinding(x: Listing, y: Listing) {
    x.advisory == y.advisory &&
    match (x.occurrence, y.occurrence)
    case (InRepo(repo, package, installed, _, _), InRepo(repo', package', installed', _, _)) =>
      repo == repo' && package == package' && installed == installed'
    case (Toolchain(channel), Toolchain(channel')) => channel == channel'
    case (InRepo(repo, package, installed, _, _), Toolchain(channel)) =>
      repo == "" && installed == "" && package == channel
    case (Toolchain(channel), InRepo(repo, package, installed, _, _)) =>
      repo == "" && installed == "" && package == channel
  }

  /** What is said of a new finding: its listing's own word, as a dev finding only when it is no malware. */
  ghost predicate Tells(a: Attributed, l: Listing) {
    match l.occurrence
    case InRepo(repo, package, installed, direct, dev) =>
      a == Attributed(Unknown, l.advisory, l.severity, if repo == "" then None else Some(repo), package, installed,
                      None, dev && !l.malware, direct)
    case Toolchain(channel) =>
      a == Attributed(Unknown, l.advisory, l.severity, None, channel, "", None, false, None)
  }

  /** The listing is new, and the first of its finding. */
  ghost predicate SpeaksUp(baseline: seq<Listing>, current: seq<Listing>, i: nat) {
    && i < |current|
    && (forall l :: l in baseline ==> !SameFinding(l, current[i]))
    && forall j | 0 <= j < i :: !SameFinding(current[j], current[i])
  }

  lemma SameFindingMeans(x: Listing, y: Listing)
    ensures KeyOf(x) == KeyOf(y) <==> SameFinding(x, y)
  {
  }

  lemma SpeaksUpMeans(baseline: seq<Listing>, current: seq<Listing>, i: nat)
    requires i < |current|
    ensures First(current, i) && !Known(baseline, KeyOf(current[i])) <==> SpeaksUp(baseline, current, i)
  {
    forall x
      ensures KeyOf(x) == KeyOf(current[i]) <==> SameFinding(x, current[i])
    {
      SameFindingMeans(x, current[i]);
    }
    hide KeyOf, SameFinding;
    if l :| l in baseline && SameFinding(l, current[i]) {
      var j :| 0 <= j < |baseline| && baseline[j] == l;
      assert KeyOf(baseline[j]) == KeyOf(current[i]);
    }
  }

  /** The findings reported new are exactly those the baseline lists nowhere, as their first listings tell them. */
  lemma NewFindingsAreTheFirstListings(baseline: seq<Listing>, current: seq<Listing>, out: seq<Attributed>,
                                       a: Attributed)
    requires IsNew(baseline, current, |current|, out)
    ensures a in out <==> exists i: nat :: SpeaksUp(baseline, current, i) && Tells(a, current[i])
  {
    hide KeyOf, SameFinding, First, Known;
    forall i: nat | i < |current|
      ensures First(current, i) && !Known(baseline, KeyOf(current[i])) <==> SpeaksUp(baseline, current, i)
      ensures Tells(a, current[i]) <==> a == Unplaced(current[i])
    {
      SpeaksUpMeans(baseline, current, i);
      TellsMeans(a, current[i]);
    }
    hide Tells, Unplaced;
  }

  lemma TellsMeans(a: Attributed, l: Listing)
    ensures Tells(a, l) <==> a == Unplaced(l)
  {
  }

  /** A severity at the floor, or an unknown one. */
  ghost predicate Reaches(severity: S.Severity, floor: S.Severity) {
    severity == S.Unknown || L.AtFloor(severity, floor)
  }

  /** A finding that was there before never gates. Any other gates by its severity: a dev finding at the floor for
      dev findings, unless they never gate, and the rest at the one the run fails on; a warning gates when the run
      fails on warnings, and a dev one only unless dev findings never do. */
  lemma GatesExactly(a: Attributed, g: A.Gate)
    ensures Gates(a, g) <==>
      && a.origin != Existing
      && (a.dev ==> g.dev != A.Never)
      && match a.severity
         case None => g.failOnWarnings
         case Some(severity) => Reaches(severity, if a.dev && g.dev.From? then g.dev.floor else g.failOn)
  {
  }

  /** So where the listings of a key agree on severity and scope, none that gates is missed. */
  lemma AgreeingListingsHideNothing(baseline: seq<Listing>, current: seq<Listing>, out: seq<Attributed>, i: nat,
                                    g: A.Gate)
    requires IsNew(baseline, current, |current|, out)
    requires i < |current| && !Known(baseline, KeyOf(current[i]))
    requires forall j | 0 <= j < |current| && KeyOf(current[j]) == KeyOf(current[i]) ::
               current[j].severity == current[i].severity && Unplaced(current[j]).dev == Unplaced(current[i]).dev
    ensures Caught(out, KeyOf(current[i]), g) <==> Gates(Unplaced(current[i]), g)
  {
    NewFindingsAreCaughtByTheFirstListing(baseline, current, out, i, g);
    assert current[FirstOf(current, i, 0)].severity == current[i].severity;
  }

  /** Where they do not agree, one can be: a runtime listing behind a dev listing of the same key, when
      dev findings never gate. */
  lemma DevListingHidesARuntimeOne(dev: Listing, runtime: Listing, out: seq<Attributed>, g: A.Gate)
    requires KeyOf(dev) == KeyOf(runtime) && Unplaced(dev).dev && !Unplaced(runtime).dev
    requires runtime.severity == Some(S.Critical) && g.dev.Never?
    requires IsNew([], [dev, runtime], 2, out)
    ensures Gates(Unplaced(runtime), g) && !Caught(out, KeyOf(runtime), g)
  {
    NewFindingsAreCaughtByTheFirstListing([], [dev, runtime], out, 1, g);
    assert FirstOf([dev, runtime], 1, 0) == 0;
  }
}
