/** What a vendor's VEX record says of each package (crates/cli/src/csaf.rs): folding its entries into
    one verdict per package, and the versions the verdict then affects. */
module Csaf {
  import opened Osv
  import opened Text
  import opened Wrappers

  datatype VendorState = Fixed | Affected | WillNotFix | FixDeferred | OutOfSupport | UnderInvestigation | NotAffected

  datatype ProductStatus =
    | FirstAffected
    | FirstFixed
    | StatedFixed
    | KnownAffected
    | KnownNotAffected
    | LastAffected
    | Recommended
    | Investigated

  datatype Entry = Entry(
    platform: string,
    component: string,
    purl: Option<string>,
    version: Option<string>,
    stream: Option<string>,
    status: ProductStatus,
    state: VendorState)

  datatype Record = Record(platforms: map<string, string>, entries: seq<Entry>)

  /** How rpm versions are decoded, parsed and ordered: a total preorder on those that parse. */
  datatype Rpm = Rpm(decode: string -> string, parses: string -> bool, leq: (string, string) -> bool)

  ghost predicate Preorder(rpm: Rpm) {
    && (forall a, b :: rpm.leq(a, b) || rpm.leq(b, a))
    && (forall a, b, c :: rpm.leq(a, b) && rpm.leq(b, c) ==> rpm.leq(a, c))
  }

  // ---- verdicts ----

  /** What the VEX says about one package, strongest first. */
  datatype Verdict = FixedIn(version: string) | Unaffected | Open(status: string)
  {
    function Rank(): nat {
      match this
      case FixedIn(_) => 2
      case Unaffected => 1
      case Open(_) => 0
    }
  }

  /** A package of an ecosystem, with its module stream. */
  datatype Slot = Slot(ecosystem: string, component: string, stream: Option<string>)

  type Add = (Slot, Verdict)

  predicate Stronger(was: Option<Verdict>, verdict: Verdict, rpm: Rpm) {
    match was
    case None => true
    case Some(w) =>
      if w.FixedIn? && verdict.FixedIn? then
        rpm.parses(w.version) && rpm.parses(verdict.version) && !rpm.leq(verdict.version, w.version)
      else w.Rank() < verdict.Rank()
  }

  function Recorded(verdicts: map<Slot, Verdict>, add: Add, rpm: Rpm): map<Slot, Verdict> {
    if Stronger(Lookup(verdicts, add.0), add.1, rpm) then verdicts[add.0 := add.1] else verdicts
  }

  function Folded(adds: seq<Add>, rpm: Rpm): map<Slot, Verdict> {
    if adds == [] then map[] else Recorded(Folded(adds[..|adds| - 1], rpm), adds[|adds| - 1], rpm)
  }

  /** The verdict is the maximum of what was said of the slot: a highest fix when there is a fix, else
      not affected when that is said, else the first open status. */
  ghost predicate IsMaximum(adds: seq<Add>, slot: Slot, verdict: Option<Verdict>, rpm: Rpm) {
    match verdict
    case None => forall a | a in adds :: a.0 != slot
    case Some(FixedIn(v)) =>
      (slot, FixedIn(v)) in adds && forall w | (slot, FixedIn(w)) in adds :: rpm.leq(w, v)
    case Some(Unaffected) =>
      (slot, Unaffected) in adds && forall w :: (slot, FixedIn(w)) !in adds
    case Some(Open(s)) =>
      && (slot, Unaffected) !in adds && (forall w :: (slot, FixedIn(w)) !in adds)
      && exists i :: 0 <= i < |adds| && adds[i] == (slot, Open(s)) && forall j | 0 <= j < i :: adds[j].0 != slot
  }

  ghost predicate FixesParse(adds: seq<Add>, rpm: Rpm) {
    forall a | a in adds && a.1.FixedIn? :: rpm.parses(a.1.version)
  }

  lemma MaximumStep(adds: seq<Add>, add: Add, slot: Slot, was: Option<Verdict>, rpm: Rpm)
    requires Preorder(rpm) && FixesParse(adds + [add], rpm) && IsMaximum(adds, slot, was, rpm)
    ensures IsMaximum(adds + [add], slot,
      if add.0 == slot && Stronger(was, add.1, rpm) then Some(add.1) else was, rpm)
  {
    var all := adds + [add];
    assert forall a :: a in all <==> a in adds || a == add;
    assert all[|adds|] == add && forall i | 0 <= i < |adds| :: all[i] == adds[i];
    if was.Some? && was.value.Open? {
      var i :| 0 <= i < |adds| && adds[i] == (slot, Open(was.value.status))
        && forall j | 0 <= j < i :: adds[j].0 != slot;
      assert all[i] == (slot, Open(was.value.status));
    }
    if add.0 == slot && add.1.FixedIn? {
      assert add in all;
      assert was.Some? && was.value.FixedIn? ==> (slot, FixedIn(was.value.version)) in all;
    }
  }

  /** The verdict fold is a maximum, slot by slot. */
  lemma {:induction false} FoldIsAMaximum(adds: seq<Add>, slot: Slot, rpm: Rpm)
    requires Preorder(rpm) && FixesParse(adds, rpm)
    ensures IsMaximum(adds, slot, Lookup(Folded(adds, rpm), slot), rpm)
  {
    if adds != [] {
      hide IsMaximum, Stronger;
      var init, add := adds[..|adds| - 1], adds[|adds| - 1];
      assert adds == init + [add];
      FoldIsAMaximum(init, slot, rpm);
      MaximumStep(init, add, slot, Lookup(Folded(init, rpm), slot), rpm);
    }
  }

  /** The same verdict, up to fixes rpm calls equal and the choice of open status. */
  ghost predicate SameVerdict(a: Option<Verdict>, b: Option<Verdict>, rpm: Rpm) {
    match (a, b)
    case (None, None) => true
    case (Some(FixedIn(v)), Some(FixedIn(w))) => rpm.leq(v, w) && rpm.leq(w, v)
    case (Some(Unaffected), Some(Unaffected)) => true
    case (Some(Open(_)), Some(Open(_))) => true
    case _ => false
  }

  /** Reading the entries in another order gives the same verdicts. */
  lemma AnyOrderSameVerdict(adds: seq<Add>, adds': seq<Add>, slot: Slot, rpm: Rpm)
    requires Preorder(rpm) && FixesParse(adds, rpm) && multiset(adds) == multiset(adds')
    ensures SameVerdict(Lookup(Folded(adds, rpm), slot), Lookup(Folded(adds', rpm), slot), rpm)
  {
    assert forall a :: a in adds <==> a in multiset(adds);
    assert forall a :: a in adds' <==> a in multiset(adds');
    FoldIsAMaximum(adds, slot, rpm);
    FoldIsAMaximum(adds', slot, rpm);
    var a, b := Lookup(Folded(adds, rpm), slot), Lookup(Folded(adds', rpm), slot);
    hide Folded;
    if a.Some? && a.value.Open? {
      var i :| 0 <= i < |adds| && adds[i] == (slot, Open(a.value.status)) && forall j | 0 <= j < i :: adds[j].0 != slot;
      assert adds[i] in adds';
    }
    if b.Some? && b.value.Open? {
      var i :| 0 <= i < |adds'| && adds'[i] == (slot, Open(b.value.status))
        && forall j | 0 <= j < i :: adds'[j].0 != slot;
      assert adds'[i] in adds;
    }
  }

  /** The verdict is open exactly when an open status is all that is said. */
  lemma OpenIsSaid(adds: seq<Add>, slot: Slot, verdict: Option<Verdict>, rpm: Rpm)
    requires IsMaximum(adds, slot, verdict, rpm)
    ensures verdict.Some? && verdict.value.Open? <==>
      (exists s :: (slot, Open(s)) in adds) && (slot, Unaffected) !in adds && forall v :: (slot, FixedIn(v)) !in adds
  {
  }

  // ---- reading entries ----

  function UnfixedStatus(state: VendorState): Option<string> {
    match state
    case Affected => Some("affected")
    case WillNotFix => Some("will not fix")
    case FixDeferred => Some("fix deferred")
    case OutOfSupport => Some("out of support scope")
    case UnderInvestigation => Some("under investigation")
    case Fixed | NotAffected => None
  }

  predicate IsRelease(s: string) {
    s != "" && forall i | 0 <= i < |s| :: '0' <= s[i] <= '9'
  }

  const RHEL := "red_hat_enterprise_linux_"

  function RhelRelease(platform: string): Option<string> {
    if RHEL <= platform && IsRelease(platform[|RHEL|..]) then Some(platform[|RHEL|..]) else None
  }

  function RhelCpeRelease(cpe: string): Option<string> {
    var parts := SplitChar(cpe, ':');
    if |parts| >= 5 && parts[0] == "cpe" && (parts[1] == "/o" || parts[1] == "/a") && parts[2] == "redhat"
       && parts[3] == "enterprise_linux" && IsRelease(parts[4])
    then Some(parts[4]) else None
  }

  predicate Digits(s: string) {
    s != "" && forall i | 0 <= i < |s| :: '0' <= s[i] <= '9'
  }

  function CpeText(product: string, release: string, tail: string): string {
    "cpe:" + product + ":redhat:enterprise_linux:" + release + tail
  }

  /** The CPE of a main stream: an operating system or application of the release, whatever follows it. */
  ghost predicate MainStreamCpe(cpe: string, release: string) {
    && Digits(release)
    && exists product, tail :: product in {"/o", "/a"} && (tail == "" || tail[0] == ':')
         && cpe == CpeText(product, release, tail)
  }

  function Tail(more: seq<string>): string {
    if more == [] then "" else ":" + Join(more, ":")
  }

  lemma JoinOneMore(part: string, more: seq<string>)
    ensures Join([part] + more, ":") == part + Tail(more)
  {
    assert ([part] + more)[1..] == more;
  }

  lemma FiveJoined(a: string, b: string, c: string, d: string, e: string, more: seq<string>)
    ensures Join([a, b, c, d, e] + more, ":") == a + ":" + b + ":" + c + ":" + d + ":" + e + Tail(more)
  {
    hide Join, Tail;
    JoinOneMore(e, more);
    JoinOneMore(d, [e] + more);
    JoinOneMore(c, [d, e] + more);
    JoinOneMore(b, [c, d, e] + more);
    JoinOneMore(a, [b, c, d, e] + more);
    assert [d] + ([e] + more) == [d, e] + more && [c] + ([d, e] + more) == [c, d, e] + more;
    assert [b] + ([c, d, e] + more) == [b, c, d, e] + more;
    assert [a] + ([b, c, d, e] + more) == [a, b, c, d, e] + more;
    TailOf([e] + more);
    TailOf([d, e] + more);
    TailOf([c, d, e] + more);
    TailOf([b, c, d, e] + more);
  }

  lemma TailOf(more: seq<string>)
    requires more != []
    ensures Tail(more) == ":" + Join(more, ":")
  {
  }

  lemma MoreOf(tail: string) returns (more: seq<string>)
    requires tail == "" || tail[0] == ':'
    ensures Tail(more) == tail && forall i | 0 <= i < |more| :: ':' !in more[i]
  {
    more := [];
    if tail != "" {
      more := SplitChar(tail[1..], ':');
      JoinSplit(tail[1..], ':');
      assert tail == ":" + tail[1..];
    }
  }

  lemma CpeParts(product: string, release: string, more: seq<string>)
    requires product in {"/o", "/a"} && IsRelease(release) && forall i | 0 <= i < |more| :: ':' !in more[i]
    ensures var parts := ["cpe", product, "redhat", "enterprise_linux", release] + more;
      forall i | 0 <= i < |parts| :: ':' !in parts[i]
  {
    assert ':' !in "cpe" && ':' !in product && ':' !in "redhat" && ':' !in "enterprise_linux" && ':' !in release;
  }

  lemma Regroup(a: string, p: string, b: string, c: string, d: string, e: string, f: string, r: string, t: string)
    ensures a + p + b + c + d + e + f + r + t == a + p + (b + c + d + e + f) + r + t
  {
    assert b + c + d + e + f == b + (c + (d + (e + f)));
  }

  lemma CpeJoined(product: string, release: string, more: seq<string>)
    ensures Join(["cpe", product, "redhat", "enterprise_linux", release] + more, ":")
      == CpeText(product, release, Tail(more))
  {
    hide Join, Tail;
    FiveJoined("cpe", product, "redhat", "enterprise_linux", release, more);
    assert ":" + "redhat" + ":" + "enterprise_linux" + ":" == ":redhat:enterprise_linux:";
    assert "cpe" + ":" == "cpe:";
    Regroup("cpe:", product, ":", "redhat", ":", "enterprise_linux", ":", release, Tail(more));
  }

  lemma CpeSplits(product: string, release: string, tail: string)
    requires product in {"/o", "/a"} && IsRelease(release) && (tail == "" || tail[0] == ':')
    ensures var parts := SplitChar(CpeText(product, release, tail), ':');
      |parts| >= 5 && parts[0] == "cpe" && parts[1] == product && parts[2] == "redhat"
      && parts[3] == "enterprise_linux" && parts[4] == release
  {
    hide SplitChar, Join, Tail, IsRelease, CpeText;
    var more := MoreOf(tail);
    CpeParts(product, release, more);
    CpeJoined(product, release, more);
    SplitJoined(["cpe", product, "redhat", "enterprise_linux", release] + more, ':');
  }

  lemma PartsSplit(parts: seq<string>)
    requires |parts| >= 5
    ensures parts == [parts[0], parts[1], parts[2], parts[3], parts[4]] + parts[5..]
  {
  }

  /** A CPE is read as a main stream exactly when it is one. */
  lemma MainStreamCpesRead(cpe: string, release: string)
    ensures RhelCpeRelease(cpe) == Some(release) <==> MainStreamCpe(cpe, release)
  {
    hide SplitChar, Join, Tail, CpeText;
    var parts := SplitChar(cpe, ':');
    if RhelCpeRelease(cpe) == Some(release) {
      JoinSplit(cpe, ':');
      PartsSplit(parts);
      var more := parts[5..];
      CpeJoined(parts[1], release, more);
      TailStarts(more);
      assert cpe == CpeText(parts[1], release, Tail(more));
    }
    if MainStreamCpe(cpe, release) {
      var product, tail :| product in {"/o", "/a"} && (tail == "" || tail[0] == ':')
        && cpe == CpeText(product, release, tail);
      CpeSplits(product, release, tail);
    }
  }

  lemma TailStarts(more: seq<string>)
    ensures Tail(more) == "" || Tail(more)[0] == ':'
  {
  }

  function MainStream(r: Record, e: Entry): Option<string> {
    if e.platform in r.platforms then RhelCpeRelease(r.platforms[e.platform]) else None
  }

  function RpmFix(version: Option<string>, rpm: Rpm): Option<string> {
    if version.Some? && rpm.parses(rpm.decode(version.value)) then Some(rpm.decode(version.value)) else None
  }

  predicate IsRpm(e: Entry, prefix: string) {
    e.purl.Some? && prefix <= e.purl.value && e.component != ""
  }

  function RedHatSlot(release: string, e: Entry): Slot {
    Slot("Red Hat:enterprise_linux:" + release + "::vex", e.component, e.stream)
  }

  /** What one entry of a Red Hat record adds, if anything. */
  function RedHatAdd(r: Record, e: Entry, rpm: Rpm): Option<Add> {
    if !IsRpm(e, "pkg:rpm/redhat/") then None
    else match e.state
      case Fixed =>
        var release, version := MainStream(r, e), RpmFix(e.version, rpm);
        if release.None? || version.None? then None else Some((RedHatSlot(release.value, e), FixedIn(version.value)))
      case NotAffected =>
        var release := if RhelRelease(e.platform).Some? then RhelRelease(e.platform) else MainStream(r, e);
        if release.None? then None else Some((RedHatSlot(release.value, e), Unaffected))
      case _ =>
        var release := RhelRelease(e.platform);
        if release.None? then None
        else Some((RedHatSlot(release.value, e), Open(UnfixedStatus(e.state).value)))
  }

  /** A SUSE product's ecosystem is an input: names of images that are not matched have none. */
  datatype Products = Products(ecosystem: string -> Option<string>)

  predicate States(e: Entry) {
    !e.status.Recommended? && !e.status.StatedFixed? && !e.status.FirstFixed?
  }

  /** An explicit status is given for the entry's component on its platform. */
  predicate StatedFor(r: Record, e: Entry) {
    exists i :: 0 <= i < |r.entries| && IsRpm(r.entries[i], "pkg:rpm/suse/") && States(r.entries[i])
      && r.entries[i].platform == e.platform && r.entries[i].component == e.component
  }

  function SuseAdd(r: Record, e: Entry, rpm: Rpm, products: Products): Option<Add> {
    if !IsRpm(e, "pkg:rpm/suse/") || (e.status.Recommended? && StatedFor(r, e)) then None
    else
      var ecosystem := products.ecosystem(e.platform);
      if ecosystem.None? then None
      else
        var slot := Slot(ecosystem.value + "::vex", e.component, None);
        match e.state
        case Fixed =>
          var version := RpmFix(e.version, rpm);
          if version.None? then None else Some((slot, FixedIn(version.value)))
        case NotAffected => Some((slot, Unaffected))
        case _ => Some((slot, Open(UnfixedStatus(e.state).value)))
  }

  function AddsOf(entries: seq<Entry>, add: Entry -> Option<Add>): seq<Add> {
    if entries == [] then []
    else
      var a := add(entries[|entries| - 1]);
      AddsOf(entries[..|entries| - 1], add) + if a.Some? then [a.value] else []
  }

  lemma {:induction false} AddsCome(entries: seq<Entry>, add: Entry -> Option<Add>)
    ensures forall a :: a in AddsOf(entries, add) <==> exists e :: e in entries && add(e) == Some(a)
  {
    if entries != [] {
      assert entries == entries[..|entries| - 1] + [entries[|entries| - 1]];
      AddsCome(entries[..|entries| - 1], add);
    }
  }

  class Verdicts {
    var bySlot: map<Slot, Verdict>

    constructor ()
      ensures bySlot == map[]
    {
      bySlot := map[];
    }

    /** `add_verdict`: a fix outranks not affected, which outranks an open status; of two fixes the
        higher version wins. */
    method AddVerdict(slot: Slot, verdict: Verdict, rpm: Rpm)
      modifies this
      ensures bySlot == Recorded(old(bySlot), (slot, verdict), rpm)
    {
      var stronger: bool;
      if slot !in bySlot {
        stronger := true;
      } else {
        var was := bySlot[slot];
        match (was, verdict) {
          case (FixedIn(v), FixedIn(w)) =>
            stronger := rpm.parses(v) && rpm.parses(w) && !rpm.leq(w, v);
          case _ =>
            stronger := was.Rank() < verdict.Rank();
        }
      }
      if stronger {
        bySlot := bySlot[slot := verdict];
      }
    }
  }

  /** The loop of `red_hat_vex`. */
  method RedHatVex(r: Record, rpm: Rpm) returns (verdicts: Verdicts)
    ensures fresh(verdicts)
    ensures verdicts.bySlot == Folded(AddsOf(r.entries, (e: Entry) => RedHatAdd(r, e, rpm)), rpm)
  {
    hide RedHatAdd, Stronger;
    verdicts := new Verdicts();
    var add := (e: Entry) => RedHatAdd(r, e, rpm);
    for i := 0 to |r.entries|
      invariant fresh(verdicts)
      invariant verdicts.bySlot == Folded(AddsOf(r.entries[..i], add), rpm)
    {
      assert r.entries[..i + 1][..i] == r.entries[..i];
      ghost var before := AddsOf(r.entries[..i], add);
      var a := add(r.entries[i]);
      if a.None? {
        assert AddsOf(r.entries[..i + 1], add) == before;
        continue;
      }
      assert (before + [a.value])[..|before|] == before;
      verdicts.AddVerdict(a.value.0, a.value.1, rpm);
    }
    assert r.entries[..|r.entries|] == r.entries;
  }

  /** The loop of `suse_vex`. */
  method SuseVex(r: Record, rpm: Rpm, products: Products) returns (verdicts: Verdicts)
    ensures fresh(verdicts)
    ensures verdicts.bySlot == Folded(AddsOf(r.entries, (e: Entry) => SuseAdd(r, e, rpm, products)), rpm)
  {
    hide SuseAdd, Stronger;
    verdicts := new Verdicts();
    var add := (e: Entry) => SuseAdd(r, e, rpm, products);
    for i := 0 to |r.entries|
      invariant fresh(verdicts)
      invariant verdicts.bySlot == Folded(AddsOf(r.entries[..i], add), rpm)
    {
      assert r.entries[..i + 1][..i] == r.entries[..i];
      ghost var before := AddsOf(r.entries[..i], add);
      var a := add(r.entries[i]);
      if a.None? {
        assert AddsOf(r.entries[..i + 1], add) == before;
        continue;
      }
      assert (before + [a.value])[..|before|] == before;
      verdicts.AddVerdict(a.value.0, a.value.1, rpm);
    }
    assert r.entries[..|r.entries|] == r.entries;
  }

  // ---- what the verdicts come to ----

  /** The entry is of a package of that vendor's rpms, and names a component. */
  ghost predicate OfVendor(e: Entry, vendor: string) {
    e.component != "" && exists rest :: e.purl == Some("pkg:rpm/" + vendor + "/" + rest)
  }

  /** The slot is the entry's package in a release. */
  predicate InRelease(e: Entry, slot: Slot, release: string) {
    slot == Slot("Red Hat:enterprise_linux:" + release + "::vex", e.component, e.stream)
  }

  /** The entry's platform is a release as a whole, and the slot its package there. */
  ghost predicate OfWholeRelease(e: Entry, slot: Slot) {
    exists release ::
      Digits(release) && e.platform == "red_hat_enterprise_linux_" + release && InRelease(e, slot, release)
  }

  ghost predicate IsWholeRelease(platform: string) {
    exists release :: Digits(release) && platform == "red_hat_enterprise_linux_" + release
  }

  /** The entry's platform is the main stream of a release, and the slot its package there. */
  ghost predicate OfMainStream(r: Record, e: Entry, slot: Slot) {
    e.platform in r.platforms
    && exists release :: MainStreamCpe(r.platforms[e.platform], release) && InRelease(e, slot, release)
  }

  /** The entry states the version, once decoded, and it parses. */
  ghost predicate StatesFix(e: Entry, version: string, rpm: Rpm) {
    exists text :: e.version == Some(text) && version == rpm.decode(text) && rpm.parses(version)
  }

  lemma OfVendorMeans(e: Entry)
    ensures IsRpm(e, "pkg:rpm/redhat/") <==> OfVendor(e, "redhat")
    ensures IsRpm(e, "pkg:rpm/suse/") <==> OfVendor(e, "suse")
  {
    assert "pkg:rpm/" + "redhat" + "/" == "pkg:rpm/redhat/" && "pkg:rpm/" + "suse" + "/" == "pkg:rpm/suse/";
    if e.purl.Some? && "pkg:rpm/redhat/" <= e.purl.value {
      assert e.purl.value == "pkg:rpm/redhat/" + e.purl.value[15..];
    }
    if e.purl.Some? && "pkg:rpm/suse/" <= e.purl.value {
      assert e.purl.value == "pkg:rpm/suse/" + e.purl.value[13..];
    }
  }

  lemma WholeReleaseMeans(e: Entry, slot: Slot)
    ensures RhelRelease(e.platform).Some? <==> IsWholeRelease(e.platform)
    ensures RhelRelease(e.platform).Some? && slot == RedHatSlot(RhelRelease(e.platform).value, e)
      <==> OfWholeRelease(e, slot)
  {
    if RHEL <= e.platform {
      assert e.platform == RHEL + e.platform[|RHEL|..];
    }
    assert forall release :: (RHEL + release)[|RHEL|..] == release;
    hide RedHatSlot, InRelease;
    assert forall release :: InRelease(e, slot, release) <==> slot == RedHatSlot(release, e) by {
      InReleaseMeans(e, slot);
    }
  }

  lemma InReleaseMeans(e: Entry, slot: Slot)
    ensures forall release :: InRelease(e, slot, release) <==> slot == RedHatSlot(release, e)
  {
  }

  lemma MainStreamMeans(r: Record, e: Entry, slot: Slot)
    ensures MainStream(r, e).Some? && slot == RedHatSlot(MainStream(r, e).value, e) <==> OfMainStream(r, e, slot)
  {
    hide RhelCpeRelease, MainStreamCpe, RedHatSlot, InRelease;
    InReleaseMeans(e, slot);
    if e.platform in r.platforms {
      var cpe := r.platforms[e.platform];
      forall release
        ensures RhelCpeRelease(cpe) == Some(release) <==> MainStreamCpe(cpe, release)
      {
        MainStreamCpesRead(cpe, release);
      }
    }
  }

  lemma StatesFixMeans(e: Entry, version: string, rpm: Rpm)
    ensures RpmFix(e.version, rpm) == Some(version) <==> StatesFix(e, version, rpm)
  {
  }

  /** A readable fix some Red Hat rpm entry of the slot states for a main stream. */
  ghost predicate MainStreamFix(r: Record, slot: Slot, version: string, rpm: Rpm) {
    exists e :: e in r.entries && OfVendor(e, "redhat") && e.state == Fixed && OfMainStream(r, e, slot)
      && StatesFix(e, version, rpm)
  }

  /** Some Red Hat rpm entry of the slot, for the release as a whole or its main stream, says not affected. */
  ghost predicate SaidUnaffected(r: Record, slot: Slot) {
    exists e :: e in r.entries && OfVendor(e, "redhat") && e.state == NotAffected
      && (OfWholeRelease(e, slot) || (!IsWholeRelease(e.platform) && OfMainStream(r, e, slot)))
  }

  /** A Red Hat rpm entry that states the package of a release affected and not fixed. */
  ghost predicate RedHatOpens(e: Entry, slot: Slot) {
    OfVendor(e, "redhat") && e.state != Fixed && e.state != NotAffected && OfWholeRelease(e, slot)
  }

  /** What a Red Hat entry adds, in terms of its fields. */
  lemma RedHatAddMeans(r: Record, e: Entry, slot: Slot, rpm: Rpm)
    ensures forall v :: RedHatAdd(r, e, rpm) == Some((slot, FixedIn(v))) <==>
      OfVendor(e, "redhat") && e.state == Fixed && OfMainStream(r, e, slot) && StatesFix(e, v, rpm)
    ensures RedHatAdd(r, e, rpm) == Some((slot, Unaffected)) <==>
      OfVendor(e, "redhat") && e.state == NotAffected
      && (OfWholeRelease(e, slot) || (!IsWholeRelease(e.platform) && OfMainStream(r, e, slot)))
    ensures (exists s :: RedHatAdd(r, e, rpm) == Some((slot, Open(s)))) <==> RedHatOpens(e, slot)
    ensures RedHatOpens(e, slot) ==> RedHatAdd(r, e, rpm) == Some((slot, Open(UnfixedStatus(e.state).value)))
  {
    OfVendorMeans(e);
    WholeReleaseMeans(e, slot);
    MainStreamMeans(r, e, slot);
    forall v
      ensures RpmFix(e.version, rpm) == Some(v) <==> StatesFix(e, v, rpm)
    {
      StatesFixMeans(e, v, rpm);
    }
    hide IsRpm, RpmFix, MainStream, RhelRelease, RedHatSlot, OfVendor, OfWholeRelease, IsWholeRelease, OfMainStream;
    hide StatesFix;
  }

  lemma RedHatAddsMean(r: Record, slot: Slot, rpm: Rpm)
    ensures var adds := AddsOf(r.entries, (e: Entry) => RedHatAdd(r, e, rpm));
      && (forall v :: (slot, FixedIn(v)) in adds <==> MainStreamFix(r, slot, v, rpm))
      && ((slot, Unaffected) in adds <==> SaidUnaffected(r, slot))
      && ((exists s :: (slot, Open(s)) in adds) <==> exists e :: e in r.entries && RedHatOpens(e, slot))
  {
    var add := (e: Entry) => RedHatAdd(r, e, rpm);
    AddsCome(r.entries, add);
    hide AddsOf, RedHatAdd, OfVendor, OfWholeRelease, IsWholeRelease, OfMainStream, StatesFix, RedHatOpens;
    forall e {:trigger add(e)} | true
      ensures forall v :: add(e) == Some((slot, FixedIn(v))) <==>
        OfVendor(e, "redhat") && e.state == Fixed && OfMainStream(r, e, slot) && StatesFix(e, v, rpm)
      ensures add(e) == Some((slot, Unaffected)) <==>
        OfVendor(e, "redhat") && e.state == NotAffected
        && (OfWholeRelease(e, slot) || (!IsWholeRelease(e.platform) && OfMainStream(r, e, slot)))
      ensures (exists s :: add(e) == Some((slot, Open(s)))) <==> RedHatOpens(e, slot)
    {
      RedHatAddMeans(r, e, slot, rpm);
    }
  }

  lemma AddsParse(r: Record, rpm: Rpm)
    ensures FixesParse(AddsOf(r.entries, (e: Entry) => RedHatAdd(r, e, rpm)), rpm)
  {
    var add := (e: Entry) => RedHatAdd(r, e, rpm);
    AddsCome(r.entries, add);
    forall a | a in AddsOf(r.entries, add) && a.1.FixedIn?
      ensures rpm.parses(a.1.version)
    {
      var e :| e in r.entries && add(e) == Some(a);
    }
  }

  /** Over a whole Red Hat record: a package is fixed in a highest main-stream fix when there is one,
      else not affected when some entry says so, else open when some entry of the release itself states it affected. */
  lemma RedHatVerdict(r: Record, slot: Slot, rpm: Rpm)
    requires Preorder(rpm)
    ensures var verdict := Lookup(Folded(AddsOf(r.entries, (e: Entry) => RedHatAdd(r, e, rpm)), rpm), slot);
      && ((exists v :: MainStreamFix(r, slot, v, rpm)) <==> verdict.Some? && verdict.value.FixedIn?)
      && (verdict.Some? && verdict.value.FixedIn? ==>
           && MainStreamFix(r, slot, verdict.value.version, rpm)
           && forall v | MainStreamFix(r, slot, v, rpm) :: rpm.leq(v, verdict.value.version))
      && (verdict == Some(Unaffected) <==>
           SaidUnaffected(r, slot) && !exists v :: MainStreamFix(r, slot, v, rpm))
      && (verdict.Some? && verdict.value.Open? <==>
           && (exists e :: e in r.entries && RedHatOpens(e, slot))
           && !SaidUnaffected(r, slot) && !exists v :: MainStreamFix(r, slot, v, rpm))
  {
    var adds := AddsOf(r.entries, (e: Entry) => RedHatAdd(r, e, rpm));
    AddsParse(r, rpm);
    RedHatAddsMean(r, slot, rpm);
    FoldIsAMaximum(adds, slot, rpm);
    OpenIsSaid(adds, slot, Lookup(Folded(adds, rpm), slot), rpm);
    hide RedHatAdd, Folded, AddsOf, MainStreamFix, SaidUnaffected, RedHatOpens;
  }

  /** A SUSE rpm entry that gives the other's component a status on its platform outright. */
  ghost predicate StatesOf(x: Entry, e: Entry) {
    && OfVendor(x, "suse") && x.platform == e.platform && x.component == e.component
    && x.status in {FirstAffected, KnownAffected, KnownNotAffected, LastAffected, Investigated}
  }

  ghost predicate StatedBeside(r: Record, e: Entry) {
    exists x :: x in r.entries && StatesOf(x, e)
  }

  /** The entry is of the slot's package, and not merely recommended beside an explicit status of the same component
      on the same platform. */
  ghost predicate SuseEntryOf(r: Record, e: Entry, slot: Slot, products: Products) {
    && OfVendor(e, "suse")
    && (exists ecosystem ::
         products.ecosystem(e.platform) == Some(ecosystem) && slot == Slot(ecosystem + "::vex", e.component, None))
    && !(e.status == Recommended && StatedBeside(r, e))
  }

  ghost predicate SuseFix(r: Record, slot: Slot, version: string, rpm: Rpm, products: Products) {
    exists e :: e in r.entries && SuseEntryOf(r, e, slot, products) && e.state == Fixed && StatesFix(e, version, rpm)
  }

  ghost predicate SuseSaysUnaffected(r: Record, slot: Slot, products: Products) {
    exists e :: e in r.entries && SuseEntryOf(r, e, slot, products) && e.state == NotAffected
  }

  /** A SUSE rpm entry that states the package affected and not fixed. */
  ghost predicate SuseOpens(r: Record, e: Entry, slot: Slot, products: Products) {
    SuseEntryOf(r, e, slot, products) && e.state != Fixed && e.state != NotAffected
  }

  lemma StatedBesideMeans(r: Record, e: Entry)
    ensures StatedFor(r, e) <==> StatedBeside(r, e)
  {
    forall x
      ensures IsRpm(x, "pkg:rpm/suse/") <==> OfVendor(x, "suse")
      ensures States(x) <==> x.status in {FirstAffected, KnownAffected, KnownNotAffected, LastAffected, Investigated}
    {
      OfVendorMeans(x);
    }
    hide IsRpm, OfVendor, States;
    if i :| 0 <= i < |r.entries| && IsRpm(r.entries[i], "pkg:rpm/suse/") && States(r.entries[i])
            && r.entries[i].platform == e.platform && r.entries[i].component == e.component {
      assert r.entries[i] in r.entries && StatesOf(r.entries[i], e);
    }
    if x :| x in r.entries && StatesOf(x, e) {
      var i :| 0 <= i < |r.entries| && r.entries[i] == x;
      assert States(r.entries[i]);
    }
  }

  /** What a SUSE entry adds, in terms of its fields. */
  lemma SuseAddMeans(r: Record, e: Entry, slot: Slot, rpm: Rpm, products: Products)
    ensures forall v :: SuseAdd(r, e, rpm, products) == Some((slot, FixedIn(v))) <==>
      SuseEntryOf(r, e, slot, products) && e.state == Fixed && StatesFix(e, v, rpm)
    ensures SuseAdd(r, e, rpm, products) == Some((slot, Unaffected)) <==>
      SuseEntryOf(r, e, slot, products) && e.state == NotAffected
    ensures (exists s :: SuseAdd(r, e, rpm, products) == Some((slot, Open(s)))) <==> SuseOpens(r, e, slot, products)
    ensures SuseOpens(r, e, slot, products) ==>
      SuseAdd(r, e, rpm, products) == Some((slot, Open(UnfixedStatus(e.state).value)))
  {
    OfVendorMeans(e);
    StatedBesideMeans(r, e);
    forall v
      ensures RpmFix(e.version, rpm) == Some(v) <==> StatesFix(e, v, rpm)
    {
      StatesFixMeans(e, v, rpm);
    }
    hide IsRpm, RpmFix, StatedFor, StatedBeside, OfVendor, StatesFix;
  }

  lemma SuseAddsParse(r: Record, rpm: Rpm, products: Products)
    ensures FixesParse(AddsOf(r.entries, (e: Entry) => SuseAdd(r, e, rpm, products)), rpm)
  {
    var add := (e: Entry) => SuseAdd(r, e, rpm, products);
    AddsCome(r.entries, add);
    forall a | a in AddsOf(r.entries, add) && a.1.FixedIn?
      ensures rpm.parses(a.1.version)
    {
      var e :| e in r.entries && add(e) == Some(a);
    }
  }

  lemma SuseAddsMean(r: Record, slot: Slot, rpm: Rpm, products: Products)
    ensures var adds := AddsOf(r.entries, (e: Entry) => SuseAdd(r, e, rpm, products));
      && (forall v :: (slot, FixedIn(v)) in adds <==> SuseFix(r, slot, v, rpm, products))
      && ((slot, Unaffected) in adds <==> SuseSaysUnaffected(r, slot, products))
      && ((exists s :: (slot, Open(s)) in adds) <==> exists e :: e in r.entries && SuseOpens(r, e, slot, products))
  {
    var add := (e: Entry) => SuseAdd(r, e, rpm, products);
    AddsCome(r.entries, add);
    hide AddsOf, SuseAdd, SuseEntryOf, StatesFix, SuseOpens;
    forall e {:trigger add(e)} | true
      ensures forall v :: add(e) == Some((slot, FixedIn(v))) <==>
        SuseEntryOf(r, e, slot, products) && e.state == Fixed && StatesFix(e, v, rpm)
      ensures add(e) == Some((slot, Unaffected)) <==> SuseEntryOf(r, e, slot, products) && e.state == NotAffected
      ensures (exists s :: add(e) == Some((slot, Open(s)))) <==> SuseOpens(r, e, slot, products)
    {
      SuseAddMeans(r, e, slot, rpm, products);
    }
  }

  /** Over a whole SUSE record: a package is fixed in a highest stated fix when there is one, what is merely
      recommended beside an explicit status on the same platform not counting, else not affected when some
      entry says so, else open when some entry states it affected. */
  lemma SuseVerdict(r: Record, slot: Slot, rpm: Rpm, products: Products)
    requires Preorder(rpm)
    ensures var verdict := Lookup(Folded(AddsOf(r.entries, (e: Entry) => SuseAdd(r, e, rpm, products)), rpm), slot);
      && ((exists v :: SuseFix(r, slot, v, rpm, products)) <==> verdict.Some? && verdict.value.FixedIn?)
      && (verdict.Some? && verdict.value.FixedIn? ==>
           && SuseFix(r, slot, verdict.value.version, rpm, products)
           && forall v | SuseFix(r, slot, v, rpm, products) :: rpm.leq(v, verdict.value.version))
      && (verdict == Some(Unaffected) <==>
           SuseSaysUnaffected(r, slot, products) && !exists v :: SuseFix(r, slot, v, rpm, products))
      && (verdict.Some? && verdict.value.Open? <==>
           && (exists e :: e in r.entries && SuseOpens(r, e, slot, products))
           && !SuseSaysUnaffected(r, slot, products) && !exists v :: SuseFix(r, slot, v, rpm, products))
  {
    var adds := AddsOf(r.entries, (e: Entry) => SuseAdd(r, e, rpm, products));
    SuseAddsParse(r, rpm, products);
    SuseAddsMean(r, slot, rpm, products);
    FoldIsAMaximum(adds, slot, rpm);
    OpenIsSaid(adds, slot, Lookup(Folded(adds, rpm), slot), rpm);
    hide SuseAdd, Folded, AddsOf, SuseFix, SuseSaysUnaffected, SuseOpens;
  }

  // ---- which open status ----

  /** Entry `n` is the first that adds anything to the slot, and this is what it adds. */
  ghost predicate FirstAdds(entries: seq<Entry>, add: Entry -> Option<Add>, slot: Slot, verdict: Verdict, n: nat) {
    && n < |entries| && add(entries[n]) == Some((slot, verdict))
    && forall m | 0 <= m < n :: add(entries[m]).Some? ==> add(entries[m]).value.0 != slot
  }

  lemma {:induction false} FirstAddOfEntry(entries: seq<Entry>, add: Entry -> Option<Add>, slot: Slot, i: nat)
    requires i < |AddsOf(entries, add)| && AddsOf(entries, add)[i].0 == slot
    requires forall j | 0 <= j < i :: AddsOf(entries, add)[j].0 != slot
    ensures exists n: nat :: FirstAdds(entries, add, slot, AddsOf(entries, add)[i].1, n)
  {
    if entries != [] {
      var init, last := entries[..|entries| - 1], entries[|entries| - 1];
      var before, all := AddsOf(init, add), AddsOf(entries, add);
      assert all == before + if add(last).Some? then [add(last).value] else [];
      assert forall j | 0 <= j < |before| :: all[j] == before[j];
      AddsCome(init, add);
      hide AddsOf;
      if i < |before| {
        FirstAddOfEntry(init, add, slot, i);
        var n: nat :| FirstAdds(init, add, slot, before[i].1, n);
        assert FirstAdds(entries, add, slot, before[i].1, n);
      } else {
        assert forall a | a in before :: a.0 != slot;
        forall m | 0 <= m < |init| && add(entries[m]).Some?
          ensures add(entries[m]).value.0 != slot
        {
          assert entries[m] == init[m] && init[m] in init;
        }
        assert FirstAdds(entries, add, slot, all[i].1, |entries| - 1);
      }
    }
  }

  lemma OpenIsTheFirst(entries: seq<Entry>, add: Entry -> Option<Add>, slot: Slot, s: string, rpm: Rpm)
    requires Preorder(rpm) && FixesParse(AddsOf(entries, add), rpm)
    requires Lookup(Folded(AddsOf(entries, add), rpm), slot) == Some(Open(s))
    ensures exists n: nat :: FirstAdds(entries, add, slot, Open(s), n)
  {
    var adds := AddsOf(entries, add);
    FoldIsAMaximum(adds, slot, rpm);
    hide AddsOf, Folded;
    var i :| 0 <= i < |adds| && adds[i] == (slot, Open(s)) && forall j | 0 <= j < i :: adds[j].0 != slot;
    FirstAddOfEntry(entries, add, slot, i);
  }

  /** How a state that is neither fixed nor unaffected is worded. */
  ghost predicate Words(state: VendorState, s: string) {
    || (state == Affected && s == "affected")
    || (state == WillNotFix && s == "will not fix")
    || (state == FixDeferred && s == "fix deferred")
    || (state == OutOfSupport && s == "out of support scope")
    || (state == UnderInvestigation && s == "under investigation")
  }

  /** Entry `n` is the first of those `opens` picks out, and states `s`. */
  ghost predicate FirstStates(entries: seq<Entry>, opens: Entry -> bool, s: string, n: nat) {
    n < |entries| && opens(entries[n]) && Words(entries[n].state, s) && forall m | 0 <= m < n :: !opens(entries[m])
  }

  lemma FirstAddsStates(entries: seq<Entry>, add: Entry -> Option<Add>, opens: Entry -> bool, slot: Slot, s: string,
                        n: nat)
    requires FirstAdds(entries, add, slot, Open(s), n)
    requires forall e | opens(e) :: add(e).Some? && add(e).value.0 == slot
    requires forall e | add(e) == Some((slot, Open(s))) :: opens(e) && Words(e.state, s)
    ensures FirstStates(entries, opens, s, n)
  {
    hide Words;
  }

  lemma StatusIsWorded(state: VendorState)
    requires state != Fixed && state != NotAffected
    ensures UnfixedStatus(state).Some? && Words(state, UnfixedStatus(state).value)
  {
  }

  /** An open package carries the state of the first Red Hat entry that states it open. */
  lemma RedHatOpenStatus(r: Record, slot: Slot, rpm: Rpm, s: string)
    requires Preorder(rpm)
    requires Lookup(Folded(AddsOf(r.entries, (e: Entry) => RedHatAdd(r, e, rpm)), rpm), slot) == Some(Open(s))
    ensures var opens := (e: Entry) => RedHatOpens(e, slot);
      exists n: nat :: FirstStates(r.entries, opens, s, n)
  {
    var add, opens := (e: Entry) => RedHatAdd(r, e, rpm), (e: Entry) => RedHatOpens(e, slot);
    AddsParse(r, rpm);
    OpenIsTheFirst(r.entries, add, slot, s, rpm);
    hide AddsOf, Folded, FirstAdds, FirstStates, RedHatAdd, OfVendor, OfWholeRelease, Words, UnfixedStatus;
    forall e
      ensures opens(e) ==> add(e).Some? && add(e).value.0 == slot
      ensures add(e) == Some((slot, Open(s))) ==> opens(e) && Words(e.state, s)
    {
      RedHatAddMeans(r, e, slot, rpm);
      if RedHatOpens(e, slot) {
        StatusIsWorded(e.state);
      }
    }
    var n: nat :| FirstAdds(r.entries, add, slot, Open(s), n);
    FirstAddsStates(r.entries, add, opens, slot, s, n);
  }

  /** An open package carries the state of the first SUSE entry that states it open. */
  lemma SuseOpenStatus(r: Record, slot: Slot, rpm: Rpm, products: Products, s: string)
    requires Preorder(rpm)
    requires Lookup(Folded(AddsOf(r.entries, (e: Entry) => SuseAdd(r, e, rpm, products)), rpm), slot) == Some(Open(s))
    ensures var opens := (e: Entry) => SuseOpens(r, e, slot, products);
      exists n: nat :: FirstStates(r.entries, opens, s, n)
  {
    var add, opens := (e: Entry) => SuseAdd(r, e, rpm, products), (e: Entry) => SuseOpens(r, e, slot, products);
    SuseAddsParse(r, rpm, products);
    OpenIsTheFirst(r.entries, add, slot, s, rpm);
    hide AddsOf, Folded, FirstAdds, FirstStates, SuseAdd, SuseEntryOf, Words, UnfixedStatus;
    forall e
      ensures opens(e) ==> add(e).Some? && add(e).value.0 == slot
      ensures add(e) == Some((slot, Open(s))) ==> opens(e) && Words(e.state, s)
    {
      SuseAddMeans(r, e, slot, rpm, products);
      if SuseOpens(r, e, slot, products) {
        StatusIsWorded(e.state);
      }
    }
    var n: nat :| FirstAdds(r.entries, add, slot, Open(s), n);
    FirstAddsStates(r.entries, add, opens, slot, s, n);
  }

  // ---- as an advisory ----

  /** `vex_osv`: the ranges written for a verdict, over versions as rpm orders them. */
  function VexRanges<V>(verdict: Verdict, zero: V, read: string -> V): seq<Range<V>> {
    match verdict
    case FixedIn(f) => [Range(true, [Event(Some(Version(zero)), None, None), Event(None, Some(read(f)), None)])]
    case Open(_) => [Range(true, [Event(Some(Version(zero)), None, None)])]
    case Unaffected => []
  }

  lemma OneRange<V>(r: Range<V>, v: V, leq: (V, V) -> bool)
    ensures AnyRangeAffects([r], v, leq) <==> RangeAffects(r, v, leq)
  {
    assert [r][0] == r;
  }

  /** A fixed package is affected below its fix, an open one at every version, and one not affected
      at none. */
  lemma VexAffects<V(!new)>(verdict: Verdict, zero: V, read: string -> V, v: V, leq: (V, V) -> bool)
    requires TotalOrder(leq) && forall x :: leq(zero, x)
    ensures AnyRangeAffects(VexRanges(verdict, zero, read), v, leq) <==>
      match verdict
      case FixedIn(f) => !leq(read(f), v)
      case Open(_) => true
      case Unaffected => false
  {
    var first: Event<V> := Event(Some(Version(zero)), None, None);
    assert [first][..0] == [] && HasIntroduced([first]) by {
      assert [first][0] == first;
    }
    assert AfterEvents([first], false, v, leq);
    if verdict.FixedIn? {
      var second: Event<V> := Event(None, Some(read(verdict.version)), None);
      var events := [first, second];
      assert events[..1] == [first] && events[0] == first && HasIntroduced(events);
      assert AfterEvents(events, false, v, leq) == (!Ends(second, v, leq) && AfterEvents([first], false, v, leq));
      OneRange(Range(true, events), v, leq);
    } else {
      OneRange(Range(true, [first]), v, leq);
    }
  }
}
