/** A fix plan's edits (crates/cli/src/fix.rs): their branches, their commit messages, and what
    counts as a verified change. */
module FixPlan {
  import opened Text
  import opened Wrappers

  datatype Strategy = LockBump | ManifestBump | Blocked

  datatype Edit = Edit(
    campaign: string,
    repo: string,
    ecosystem: string,
    package: string,
    from: seq<string>,
    to: string,
    advisories: seq<string>,
    breaking: bool,
    strategy: Strategy,
    reason: Option<string>)

  // ---- branch names ----

  predicate Plain(c: char) {
    'a' <= c <= 'z' || 'A' <= c <= 'Z' || '0' <= c <= '9' || c == '.' || c == '_' || c == '-'
  }

  function Replaced(s: string): string {
    seq(|s|, i requires 0 <= i < |s| => if Plain(s[i]) then s[i] else '-')
  }

  function TrimFront(s: string): string {
    if s != [] && (s[0] == '-' || s[0] == '.') then TrimFront(s[1..]) else s
  }

  function TrimBack(s: string): string {
    if s != [] && (s[|s| - 1] == '-' || s[|s| - 1] == '.') then TrimBack(s[..|s| - 1]) else s
  }

  /** A string usable in a branch or directory name. */
  function Safe(s: string): string {
    TrimBack(TrimFront(Replaced(s)))
  }

  /** Letters, digits, dots, underscores and hyphens, by their codes. */
  predicate NameChar(c: char) {
    var code := c as int;
    97 <= code <= 122 || 65 <= code <= 90 || 48 <= code <= 57 || code in {45, 46, 95}
  }

  predicate AtTheEnds(c: char) {
    c == '-' || c == '.' || !NameChar(c)
  }

  lemma {:induction false} TrimFrontIs(s: string) returns (i: nat)
    ensures i <= |s| && TrimFront(s) == s[i..] && forall k | 0 <= k < i :: s[k] == '-' || s[k] == '.'
    ensures i < |s| ==> s[i] != '-' && s[i] != '.'
  {
    i := 0;
    if s != [] && (s[0] == '-' || s[0] == '.') {
      var j := TrimFrontIs(s[1..]);
      i := j + 1;
    }
  }

  lemma {:induction false} TrimBackIs(s: string) returns (j: nat)
    ensures j <= |s| && TrimBack(s) == s[..j] && forall k | j <= k < |s| :: s[k] == '-' || s[k] == '.'
    ensures 0 < j ==> s[j - 1] != '-' && s[j - 1] != '.'
  {
    j := |s|;
    if s != [] && (s[|s| - 1] == '-' || s[|s| - 1] == '.') {
      j := TrimBackIs(s[..|s| - 1]);
    }
  }

  /** `r` is `s` from `i` to `j` with a hyphen for each character not allowed, and outside are ends alone. */
  ghost predicate CutsOut(s: string, r: string, i: nat, j: nat) {
    && i <= j <= |s| && |r| == j - i
    && (forall k | 0 <= k < j - i :: r[k] == if NameChar(s[i + k]) then s[i + k] else '-')
    && (forall k | 0 <= k < i :: AtTheEnds(s[k]))
    && (forall k | j <= k < |s| :: AtTheEnds(s[k]))
  }

  lemma ReplacedIs(s: string)
    ensures |Replaced(s)| == |s| && forall k | 0 <= k < |s| :: Replaced(s)[k] == if NameChar(s[k]) then s[k] else '-'
  {
  }

  lemma SafeIsCut(s: string) returns (i: nat, j: nat)
    ensures CutsOut(s, Safe(s), i, j)
    ensures i < j ==> Safe(s)[0] !in "-." && Safe(s)[j - i - 1] !in "-."
  {
    var r := Replaced(s);
    ReplacedIs(s);
    i := TrimFrontIs(r);
    var t := r[i..];
    var n := TrimBackIs(t);
    j := i + n;
    assert Safe(s) == t[..n];
    hide Safe, TrimFront, TrimBack, Replaced, NameChar;
    forall k | j <= k < |s|
      ensures AtTheEnds(s[k])
    {
      assert r[k] == t[k - i];
    }
    assert n > 0 ==> t[0] == r[i] && t[..n][n - 1] == t[n - 1];
  }

  /** A safe name is what is left of the text once every character that is not allowed is a hyphen and the hyphens and
      dots at both ends are gone. A text that is allowed throughout, and has none at its ends, is its own safe name. */
  lemma SafeNames(s: string)
    ensures exists i, j :: CutsOut(s, Safe(s), i, j)
    ensures Safe(s) != "" ==> Safe(s)[0] !in "-." && Safe(s)[|Safe(s)| - 1] !in "-."
    ensures (forall c | c in s :: NameChar(c)) && (s != "" ==> s[0] !in "-." && s[|s| - 1] !in "-.") ==> Safe(s) == s
  {
    var i, j := SafeIsCut(s);
    hide Safe;
    if (forall c | c in s :: NameChar(c)) && s != "" && s[0] !in "-." && s[|s| - 1] !in "-." {
      assert s[0] in s && s[|s| - 1] in s;
      assert !AtTheEnds(s[0]) && !AtTheEnds(s[|s| - 1]);
      assert i == 0 && j == |s|;
      assert forall k | 0 <= k < |s| :: s[k] in s;
    }
  }

  const OURS := "fleetreach/"
  const UNVERIFIED := "fleetreach-unverified/"

  function BranchRest(e: Edit): string {
    e.campaign + "/" + Safe(e.package) + "-" + Safe(e.to)
  }

  function BranchName(e: Edit): string {
    OURS + BranchRest(e)
  }

  function UnverifiedName(e: Edit): string {
    UNVERIFIED + BranchRest(e)
  }

  predicate OursBranch(b: string) {
    OURS <= b
  }

  /** A branch is named after its campaign, package and target; its unverified twin has the same name under a prefix
      of its own. */
  lemma NamesOf(e: Edit)
    ensures var rest := e.campaign + "/" + Safe(e.package) + "-" + Safe(e.to);
      BranchName(e) == "fleetreach/" + rest && UnverifiedName(e) == "fleetreach-unverified/" + rest
  {
  }

  lemma NamesApart(e: Edit, f: Edit)
    ensures OursBranch(BranchName(e)) && !OursBranch(UnverifiedName(e))
    ensures UnverifiedName(e) != BranchName(f)
  {
    assert UnverifiedName(e)[10] == '-' && OURS[10] == '/';
  }

  /** A branch name tells its campaign, which is hexadecimal and so holds no slash. */
  lemma BranchTellsCampaign(e: Edit, f: Edit)
    requires BranchName(e) == BranchName(f) && '/' !in e.campaign && '/' !in f.campaign
    ensures e.campaign == f.campaign
  {
    NameInParts(e);
    NameInParts(f);
    hide BranchName, Safe;
    SlashEndsIt(e.campaign, AfterCampaign(e), f.campaign, AfterCampaign(f));
  }

  function AfterCampaign(e: Edit): string {
    "/" + (Safe(e.package) + "-" + Safe(e.to))
  }

  lemma NameInParts(e: Edit)
    ensures BranchName(e)[|OURS|..] == e.campaign + AfterCampaign(e)
  {
    hide Safe;
    assert BranchName(e)[|OURS|..] == BranchRest(e);
  }

  lemma SlashEndsIt(a: string, more: string, b: string, more': string)
    requires '/' !in a && '/' !in b && a + more == b + more'
    requires more != "" && more' != "" && more[0] == '/' && more'[0] == '/'
    ensures a == b
  {
    var s := a + more;
    assert s[|a|] == '/' && s[|b|] == '/';
    assert forall i | 0 <= i < |a| :: s[i] == a[i] && a[i] in a;
    assert forall i | 0 <= i < |b| :: s[i] == b[i] && b[i] in b;
    assert s[..|a|] == a && s[..|b|] == b;
  }

  // ---- commit messages ----

  const VERIFIED := "Verified by a fleetreach re-scan"

  function CampaignMark(campaign: string): string {
    "campaign " + campaign
  }

  function Message(e: Edit, changed: string, verified: bool): string {
    "fix(deps): bump " + e.package + " to " + e.to + (if verified then "" else " (unverified)")
    + "\n\nClears " + Join(e.advisories, ", ") + " (" + e.ecosystem + " " + CampaignMark(e.campaign)
    + ").\nUpdate: " + changed + ".\n"
    + (if verified then VERIFIED + ": the advisories are gone and nothing new appeared."
       else "Not verified by the fleetreach re-scan; review before using.")
    + "\n"
  }

  lemma MiddlesOf(a: string, x: string, b: string, y: string, c: string)
    ensures Contains(a + x + b + y + c, x) && Contains(a + x + b + y + c, y)
  {
    hide Contains;
    assert a + x + b + y + c == a + x + (b + y + c);
    ContainsMiddle(a, x, b + y + c);
    ContainsMiddle(a + x + b, y, c);
  }

  lemma VerifiedMessageCarriesItsMarks(e: Edit, changed: string)
    ensures Contains(Message(e, changed, true), CampaignMark(e.campaign))
    ensures Contains(Message(e, changed, true), VERIFIED)
  {
    hide Contains, CampaignMark, Join;
    var front := "fix(deps): bump " + e.package + " to " + e.to + ""
      + "\n\nClears " + Join(e.advisories, ", ") + " (" + e.ecosystem + " ";
    var update := ").\nUpdate: " + changed + ".\n";
    var tail := ": the advisories are gone and nothing new appeared.";
    assert Message(e, changed, true) == front + CampaignMark(e.campaign) + update + VERIFIED + (tail + "\n");
    MiddlesOf(front, CampaignMark(e.campaign), update, VERIFIED, tail + "\n");
  }

  lemma Longer(s: string, more: string)
    ensures Contains(s + more, more)
    ensures forall x | Contains(s, x) :: Contains(s + more, x)
  {
    assert s + more + "" == s + more;
    ContainsMiddle(s, more, "");
    forall x | Contains(s, x)
      ensures Contains(s + more, x)
    {
      var i :| 0 <= i <= |s| && At(s, x, i);
      assert (s + more)[i..i + |x|] == s[i..i + |x|];
      assert At(s + more, x, i);
    }
  }

  /** Every message names the package, its target, the advisories and the update, and one of an unverified edit says so
      in its title. */
  lemma MessagesTell(e: Edit, changed: string, verified: bool)
    ensures var m := Message(e, changed, verified);
      Contains(m, e.package) && Contains(m, e.to) && Contains(m, Join(e.advisories, ", ")) && Contains(m, changed)
    ensures "fix(deps): bump " + e.package + " to " + e.to + (if verified then "" else " (unverified)")
      <= Message(e, changed, verified)
  {
    hide Contains, CampaignMark, Join;
    var a := "fix(deps): bump " + e.package;
    Longer("fix(deps): bump ", e.package);
    Longer(a, " to ");
    Longer(a + " to ", e.to);
    var title := a + " to " + e.to + (if verified then "" else " (unverified)");
    Longer(a + " to " + e.to, if verified then "" else " (unverified)");
    Longer(title, "\n\nClears ");
    Longer(title + "\n\nClears ", Join(e.advisories, ", "));
    var named := title + "\n\nClears " + Join(e.advisories, ", ");
    UpdateFollows(e, named, changed);
    var update := named + " (" + e.ecosystem + " " + CampaignMark(e.campaign) + ").\nUpdate: " + changed;
    var last := if verified then VERIFIED + ": the advisories are gone and nothing new appeared."
                else "Not verified by the fleetreach re-scan; review before using.";
    Longer(update, ".\n");
    Longer(update + ".\n", last);
    Longer(update + ".\n" + last, "\n");
    assert Message(e, changed, verified) == update + ".\n" + last + "\n";
    assert title <= title + "\n\nClears " <= named <= update <= update + ".\n" <= update + ".\n" + last;
  }

  lemma UpdateFollows(e: Edit, named: string, changed: string)
    ensures var update := named + " (" + e.ecosystem + " " + CampaignMark(e.campaign) + ").\nUpdate: " + changed;
      named <= update && Contains(update, changed) && forall x | Contains(named, x) :: Contains(update, x)
  {
    hide Contains, CampaignMark;
    var mark := CampaignMark(e.campaign);
    Longer(named, " (");
    Longer(named + " (", e.ecosystem);
    Longer(named + " (" + e.ecosystem, " ");
    Longer(named + " (" + e.ecosystem + " ", mark);
    Longer(named + " (" + e.ecosystem + " " + mark, ").\nUpdate: ");
    Longer(named + " (" + e.ecosystem + " " + mark + ").\nUpdate: ", changed);
  }

  // ---- verification ----

  /** An advisory on a package at a version. */
  type Found = (string, string, string)

  type Pair = (string, string)

  datatype Scanned = Scanned(findings: set<Found>, errored: bool, coverageGaps: nat)

  datatype Refusal =
    | NothingTargeted
    | StillPresent(left: set<Found>)
    | NewFindings(found: set<Found>)
    | NoLongerScans
    | CoverageDropped

  predicate Targeted(e: Edit, f: Found) {
    f.1 == e.package && f.0 in e.advisories
  }

  function Pairs(s: Scanned): set<Pair> {
    set f | f in s.findings :: (f.0, f.1)
  }

  function Left(e: Edit, after: Scanned): set<Found> {
    set f | f in after.findings && Targeted(e, f)
  }

  /** New means an advisory the package did not have before; its version may have moved. */
  function Unheard(before: Scanned, after: Scanned): set<Found> {
    set f | f in after.findings && (f.0, f.1) !in Pairs(before)
  }

  /** `verify`: every targeted advisory gone for the package, nothing new, no new errors or gaps. */
  function Verify(e: Edit, before: Scanned, after: Scanned): Result<(), Refusal> {
    if !exists f :: f in before.findings && Targeted(e, f) then Err(NothingTargeted)
    else if Left(e, after) != {} then Err(StillPresent(Left(e, after)))
    else if Unheard(before, after) != {} then Err(NewFindings(Unheard(before, after)))
    else if after.errored && !before.errored then Err(NoLongerScans)
    else if after.coverageGaps > before.coverageGaps then Err(CoverageDropped)
    else Ok(())
  }

  function TargetPairs(e: Edit): set<Pair> {
    set a | a in e.advisories :: (a, e.package)
  }

  /** What a verified bump did to the pairs of advisory and package. */
  ghost predicate Shrinks(e: Edit, before: Scanned, after: Scanned) {
    && Pairs(after) < Pairs(before)
    && TargetPairs(e) * Pairs(before) != {}
    && TargetPairs(e) * Pairs(after) == {}
    && (after.errored ==> before.errored)
    && after.coverageGaps <= before.coverageGaps
  }

  lemma VerifiedExactlyWhenItShrinks(e: Edit, before: Scanned, after: Scanned)
    ensures Verify(e, before, after).Ok? <==> Shrinks(e, before, after)
  {
    if Verify(e, before, after).Ok? {
      var f :| f in before.findings && Targeted(e, f);
      assert (f.0, f.1) in TargetPairs(e) * Pairs(before);
      forall p | p in Pairs(after)
        ensures p in Pairs(before) && p !in TargetPairs(e)
      {
        var g :| g in after.findings && (g.0, g.1) == p;
        assert g !in Unheard(before, after) && g !in Left(e, after);
      }
    }
    if Shrinks(e, before, after) {
      var p :| p in TargetPairs(e) * Pairs(before);
      var f :| f in before.findings && (f.0, f.1) == p;
      assert Targeted(e, f);
      forall g | g in after.findings
        ensures !Targeted(e, g) && (g.0, g.1) in Pairs(before)
      {
        assert (g.0, g.1) in Pairs(after);
        assert Targeted(e, g) ==> (g.0, g.1) in TargetPairs(e) * Pairs(after);
      }
      assert Left(e, after) == {} && Unheard(before, after) == {};
    }
  }

  /** Bump after bump, each verified against the scan before it. */
  ghost predicate VerifiedChain(edits: seq<Edit>, scans: seq<Scanned>) {
    |scans| == |edits| + 1 &&
    forall i | 0 <= i < |edits| :: Verify(edits[i], scans[i], scans[i + 1]).Ok?
  }

  /** A chain of verified bumps is no longer than the number of pairs it starts with. */
  lemma {:induction false} VerifiedBumpsTerminate(edits: seq<Edit>, scans: seq<Scanned>)
    requires VerifiedChain(edits, scans)
    ensures |edits| + |Pairs(scans[|edits|])| <= |Pairs(scans[0])|
  {
    if edits != [] {
      var last := |edits| - 1;
      var earlier := scans[..|edits|];
      assert VerifiedChain(edits[..last], earlier);
      VerifiedBumpsTerminate(edits[..last], earlier);
      VerifiedExactlyWhenItShrinks(edits[last], scans[last], scans[last + 1]);
      SmallerSet(Pairs(scans[last + 1]), Pairs(scans[last]));
    }
  }

  lemma SmallerSet<T>(a: set<T>, b: set<T>)
    requires a < b
    ensures |a| < |b|
  {
    assert b == a + (b - a);
    assert |b| == |a| + |b - a|;
    assert b - a != {};
  }
}
