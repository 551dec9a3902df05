/** Which edits `fix apply` attempts (crates/cli/src/fix.rs): canaries first, the limits of one run,
    and the requests already on the forge. What an attempt and a listing answer is an input. */
module FixSchedule {
  import opened Wrappers
  import opened FixPlan
  import opened FixProtocol

  // ---- the requests a repo already has ----

  datatype Request = Request(branch: Branch, state: string, url: string)

  type Known = map<Branch, Request>

  /** Position `i` is the request kept for its branch: the last open one, or the first when none is. */
  ghost predicate Kept(listed: seq<Request>, b: Branch, i: nat) {
    && i < |listed| && listed[i].branch == b
    && (if listed[i].state == "OPEN" then
          forall j | i < j < |listed| && listed[j].branch == b :: listed[j].state != "OPEN"
        else
          && (forall j | 0 <= j < |listed| && listed[j].branch == b :: listed[j].state != "OPEN")
          && (forall j | 0 <= j < i :: listed[j].branch != b))
  }

  ghost predicate Listed(listed: seq<Request>, b: Branch) {
    exists j :: 0 <= j < |listed| && listed[j].branch == b
  }

  /** An old closed request never hides a newer open one. */
  ghost predicate Chooses(known: Known, listed: seq<Request>) {
    && (forall b :: b in known <==> Listed(listed, b))
    && (forall b | b in known :: exists i: nat :: Kept(listed, b, i) && known[b] == listed[i])
  }

  lemma ChoosesStep(known: Known, listed: seq<Request>, r: Request)
    requires Chooses(known, listed)
    ensures Chooses(if r.state == "OPEN" || r.branch !in known then known[r.branch := r] else known, listed + [r])
  {
    var all := listed + [r];
    var after := if r.state == "OPEN" || r.branch !in known then known[r.branch := r] else known;
    assert all[|listed|] == r;
    assert forall j | 0 <= j < |listed| :: all[j] == listed[j];
    forall b
      ensures b in after <==> Listed(all, b)
      ensures b in after ==> exists i: nat :: Kept(all, b, i) && after[b] == all[i]
    {
      if b in known {
        var i: nat :| Kept(listed, b, i) && known[b] == listed[i];
        if b == r.branch && r.state == "OPEN" {
          assert Kept(all, b, |listed|);
        } else {
          assert Kept(all, b, i);
        }
      } else if b == r.branch {
        assert !Listed(listed, b);
        assert Kept(all, b, |listed|);
      }
    }
  }

  method ChooseRequests(listed: seq<Request>) returns (known: Known)
    ensures Chooses(known, listed)
  {
    hide Chooses;
    known := map[];
    ChoosesNothing();
    assert listed[..0] == [];
    for i := 0 to |listed|
      invariant Chooses(known, listed[..i])
    {
      var r := listed[i];
      ChoosesStep(known, listed[..i], r);
      assert listed[..i + 1] == listed[..i] + [r];
      if r.state == "OPEN" || r.branch !in known {
        known := known[r.branch := r];
      }
    }
    assert listed[..|listed|] == listed;
  }

  lemma ChoosesNothing()
    ensures Chooses(map[], [])
  {
  }

  type Listing = Result<seq<Request>, string>

  ghost predicate AnswersFrom(known: Result<Known, string>, listing: Listing) {
    match listing
    case Err(e) => known == Err(e)
    case Ok(listed) => known.Ok? && Chooses(known.value, listed)
  }

  class Requests {
    var byRepo: map<string, Result<Known, string>>

    constructor ()
      ensures byRepo == map[]
    {
      byRepo := map[];
    }

    /** `Requests::of`: a repo is listed once, and answers the same for the rest of the run. */
    method Of(repo: string, listing: Listing) returns (known: Result<Known, string>)
      modifies this
      ensures if repo in old(byRepo) then byRepo == old(byRepo) && known == byRepo[repo]
              else byRepo == old(byRepo)[repo := known] && AnswersFrom(known, listing)
    {
      if repo in byRepo {
        return byRepo[repo];
      }
      match listing {
        case Err(e) =>
          known := Err(e);
        case Ok(listed) =>
          var chosen := ChooseRequests(listed);
          known := Ok(chosen);
      }
      byRepo := byRepo[repo := known];
    }
  }

  /** `settled`: a closed or merged request is not opened again. */
  predicate Settled(state: string) {
    state == "CLOSED" || state == "MERGED"
  }

  // ---- the order of edits ----

  function Filter<T>(s: seq<T>, p: T -> bool): seq<T> {
    if s == [] then []
    else Filter(s[..|s| - 1], p) + if p(s[|s| - 1]) then [s[|s| - 1]] else []
  }

  /** Canaries first, the plan's order within each group: what the stable sort gives. */
  function CanaryFirst(edits: seq<Edit>, canary: set<string>): seq<Edit> {
    Filter(edits, (e: Edit) => e.repo in canary) + Filter(edits, (e: Edit) => e.repo !in canary)
  }

  lemma {:induction false} FilterIn<T>(s: seq<T>, p: T -> bool)
    ensures forall x :: x in Filter(s, p) <==> x in s && p(x)
  {
    if s != [] {
      assert s == s[..|s| - 1] + [s[|s| - 1]];
      FilterIn(s[..|s| - 1], p);
    }
  }

  lemma {:induction false} FiltersSplit<T>(s: seq<T>, p: T -> bool, q: T -> bool)
    requires forall x :: q(x) <==> !p(x)
    ensures multiset(Filter(s, p)) + multiset(Filter(s, q)) == multiset(s)
  {
    if s != [] {
      assert s == s[..|s| - 1] + [s[|s| - 1]];
      FiltersSplit(s[..|s| - 1], p, q);
    }
  }

  predicate CanariesAhead(order: seq<Edit>, canary: set<string>) {
    forall i, j | 0 <= i < j < |order| :: order[j].repo in canary ==> order[i].repo in canary
  }

  /** The order is a permutation of the plan in which no canary follows another edit. */
  lemma CanariesComeFirst(edits: seq<Edit>, canary: set<string>)
    ensures var order := CanaryFirst(edits, canary);
      multiset(order) == multiset(edits) && CanariesAhead(order, canary)
  {
    var p, q := (e: Edit) => e.repo in canary, (e: Edit) => e.repo !in canary;
    FilterIn(edits, p);
    FilterIn(edits, q);
    FiltersSplit(edits, p, q);
    var a, b := Filter(edits, p), Filter(edits, q);
    assert forall i | 0 <= i < |a| :: a[i] in a;
    assert forall i | 0 <= i < |b| :: b[i] in b;
  }

  lemma {:induction false} FilterAt<T>(s: seq<T>, p: T -> bool, j: nat) returns (j': nat)
    requires j < |Filter(s, p)|
    ensures j' < |s| && s[j'] == Filter(s, p)[j] && p(s[j'])
    ensures Filter(s[..j'], p) == Filter(s, p)[..j]
  {
    var init, last := s[..|s| - 1], s[|s| - 1];
    if j < |Filter(init, p)| {
      j' := FilterAt(init, p, j);
      assert s[..j'] == init[..j'];
    } else {
      j' := |s| - 1;
    }
  }

  /** Of two edits that are both canaries, or both not, the one first in the order is before the other in the plan. */
  lemma PlanOrderHolds(edits: seq<Edit>, canary: set<string>, i: nat, j: nat)
    requires i < j < |CanaryFirst(edits, canary)|
    ensures var order := CanaryFirst(edits, canary);
      (order[i].repo in canary <==> order[j].repo in canary) ==>
      exists i', j' :: 0 <= i' < j' < |edits| && edits[i'] == order[i] && edits[j'] == order[j]
  {
    var p, q := (e: Edit) => e.repo in canary, (e: Edit) => e.repo !in canary;
    var a, b := Filter(edits, p), Filter(edits, q);
    FilterIn(edits, p);
    FilterIn(edits, q);
    var order := CanaryFirst(edits, canary);
    assert order == a + b;
    if order[i].repo in canary <==> order[j].repo in canary {
      if j < |a| {
        var j' := FilterAt(edits, p, j);
        var i' := FilterAt(edits[..j'], p, i);
      } else {
        assert order[j] in b && (i < |a| ==> order[i] in a);
        var j' := FilterAt(edits, q, j - |a|);
        var i' := FilterAt(edits[..j'], q, i - |a|);
      }
    }
  }

  // ---- one run ----

  datatype Args = Args(
    repos: set<string>,
    canary: set<string>,
    maxRepos: nat,
    maxPrs: Option<nat>,
    stopAfterFailures: Option<nat>,
    openPr: bool)

  /** What one edit came to. `attempted` edits are the ones `apply_one` ran for. */
  datatype Done = Done(edit: Edit, outcome: Outcome, attempted: bool, newRequest: bool)

  /** What `apply_one` and `publish` answer for an edit: its outcome, and whether a request was opened. */
  datatype Attempt = Attempt(outcome: Outcome, newRequest: bool)

  predicate Failed(d: Done) {
    d.outcome == Unverified || d.outcome == NotApplied
  }

  function Failures(done: seq<Done>): nat {
    if done == [] then 0
    else Failures(done[..|done| - 1]) + if Failed(done[|done| - 1]) then 1 else 0
  }

  function Opened(done: seq<Done>): nat {
    if done == [] then 0
    else Opened(done[..|done| - 1]) + if done[|done| - 1].newRequest then 1 else 0
  }

  function Touched(done: seq<Done>): set<string> {
    set d | d in done && d.attempted :: d.edit.repo
  }

  predicate InScope(args: Args, e: Edit) {
    e.strategy == Blocked || args.repos == {} || e.repo in args.repos
  }

  function ScopeOf(args: Args): Edit -> bool {
    (e: Edit) => InScope(args, e)
  }

  function Edits(done: seq<Done>): seq<Edit> {
    if done == [] then [] else Edits(done[..|done| - 1]) + [done[|done| - 1].edit]
  }

  ghost predicate CanaryFailed(args: Args, done: seq<Done>) {
    exists d :: d in done && Failed(d) && d.edit.repo in args.canary
  }

  /** Every limit of a run, over what it did so far. */
  ghost predicate WithinLimits(args: Args, done: seq<Done>) {
    && |Touched(done)| <= args.maxRepos
    && (args.maxPrs.Some? && args.openPr ==> Opened(done) <= args.maxPrs.value)
    && (!args.openPr ==> Opened(done) == 0)
    && (args.stopAfterFailures.Some? ==> Failures(done) <= args.stopAfterFailures.value)
    && (forall i | 0 <= i < |done| && done[i].attempted && done[i].edit.repo !in args.canary ::
         !CanaryFailed(args, done[..i]))
    && (forall d | d in done && d.attempted :: d.edit.strategy != Blocked)
  }

  lemma {:induction false} AppendDone(done: seq<Done>, d: Done)
    ensures Failures(done + [d]) == Failures(done) + if Failed(d) then 1 else 0
    ensures Opened(done + [d]) == Opened(done) + if d.newRequest then 1 else 0
    ensures Touched(done + [d]) == Touched(done) + if d.attempted then {d.edit.repo} else {}
    ensures Edits(done + [d]) == Edits(done) + [d.edit]
  {
    assert (done + [d])[..|done|] == done;
  }

  /** Recording a result keeps the limits, under the tests the run makes first. */
  lemma WithinLimitsStep(args: Args, done: seq<Done>, d: Done)
    requires WithinLimits(args, done)
    requires Failed(d) ==> args.stopAfterFailures.None? || Failures(done) < args.stopAfterFailures.value
    requires d.attempted ==> d.edit.repo in Touched(done) || |Touched(done)| < args.maxRepos
    requires d.attempted ==> d.edit.strategy != Blocked && (d.edit.repo in args.canary || !CanaryFailed(args, done))
    requires d.newRequest ==> args.openPr && (args.maxPrs.None? || Opened(done) < args.maxPrs.value)
    ensures WithinLimits(args, done + [d])
  {
    AppendDone(done, d);
    hide Failures, Opened, Touched;
    var all := done + [d];
    forall i | 0 <= i < |all| && all[i].attempted && all[i].edit.repo !in args.canary
      ensures !CanaryFailed(args, all[..i])
    {
      if i < |done| {
        assert all[..i] == done[..i];
        assert all[i] == done[i];
      } else {
        assert all[..i] == done;
      }
    }
  }

  /** The test of the run before each edit: has a canary failed so far? */
  method HasCanaryFailed(args: Args, done: seq<Done>) returns (failed: bool)
    ensures failed <==> CanaryFailed(args, done)
  {
    for i := 0 to |done|
      invariant !CanaryFailed(args, done[..i])
    {
      if Failed(done[i]) && done[i].edit.repo in args.canary {
        return true;
      }
      assert done[..i + 1] == done[..i] + [done[i]];
    }
    assert done[..|done|] == done;
    return false;
  }

  /** What the run is given from outside: the repos of the fleet, each repo's request listing, and what comes
      of an attempt, by its turn in the run and whether the branch has an open request. */
  datatype World = World(fleet: set<string>, listings: string -> Listing, attempts: (nat, bool) -> Attempt)

  /** An attempt opens a request only with `--open-pr`, and a branch listed as open is updated. */
  ghost predicate Faithful(w: World, args: Args) {
    forall turn, hasOpen :: w.attempts(turn, hasOpen).newRequest ==> args.openPr && !hasOpen
  }

  /** The request kept for the edit's branch, by its state. */
  ghost predicate KeptAs(w: World, e: Edit, state: string) {
    && w.listings(e.repo).Ok?
    && exists i: nat :: Kept(w.listings(e.repo).value, BranchName(e), i) && w.listings(e.repo).value[i].state == state
  }

  ghost predicate HasOpen(args: Args, w: World, e: Edit) {
    args.openPr && KeptAs(w, e, "OPEN")
  }

  // ---- the tests an edit must pass, over what the run did so far ----

  ghost predicate TooManyFailures(args: Args, done: seq<Done>) {
    args.stopAfterFailures.Some? && Failures(done) >= args.stopAfterFailures.value
  }

  ghost predicate HeldByCanary(args: Args, done: seq<Done>, e: Edit) {
    CanaryFailed(args, done) && e.repo !in args.canary
  }

  ghost predicate OverRepos(args: Args, done: seq<Done>, e: Edit) {
    e.repo !in Touched(done) && |Touched(done)| >= args.maxRepos
  }

  ghost predicate OverRequests(args: Args, w: World, done: seq<Done>, e: Edit) {
    args.openPr && !HasOpen(args, w, e) && args.maxPrs.Some? && Opened(done) >= args.maxPrs.value
  }

  /** Its requests are asked about, unless it is blocked, the run is stopped or full, or its repo is unknown. */
  ghost predicate Reached(args: Args, w: World, done: seq<Done>, e: Edit) {
    && e.strategy != Blocked
    && !TooManyFailures(args, done)
    && !HeldByCanary(args, done, e)
    && !OverRepos(args, done, e)
    && e.repo in w.fleet
  }

  ghost predicate Unlisted(args: Args, w: World, e: Edit) {
    args.openPr && w.listings(e.repo).Err?
  }

  ghost predicate SettledBefore(args: Args, w: World, e: Edit) {
    args.openPr && (KeptAs(w, e, "CLOSED") || KeptAs(w, e, "MERGED"))
  }

  /** An edit is attempted exactly when no test holds it back. */
  ghost predicate Attempts(args: Args, w: World, done: seq<Done>, e: Edit) {
    && Reached(args, w, done, e)
    && !Unlisted(args, w, e)
    && !SettledBefore(args, w, e)
    && !OverRequests(args, w, done, e)
  }

  /** What is recorded of an edit: the attempt's answer, or why there was none. */
  ghost function RecordOf(args: Args, w: World, done: seq<Done>, e: Edit): (d: Done)
    ensures d.edit == e
  {
    if Attempts(args, w, done, e) then
      var attempt := w.attempts(|done|, HasOpen(args, w, e));
      Done(e, attempt.outcome, true, attempt.newRequest)
    else if Reached(args, w, done, e) && Unlisted(args, w, e) then Done(e, NotApplied, false, false)
    else Done(e, Skipped, false, false)
  }

  /** The run was stopped by what it had done. */
  ghost predicate StoppedBy(args: Args, done: seq<Done>) {
    TooManyFailures(args, done) || (CanaryFailed(args, done) && exists d :: d in done && d.edit.repo !in args.canary)
  }

  lemma StoppedStays(args: Args, done: seq<Done>, d: Done)
    requires StoppedBy(args, done) || TooManyFailures(args, done) || HeldByCanary(args, done, d.edit)
    ensures StoppedBy(args, done + [d])
  {
    AppendDone(done, d);
    hide Failures;
    assert forall x :: x in done + [d] <==> x in done || x == d;
  }

  lemma KeptUnique(listed: seq<Request>, b: Branch, i: nat, j: nat)
    requires Kept(listed, b, i) && Kept(listed, b, j)
    ensures i == j
  {
  }

  ghost predicate CacheFits(requests: Requests, w: World)
    reads requests
  {
    forall repo | repo in requests.byRepo :: AnswersFrom(requests.byRepo[repo], w.listings(repo))
  }

  /** The tests on an edit's own requests: whether it may go ahead, and whether its branch is open. */
  method CheckRequests(e: Edit, args: Args, w: World, requests: Requests)
    returns (verdict: Result<bool, Outcome>)
    requires CacheFits(requests, w)
    modifies requests
    ensures CacheFits(requests, w)
    ensures Unlisted(args, w, e) <==> verdict == Err(NotApplied)
    ensures SettledBefore(args, w, e) <==> verdict == Err(Skipped)
    ensures verdict.Ok? <==> !Unlisted(args, w, e) && !SettledBefore(args, w, e)
    ensures verdict.Ok? ==> verdict.value == HasOpen(args, w, e)
  {
    if !args.openPr {
      return Ok(false);
    }
    var known := requests.Of(e.repo, w.listings(e.repo));
    hide Chooses, BranchName, KeptAs;
    match known {
      case Err(_) =>
        NotKept(w, e);
        return Err(NotApplied);
      case Ok(byBranch) =>
        var b := BranchName(e);
        KeptState(byBranch, w, e);
        if b in byBranch && Settled(byBranch[b].state) {
          return Err(Skipped);
        }
        return Ok(b in byBranch && byBranch[b].state == "OPEN");
    }
  }

  lemma NotKept(w: World, e: Edit)
    requires w.listings(e.repo).Err?
    ensures forall state :: !KeptAs(w, e, state)
  {
  }

  lemma KeptState(known: Known, w: World, e: Edit)
    requires w.listings(e.repo).Ok? && Chooses(known, w.listings(e.repo).value)
    ensures forall state :: KeptAs(w, e, state) <==> BranchName(e) in known && known[BranchName(e)].state == state
  {
    KnownState(known, w.listings(e.repo).value, BranchName(e));
    hide Kept, BranchName;
  }

  lemma KnownState(known: Known, listed: seq<Request>, b: Branch)
    requires Chooses(known, listed)
    ensures forall i: nat | Kept(listed, b, i) :: b in known && known[b] == listed[i]
  {
    forall i: nat | Kept(listed, b, i)
      ensures b in known && known[b] == listed[i]
    {
      assert Listed(listed, b);
      var j: nat :| Kept(listed, b, j) && known[b] == listed[j];
      KeptUnique(listed, b, i, j);
    }
  }

  /** The record of a run: each edit's is what the tests and the attempt give it at its turn. */
  ghost predicate Recorded(args: Args, w: World, done: seq<Done>) {
    forall i | 0 <= i < |done| :: done[i] == RecordOf(args, w, done[..i], done[i].edit)
  }

  lemma RecordedOneMore(args: Args, w: World, done: seq<Done>, d: Done)
    requires Recorded(args, w, done) && d == RecordOf(args, w, done, d.edit)
    ensures Recorded(args, w, done + [d])
  {
    hide RecordOf;
    var all := done + [d];
    forall i | 0 <= i < |all|
      ensures all[i] == RecordOf(args, w, all[..i], all[i].edit)
    {
      if i < |done| {
        assert all[..i] == done[..i];
      } else {
        assert all[..i] == done;
      }
    }
  }

  /** `run_apply`: every edit in scope is recorded once, in canary-first order; it is attempted exactly when no
      test holds it back at its turn, and the run stays within its limits whatever the attempts answer. */
  method RunApply(edits: seq<Edit>, args: Args, w: World, requests: Requests) returns (done: seq<Done>)
    requires Faithful(w, args) && requests.byRepo == map[]
    modifies requests
    ensures Edits(done) == Filter(CanaryFirst(edits, args.canary), ScopeOf(args))
    ensures Recorded(args, w, done)
    ensures WithinLimits(args, done)
    ensures CacheFits(requests, w)
  {
    hide Recorded, RecordOf, WithinLimits, StoppedBy, Faithful, CacheFits, CanariesAhead, Edits, Filter;
    var order := CanaryFirst(edits, args.canary);
    CanariesComeFirst(edits, args.canary);
    done := [];
    var stopped := false;
    NothingRecorded(args, w, order, requests);
    for n := 0 to |order|
      invariant Edits(done) == Filter(order[..n], ScopeOf(args))
      invariant forall d | d in done :: d.edit in order[..n]
      invariant Recorded(args, w, done) && WithinLimits(args, done)
      invariant stopped ==> StoppedBy(args, done)
      invariant CacheFits(requests, w)
    {
      var edit := order[n];
      InScopeOneMore(args, order, n);
      if edit.strategy != Blocked && args.repos != {} && edit.repo !in args.repos {
        continue;
      }
      EarlierCanaries(order, args.canary, n, done);
      var result: Done;
      result, stopped := ApplyNext(edit, args, w, requests, done, stopped);
      AppendDone(done, result);
      RecordedOneMore(args, w, done, result);
      done := done + [result];
    }
    assert order[..|order|] == order;
  }

  lemma NothingRecorded(args: Args, w: World, order: seq<Edit>, requests: Requests)
    requires requests.byRepo == map[]
    ensures Recorded(args, w, []) && WithinLimits(args, []) && CacheFits(requests, w)
    ensures Edits([]) == Filter(order[..0], ScopeOf(args))
  {
  }

  lemma InScopeOneMore(args: Args, order: seq<Edit>, n: nat)
    requires n < |order|
    ensures order[..n + 1] == order[..n] + [order[n]]
    ensures var p := ScopeOf(args);
      Filter(order[..n + 1], p) == Filter(order[..n], p) + if InScope(args, order[n]) then [order[n]] else []
  {
    assert order[..n + 1][..n] == order[..n];
  }

  lemma EarlierCanaries(order: seq<Edit>, canary: set<string>, n: nat, done: seq<Done>)
    requires n < |order| && CanariesAhead(order, canary) && forall d | d in done :: d.edit in order[..n]
    ensures order[n].repo in canary ==> forall d | d in done :: d.edit.repo in canary
  {
    forall d | d in done && order[n].repo in canary
      ensures d.edit.repo in canary
    {
      var i :| 0 <= i < n && order[..n][i] == d.edit;
      assert order[i] == d.edit;
    }
  }

  /** One turn of the loop: the tests in their order, then the attempt. */
  method ApplyNext(edit: Edit, args: Args, w: World, requests: Requests, done: seq<Done>, wasStopped: bool)
    returns (result: Done, stopped: bool)
    requires Faithful(w, args) && CacheFits(requests, w) && WithinLimits(args, done)
    requires wasStopped ==> StoppedBy(args, done)
    requires edit.repo in args.canary ==> forall d | d in done :: d.edit.repo in args.canary
    modifies requests
    ensures CacheFits(requests, w)
    ensures result == RecordOf(args, w, done, edit) && WithinLimits(args, done + [result])
    ensures stopped ==> StoppedBy(args, done + [result])
  {
    hide Failures, Opened, Touched, WithinLimits, CanaryFailed, BranchName, KeptAs;
    stopped := wasStopped;
    result := Done(edit, Skipped, false, false);
    WithinLimitsStep(args, done, result);
    if wasStopped {
      StoppedStays(args, done, result);
    }
    if edit.strategy == Blocked {
      return;
    }
    var failures := Failures(done);
    if !stopped && args.stopAfterFailures.Some? && failures >= args.stopAfterFailures.value {
      stopped := true;
    }
    var canaryFailed := HasCanaryFailed(args, done);
    if !stopped && canaryFailed && edit.repo !in args.canary {
      stopped := true;
    }
    if stopped {
      StoppedStays(args, done, result);
      return;
    }
    var touched := Touched(done);
    if edit.repo !in touched && |touched| >= args.maxRepos {
      return;
    }
    if edit.repo !in w.fleet {
      return;
    }
    var verdict := CheckRequests(edit, args, w, requests);
    if verdict.Err? {
      result := Done(edit, verdict.error, false, false);
      WithinLimitsStep(args, done, result);
      return;
    }
    var hasOpen := verdict.value;
    if !hasOpen && args.openPr && args.maxPrs.Some? && Opened(done) >= args.maxPrs.value {
      return;
    }
    var attempt := w.attempts(|done|, hasOpen);
    result := Done(edit, attempt.outcome, true, attempt.newRequest);
    WithinLimitsStep(args, done, result);
  }

  lemma {:induction false} EditsAt(done: seq<Done>, i: nat)
    requires i < |done|
    ensures |Edits(done)| == |done| && Edits(done)[i] == done[i].edit
  {
    if i < |done| - 1 {
      EditsAt(done[..|done| - 1], i);
    } else if i > 0 {
      EditsAt(done[..|done| - 1], 0);
    }
  }

  lemma {:induction false} FilterKeepsCanaryOrder(order: seq<Edit>, canary: set<string>, p: Edit -> bool)
    requires CanariesAhead(order, canary)
    ensures CanariesAhead(Filter(order, p), canary)
  {
    if order != [] {
      var init, last := order[..|order| - 1], order[|order| - 1];
      FilterKeepsCanaryOrder(init, canary, p);
      FilterIn(init, p);
      var kept := Filter(init, p);
      if last.repo in canary {
        forall x | x in kept
          ensures x.repo in canary
        {
          var m :| 0 <= m < |init| && init[m] == x;
          assert order[m] == x;
        }
      }
    }
  }

  /** If any canary edit of the finished run failed, no edit outside the canaries was attempted. */
  lemma FailedCanaryHoldsTheRest(edits: seq<Edit>, args: Args, done: seq<Done>)
    requires Edits(done) == Filter(CanaryFirst(edits, args.canary), ScopeOf(args))
    requires WithinLimits(args, done) && CanaryFailed(args, done)
    ensures forall d | d in done && d.edit.repo !in args.canary :: !d.attempted
  {
    hide CanaryFirst, Filter, Edits, WithinLimits, Failed, InScope;
    CanariesComeFirst(edits, args.canary);
    FilterKeepsCanaryOrder(CanaryFirst(edits, args.canary), args.canary, ScopeOf(args));
    var j :| 0 <= j < |done| && Failed(done[j]) && done[j].edit.repo in args.canary;
    forall d | d in done && d.edit.repo !in args.canary
      ensures !d.attempted
    {
      var i :| 0 <= i < |done| && done[i] == d;
      EditsAt(done, i);
      EditsAt(done, j);
      assert j < i;
      assert done[..i][j] == done[j] && done[j] in done[..i];
      AttemptedBeforeFailure(args, done, i);
    }
  }

  lemma AttemptedBeforeFailure(args: Args, done: seq<Done>, i: nat)
    requires WithinLimits(args, done) && i < |done| && done[i].edit.repo !in args.canary
    ensures done[i].attempted ==> !CanaryFailed(args, done[..i])
  {
    hide CanaryFailed, Failures, Opened, Touched;
  }

  // ---- nothing is held back without a reason ----

  /** The edits of the run's records, in their order. */
  function RecordedEdits(done: seq<Done>): seq<Edit> {
    seq(|done|, i requires 0 <= i < |done| => done[i].edit)
  }

  lemma EditsAreRecorded(done: seq<Done>)
    ensures Edits(done) == RecordedEdits(done)
  {
    hide Edits;
    if done == [] {
      NoEdits();
    } else {
      EditsAt(done, 0);
      forall i | 0 <= i < |done|
        ensures Edits(done)[i] == done[i].edit
      {
        EditsAt(done, i);
      }
    }
  }

  lemma NoEdits()
    ensures Edits([]) == []
  {
  }

  lemma {:induction false} FilterCounts(s: seq<Edit>, p: Edit -> bool, e: Edit)
    ensures multiset(Filter(s, p))[e] == if p(e) then multiset(s)[e] else 0
  {
    if s != [] {
      assert s == s[..|s| - 1] + [s[|s| - 1]];
      FilterCounts(s[..|s| - 1], p, e);
    }
  }

  /** A run records every edit of the plan as often as it is there; asked for some repos alone, it records the
      blocked edits and those of these repos, and no other. */
  lemma EveryEditIsRecorded(edits: seq<Edit>, args: Args, done: seq<Done>)
    requires Edits(done) == Filter(CanaryFirst(edits, args.canary), ScopeOf(args))
    ensures args.repos == {} ==> multiset(RecordedEdits(done)) == multiset(edits)
    ensures forall e ::
      multiset(RecordedEdits(done))[e] ==
      (if args.repos == {} || e.repo in args.repos || e.strategy == Blocked then multiset(edits)[e] else 0)
  {
    hide Edits, CanaryFirst, CanariesAhead, Filter, RecordedEdits;
    EditsAreRecorded(done);
    CanariesComeFirst(edits, args.canary);
    forall e
      ensures multiset(RecordedEdits(done))[e] ==
        if args.repos == {} || e.repo in args.repos || e.strategy == Blocked then multiset(edits)[e] else 0
    {
      FilterCounts(CanaryFirst(edits, args.canary), ScopeOf(args), e);
    }
  }

  /** The turns that failed so far, the requests opened, and the repos with an attempt. */
  ghost function FailedTurns(done: seq<Done>): set<nat> {
    set i: nat | i < |done| && done[i].outcome in {Unverified, NotApplied}
  }

  ghost function OpeningTurns(done: seq<Done>): set<nat> {
    set i: nat | i < |done| && done[i].newRequest
  }

  ghost function AttemptedRepos(done: seq<Done>): set<string> {
    set i: nat | i < |done| && done[i].attempted :: done[i].edit.repo
  }

  lemma OneMoreMember(a: set<nat>, b: set<nat>, z: nat, yes: bool)
    requires z !in a && forall i: nat :: i in b <==> i in a || (i == z && yes)
    ensures |b| == |a| + if yes then 1 else 0
  {
    assert b == a + if yes then {z} else {};
  }

  lemma OneMoreTurn(done: seq<Done>, d: Done)
    ensures |FailedTurns(done + [d])| == |FailedTurns(done)| + if Failed(d) then 1 else 0
    ensures |OpeningTurns(done + [d])| == |OpeningTurns(done)| + if d.newRequest then 1 else 0
  {
    var all, z := done + [d], |done|;
    forall i: nat
      ensures i in FailedTurns(all) <==> i in FailedTurns(done) || (i == z && Failed(d))
      ensures i in OpeningTurns(all) <==> i in OpeningTurns(done) || (i == z && d.newRequest)
    {
      assert i < z ==> all[i] == done[i];
    }
    OneMoreMember(FailedTurns(done), FailedTurns(all), z, Failed(d));
    OneMoreMember(OpeningTurns(done), OpeningTurns(all), z, d.newRequest);
  }

  lemma TouchedAre(done: seq<Done>)
    ensures Touched(done) == AttemptedRepos(done)
  {
    forall repo
      ensures repo in Touched(done) <==> repo in AttemptedRepos(done)
    {
      if repo in Touched(done) {
        var d :| d in done && d.attempted && d.edit.repo == repo;
        var i: nat :| i < |done| && done[i] == d;
        assert repo in AttemptedRepos(done);
      }
    }
  }

  lemma {:induction false} CountsAre(done: seq<Done>)
    ensures Failures(done) == |FailedTurns(done)| && Opened(done) == |OpeningTurns(done)|
  {
    if done != [] {
      hide Failures, Opened, Touched, FailedTurns, OpeningTurns;
      var init, last := done[..|done| - 1], done[|done| - 1];
      assert done == init + [last];
      CountsAre(init);
      AppendDone(init, last);
      OneMoreTurn(init, last);
    }
  }

  /** Liveness beside the limits: an edit is attempted at its turn exactly when it is not blocked, its repo is in the
      fleet, fewer turns failed than the run stops after, no canary failed or it is one, its repo was attempted
      before or one more still may be, its requests could be listed and none was closed or merged, and it updates an
      open request or may open one more. */
  lemma AttemptedWheneverAllowed(args: Args, w: World, done: seq<Done>, e: Edit)
    ensures RecordOf(args, w, done, e).attempted <==>
      && e.strategy != Blocked
      && e.repo in w.fleet
      && (args.stopAfterFailures.None? || |FailedTurns(done)| < args.stopAfterFailures.value)
      && (e.repo in args.canary || forall i | i in FailedTurns(done) :: done[i].edit.repo !in args.canary)
      && (e.repo in AttemptedRepos(done) || |AttemptedRepos(done)| < args.maxRepos)
      && (args.openPr ==>
           && w.listings(e.repo).Ok?
           && !KeptAs(w, e, "CLOSED") && !KeptAs(w, e, "MERGED")
           && (KeptAs(w, e, "OPEN") || args.maxPrs.None? || |OpeningTurns(done)| < args.maxPrs.value))
  {
    hide KeptAs, Failures, Opened, Touched;
    CountsAre(done);
    TouchedAre(done);
    hide OpeningTurns, AttemptedRepos;
    assert CanaryFailed(args, done) <==> exists i | i in FailedTurns(done) :: done[i].edit.repo in args.canary by {
      if d :| d in done && Failed(d) && d.edit.repo in args.canary {
        var i: nat :| i < |done| && done[i] == d;
        assert i in FailedTurns(done);
      }
    }
    hide CanaryFailed, FailedTurns;
  }

  /** An edit that is not attempted changes nothing and opens nothing: it is recorded as skipped, or as not applied when
      its repo's requests could not be listed. */
  lemma UnattemptedIsSkipped(args: Args, w: World, done: seq<Done>, e: Edit)
    ensures var d := RecordOf(args, w, done, e);
      !d.attempted ==>
        && d.edit == e && !d.newRequest && d.outcome in {Skipped, NotApplied}
        && (d.outcome == NotApplied ==> args.openPr && w.listings(e.repo).Err?)
  {
    hide KeptAs, Failures, Opened, Touched, CanaryFailed;
  }

  // ---- closing obsolete requests ----

  function Wanted(edits: seq<Edit>): set<(string, Branch)> {
    set e | e in edits :: (e.repo, BranchName(e))
  }

  /** A request `close_obsolete` turns to: open, of a scanned repo in scope, and wanted by no edit of
      the plan, blocked ones included. */
  ghost predicate Obsolete(edits: seq<Edit>, args: Args, w: World, repo: string, b: Branch) {
    && (args.repos == {} || repo in args.repos)
    && repo in w.fleet
    && (repo, b) !in Wanted(edits)
    && w.listings(repo).Ok?
    && exists i: nat :: Kept(w.listings(repo).value, b, i) && w.listings(repo).value[i].state == "OPEN"
  }

  lemma OpenInListing(known: Known, listed: seq<Request>, b: Branch)
    requires Chooses(known, listed)
    ensures b in known && known[b].state == "OPEN" <==>
            exists i: nat :: Kept(listed, b, i) && listed[i].state == "OPEN"
  {
    KnownState(known, listed, b);
  }

  /** `close_obsolete`: the requests it goes on to close, exactly the obsolete ones of the scanned repos. */
  method CloseObsolete(edits: seq<Edit>, scanned: seq<string>, args: Args, w: World, requests: Requests)
    returns (closing: set<(string, Branch)>)
    requires CacheFits(requests, w)
    modifies requests
    ensures forall repo, b :: (repo, b) in closing <==> repo in scanned && Obsolete(edits, args, w, repo, b)
  {
    hide Kept, Chooses, BranchName;
    var wanted := Wanted(edits);
    closing := {};
    for i := 0 to |scanned|
      invariant CacheFits(requests, w)
      invariant forall repo, b :: (repo, b) in closing <==> repo in scanned[..i] && Obsolete(edits, args, w, repo, b)
    {
      var repo := scanned[i];
      assert scanned[..i + 1] == scanned[..i] + [repo];
      if (args.repos != {} && repo !in args.repos) || repo !in w.fleet {
        continue;
      }
      var known := requests.Of(repo, w.listings(repo));
      match known {
        case Err(_) =>
        case Ok(byBranch) =>
          forall b {
            OpenInListing(byBranch, w.listings(repo).value, b);
          }
          closing := closing
            + set b | b in byBranch && byBranch[b].state == "OPEN" && (repo, b) !in wanted :: (repo, b);
      }
    }
    assert scanned[..|scanned|] == scanned;
  }
}
