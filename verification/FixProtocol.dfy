/** The branch protocol of `fix apply` (crates/cli/src/fix.rs): local branches, remote-tracking refs,
    and a remote that other people push to between any two commands. What git, the package manager
    and the scans answer is an input; a remote's heads are read anew at each command. */
module FixProtocol {
  import opened Wrappers
  import opened FixPlan
  import opened Text

  type Branch = string
  type Heads = map<Branch, Commit>

  /** A commit is what its hash fixes: its parent, its message and its content. */
  datatype Commit = Root(tree: nat) | Child(parent: Commit, message: string, tree: nat)

  /** The clone's refs, and the commits whose own run verified them for a campaign. */
  datatype Refs = Refs(local: Heads, tracking: Heads, passed: set<(Commit, string)>)

  datatype Outcome = Verified | Unverified | NotApplied | Skipped

  datatype Applied = Applied(outcome: Outcome, branch: Option<Branch>)

  /** The marks `ours` looks for in a commit's message. */
  predicate Marked(c: Commit, campaign: string) {
    c.Child? && Contains(c.message, CampaignMark(campaign)) && Contains(c.message, VERIFIED)
  }

  /** `ours`: the commit can be read and carries the marks. */
  predicate IsOurs(c: Commit, e: Edit, unreadable: set<Commit>) {
    c !in unreadable && Marked(c, e.campaign)
  }

  predicate SitsOn(c: Commit, base: Commit) {
    c.Child? && c.parent == base
  }

  // ---- reading the remote ----

  /** What git answers while the remote is read; the remote's heads may differ at each command. */
  datatype Reading = Reading(
    head: Option<Commit>,
    symref: bool,
    defaultBranch: Option<Branch>,
    atDefault: Heads,
    fetchesDefault: bool,
    parsesDefault: bool,
    lists: bool,
    atList: Heads,
    fetches: bool,
    atFetch: Heads)

  datatype Remote = Remote(base: Commit, listed: Option<Commit>)

  predicate HasDefault(r: Reading) {
    r.defaultBranch.Some? && r.fetchesDefault && r.defaultBranch.value in r.atDefault
  }

  function TrackDefault(tracking: Heads, r: Reading): Heads {
    if HasDefault(r) then tracking[r.defaultBranch.value := r.atDefault[r.defaultBranch.value]] else tracking
  }

  /** The refs `base_and_remote` leaves behind. A branch absent from the remote keeps whatever
      tracking ref it had. */
  function TrackRemote(tracking: Heads, b: Branch, publishing: bool, r: Reading): Heads {
    if r.head.None? || !publishing || !r.symref then tracking
    else
      var t := TrackDefault(tracking, r);
      if (HasDefault(r) && !r.parsesDefault) || !r.lists || b !in r.atList || !r.fetches || b !in r.atFetch then t
      else t[b := r.atFetch[b]]
  }

  /** `base_and_remote`: the commit to build on, and the branch's head as `ls-remote` lists it. */
  function ReadRemote(b: Branch, publishing: bool, r: Reading): Option<Remote> {
    if r.head.None? then None
    else if !publishing then Some(Remote(r.head.value, None))
    else if !r.symref then None
    else if HasDefault(r) && !r.parsesDefault then None
    else
      var base := if HasDefault(r) then r.atDefault[r.defaultBranch.value] else r.head.value;
      if !r.lists then None
      else if b !in r.atList then Some(Remote(base, None))
      else if !r.fetches || b !in r.atFetch then None
      else Some(Remote(base, Some(r.atList[b])))
  }

  // ---- applying one edit ----

  /** Everything outside answers while one edit is applied. */
  datatype Answers = Answers(
    top: bool,
    reading: Reading,
    unreadable: set<Commit>,
    forces: bool,
    worktree: bool,
    before: Option<Scanned>,
    changed: Option<string>,
    clean: bool,
    after: Option<Scanned>,
    committed: Option<nat>)

  function Current(local: Heads, b: Branch, listed: Option<Commit>): Option<Commit> {
    if listed.Some? then listed else Lookup(local, b)
  }

  predicate Passes(e: Edit, a: Answers) {
    a.before.Some? && a.after.Some? && Verify(e, a.before.value, a.after.value).Ok?
  }

  const STOPPED := Applied(NotApplied, None)

  /** `apply_one`, once the base and the branch's remote head are read. */
  function Build(refs: Refs, e: Edit, remote: Remote, a: Answers): (Refs, Applied) {
    var b := BranchName(e);
    var current := Current(refs.local, b, remote.listed);
    if remote.listed.Some? && !IsOurs(remote.listed.value, e, a.unreadable) then
      (refs, Applied(Skipped, None))
    else if current.Some? && SitsOn(current.value, remote.base) && IsOurs(current.value, e, a.unreadable) then
      if !a.forces then (refs, STOPPED)
      else (refs.(local := refs.local[b := current.value]), Applied(Verified, Some(b)))
    else if !a.worktree || a.before.None? || a.changed.None? || a.clean || a.committed.None? then
      (refs, STOPPED)
    else
      var verified := Passes(e, a);
      var commit := Child(remote.base, Message(e, a.changed.value, verified), a.committed.value);
      var target := if verified then b else UnverifiedName(e);
      var passed := if verified then refs.passed + {(commit, e.campaign)} else refs.passed;
      if !a.forces then (refs.(passed := passed), STOPPED)
      else (refs.(local := refs.local[target := commit], passed := passed),
            Applied(if verified then Verified else Unverified, Some(target)))
  }

  function ApplyOne(refs: Refs, e: Edit, publishing: bool, a: Answers): (Refs, Applied) {
    if !a.top then (refs, STOPPED)
    else
      var b := BranchName(e);
      var read := refs.(tracking := TrackRemote(refs.tracking, b, publishing, a.reading));
      var remote := ReadRemote(b, publishing, a.reading);
      if remote.None? then (read, STOPPED) else Build(read, e, remote.value, a)
  }

  // ---- publishing ----

  /** What is pushed: the branch's new remote head, and the one it replaced. */
  datatype Push = Push(branch: Branch, commit: Commit, replaced: Option<Commit>)

  /** `publish`: a force push pinned to the tracking ref. It goes through only while the remote's
      head is the pinned one. */
  function PushOf(refs: Refs, applied: Applied, reaches: bool, atPush: Heads): Option<Push> {
    if applied.branch.None? || !OursBranch(applied.branch.value) || !reaches then None
    else
      var b := applied.branch.value;
      var lease := Lookup(refs.tracking, b);
      if b !in refs.local || Lookup(atPush, b) != lease then None
      else Some(Push(b, refs.local[b], lease))
  }

  function AfterPush(refs: Refs, push: Option<Push>): Refs {
    if push.None? then refs else refs.(tracking := refs.tracking[push.value.branch := push.value.commit])
  }

  class Clone {
    var local: Heads
    var tracking: Heads
    var passed: set<(Commit, string)>

    function View(): Refs
      reads this
    {
      Refs(local, tracking, passed)
    }

    /** `base_and_remote`, a command at a time. */
    method BaseAndRemote(b: Branch, publishing: bool, r: Reading) returns (found: Option<Remote>)
      modifies this`tracking
      ensures tracking == TrackRemote(old(tracking), b, publishing, r)
      ensures found == ReadRemote(b, publishing, r)
    {
      if r.head.None? {
        return None;
      }
      if !publishing {
        return Some(Remote(r.head.value, None));
      }
      if !r.symref {
        return None;
      }
      var base := r.head.value;
      if r.defaultBranch.Some? {
        var name := r.defaultBranch.value;
        if r.fetchesDefault && name in r.atDefault {
          tracking := tracking[name := r.atDefault[name]];
          if !r.parsesDefault {
            return None;
          }
          base := tracking[name];
        }
      }
      if !r.lists {
        return None;
      }
      if b !in r.atList {
        return Some(Remote(base, None));
      }
      if !r.fetches || b !in r.atFetch {
        return None;
      }
      tracking := tracking[b := r.atFetch[b]];
      return Some(Remote(base, Some(r.atList[b])));
    }

    /** `apply_one`, a command at a time. */
    method Apply(e: Edit, publishing: bool, a: Answers) returns (out: Applied)
      modifies this
      ensures (View(), out) == ApplyOne(old(View()), e, publishing, a)
    {
      hide Message, Contains, Verify, BranchName, UnverifiedName, TrackRemote, ReadRemote, Marked;
      out := STOPPED;
      if !a.top {
        return;
      }
      var branch := BranchName(e);
      var found := BaseAndRemote(branch, publishing, a.reading);
      if found.None? {
        return;
      }
      var base, listed := found.value.base, found.value.listed;
      if listed.Some? && !IsOurs(listed.value, e, a.unreadable) {
        out := out.(outcome := Skipped);
        return;
      }
      var current := if listed.Some? then listed else if branch in local then Some(local[branch]) else None;
      if current.Some? && SitsOn(current.value, base) && IsOurs(current.value, e, a.unreadable) {
        if a.forces {
          local := local[branch := current.value];
          out := Applied(Verified, Some(branch));
        }
        return;
      }
      if !a.worktree || a.before.None? || a.changed.None? || a.clean {
        return;
      }
      var verified := a.after.Some? && Verify(e, a.before.value, a.after.value).Ok?;
      if a.committed.None? {
        return;
      }
      var commit := Child(base, Message(e, a.changed.value, verified), a.committed.value);
      if verified {
        passed := passed + {(commit, e.campaign)};
      }
      var target := if verified then branch else UnverifiedName(e);
      if !a.forces {
        return;
      }
      local := local[target := commit];
      out := Applied(if verified then Verified else Unverified, Some(target));
    }

    /** `publish`: pushes a branch `apply_one` left verified. */
    method Publish(applied: Applied, reaches: bool, atPush: Heads) returns (push: Option<Push>, heads: Heads)
      modifies this`tracking
      ensures push == PushOf(old(View()), applied, reaches, atPush)
      ensures View() == AfterPush(old(View()), push)
      ensures heads == if push.None? then atPush else atPush[push.value.branch := push.value.commit]
    {
      push, heads := None, atPush;
      if applied.branch.None? || !OursBranch(applied.branch.value) {
        return;
      }
      var b := applied.branch.value;
      var lease := if b in tracking then Some(tracking[b]) else None;
      var at := if b in atPush then Some(atPush[b]) else None;
      if !reaches || b !in local || at != lease {
        return;
      }
      push := Some(Push(b, local[b], lease));
      heads := atPush[b := local[b]];
      tracking := tracking[b := local[b]];
    }
  }

  // ---- one edit: which branches move, and where ----

  lemma MessagesAreMarked(e: Edit, base: Commit, changed: string, tree: nat)
    ensures Marked(Child(base, Message(e, changed, true), tree), e.campaign)
  {
    VerifiedMessageCarriesItsMarks(e, changed);
  }

  /** Only a verified outcome moves a `fleetreach/` branch: the edit's own, to a commit marked
      verified for its campaign that sits directly on the base just read. */
  lemma OnlyVerifiedMoves(refs: Refs, e: Edit, publishing: bool, a: Answers, b: Branch)
    requires OursBranch(b)
    ensures var (after, out) := ApplyOne(refs, e, publishing, a);
      && (Lookup(after.local, b) != Lookup(refs.local, b) ==> b == BranchName(e) && out.outcome == Verified)
      && (out.outcome == Verified ==>
           && out.branch == Some(BranchName(e))
           && BranchName(e) in after.local
           && Marked(after.local[BranchName(e)], e.campaign)
           && ReadRemote(BranchName(e), publishing, a.reading).Some?
           && SitsOn(after.local[BranchName(e)], ReadRemote(BranchName(e), publishing, a.reading).value.base))
  {
    hide Message, Contains, Verify, BranchName, UnverifiedName;
    NamesApart(e, e);
    if a.changed.Some? && a.committed.Some? && ReadRemote(BranchName(e), publishing, a.reading).Some? {
      var base := ReadRemote(BranchName(e), publishing, a.reading).value.base;
      MessagesAreMarked(e, base, a.changed.value, a.committed.value);
    }
  }

  // ---- one edit: when it moves ----

  /** The remote is read: publishing, the base is the remote's default head, or `HEAD` when that cannot be fetched,
      and `listed` is the branch's own head there. Otherwise the base is `HEAD`, and nothing is listed. */
  ghost predicate ReadsAll(r: Reading, b: Branch, publishing: bool, base: Commit, listed: Option<Commit>) {
    if publishing then
      && r.head.Some? && r.symref && r.lists
      && (if r.defaultBranch.Some? && r.fetchesDefault && r.defaultBranch.value in r.atDefault
          then r.parsesDefault && base == r.atDefault[r.defaultBranch.value]
          else base == r.head.value)
      && listed == Lookup(r.atList, b) && (listed.Some? ==> r.fetches && b in r.atFetch)
    else
      r.head == Some(base) && listed == None
  }

  lemma ReadingAllGives(r: Reading, b: Branch, publishing: bool, base: Commit, listed: Option<Commit>)
    requires ReadsAll(r, b, publishing, base, listed)
    ensures ReadRemote(b, publishing, r) == Some(Remote(base, listed))
  {
  }

  /** A commit that can be read, with both marks in its message. */
  ghost predicate CarriesMarks(c: Commit, campaign: string, unreadable: set<Commit>) {
    && c !in unreadable && c.Child?
    && Contains(c.message, "campaign " + campaign) && Contains(c.message, "Verified by a fleetreach re-scan")
  }

  /** The edit has work to do: nobody else's head is on its branch, and no head of its own sits on the base already. */
  ghost predicate HasWork(refs: Refs, e: Edit, base: Commit, listed: Option<Commit>, unreadable: set<Commit>) {
    var current := if listed.Some? then listed else Lookup(refs.local, BranchName(e));
    && (listed.Some? ==> CarriesMarks(listed.value, e.campaign, unreadable))
    && (current.Some? && CarriesMarks(current.value, e.campaign, unreadable) ==> current.value.parent != base)
  }

  /** When every command succeeds and the edit has work to do, an update that changed nothing leaves the branches
      alone. Any other is committed on the base: on the edit's own branch when the re-scan verifies it, and on the
      unverified branch of its name when it does not. */
  lemma ChangedEditsMove(refs: Refs, e: Edit, publishing: bool, a: Answers, base: Commit, listed: Option<Commit>)
    requires a.top && ReadsAll(a.reading, BranchName(e), publishing, base, listed)
    requires HasWork(refs, e, base, listed, a.unreadable)
    requires a.worktree && a.before.Some? && a.changed.Some? && a.committed.Some? && a.forces
    ensures var (after, out) := ApplyOne(refs, e, publishing, a);
      var verified := a.after.Some? && Verify(e, a.before.value, a.after.value).Ok?;
      var commit := Child(base, Message(e, a.changed.value, verified), a.committed.value);
      if a.clean then
        out == Applied(NotApplied, None) && after.local == refs.local && after.passed == refs.passed
      else if verified then
        && out == Applied(Verified, Some(BranchName(e))) && after.local == refs.local[BranchName(e) := commit]
        && after.passed == refs.passed + {(commit, e.campaign)}
      else
        && out == Applied(Unverified, Some(UnverifiedName(e)))
        && after.local == refs.local[UnverifiedName(e) := commit] && after.passed == refs.passed
  {
    hide Message, Contains, Verify, BranchName, UnverifiedName, ReadRemote, TrackRemote, ReadsAll;
    ReadingAllGives(a.reading, BranchName(e), publishing, base, listed);
  }

  /** With no work to do nothing is built: a head of somebody else's is skipped, and one of our own that already
      sits on the base is where the local branch ends. */
  lemma SettledEditsStay(refs: Refs, e: Edit, publishing: bool, a: Answers, base: Commit, listed: Option<Commit>)
    requires a.top && ReadsAll(a.reading, BranchName(e), publishing, base, listed)
    requires !HasWork(refs, e, base, listed, a.unreadable) && a.forces
    ensures var (after, out) := ApplyOne(refs, e, publishing, a);
      var current := if listed.Some? then listed else Lookup(refs.local, BranchName(e));
      && after.passed == refs.passed
      && current.Some?
      && if CarriesMarks(current.value, e.campaign, a.unreadable) then
           && out == Applied(Verified, Some(BranchName(e)))
           && after.local == refs.local[BranchName(e) := current.value]
         else
           listed.Some? && out == Applied(Skipped, None) && after.local == refs.local
  {
    hide Message, Contains, Verify, BranchName, UnverifiedName, ReadRemote, TrackRemote, ReadsAll;
    ReadingAllGives(a.reading, BranchName(e), publishing, base, listed);
  }

  /** A command that fails before the commit leaves the local branches and what has passed as they were. */
  lemma FailuresMoveNothing(refs: Refs, e: Edit, publishing: bool, a: Answers, base: Commit, listed: Option<Commit>)
    requires !a.top || (ReadsAll(a.reading, BranchName(e), publishing, base, listed)
                        && HasWork(refs, e, base, listed, a.unreadable)
                        && (!a.worktree || a.before.None? || a.changed.None? || a.committed.None?))
    ensures var (after, out) := ApplyOne(refs, e, publishing, a);
      out == Applied(NotApplied, None) && after.local == refs.local && after.passed == refs.passed
  {
    hide Message, Contains, Verify, BranchName, UnverifiedName, ReadRemote, TrackRemote, ReadsAll;
    if a.top {
      ReadingAllGives(a.reading, BranchName(e), publishing, base, listed);
    }
  }

  /** A branch already verified on the current base is left exactly as it is. */
  lemma RerunLeavesItAlone(refs: Refs, e: Edit, publishing: bool, a: Answers, again: Answers)
    requires ApplyOne(refs, e, publishing, a).1.outcome == Verified
    requires var b := BranchName(e);
      var c := ApplyOne(refs, e, publishing, a).0.local[b];
      var remote := ReadRemote(b, publishing, again.reading);
      && again.top && again.forces && c !in again.unreadable
      && remote.Some? && remote.value.listed in {None, Some(c)}
      && remote.value.base == ReadRemote(b, publishing, a.reading).value.base
    ensures var after := ApplyOne(refs, e, publishing, a).0;
      ApplyOne(after, e, publishing, again).1 == Applied(Verified, Some(BranchName(e))) &&
      ApplyOne(after, e, publishing, again).0.local == after.local
  {
    hide Message, Contains, Verify, BranchName, UnverifiedName, Build, TrackRemote, ReadRemote, SitsOn, Marked;
    NamesApart(e, e);
    OnlyVerifiedMoves(refs, e, publishing, a, BranchName(e));
    var after := ApplyOne(refs, e, publishing, a).0;
    var b := BranchName(e);
    var read := after.(tracking := TrackRemote(after.tracking, b, publishing, again.reading));
    SettledStays(read, e, ReadRemote(b, publishing, again.reading).value, again);
  }

  lemma SettledStays(refs: Refs, e: Edit, remote: Remote, a: Answers)
    requires BranchName(e) in refs.local
    requires var c := refs.local[BranchName(e)];
      && Marked(c, e.campaign) && SitsOn(c, remote.base)
      && a.forces && c !in a.unreadable && remote.listed in {None, Some(c)}
    ensures Build(refs, e, remote, a).1 == Applied(Verified, Some(BranchName(e)))
    ensures Build(refs, e, remote, a).0.local == refs.local
  {
    hide Message, Contains, Verify, BranchName, UnverifiedName, SitsOn, Marked;
    var b := BranchName(e);
    assert refs.local[b := refs.local[b]] == refs.local;
  }

  // ---- pushing: whose work can be replaced ----

  /** The tracking ref the push is pinned to is the head that was listed, and so the one judged ours. */
  predicate ReadConsistently(refs: Refs, e: Edit, publishing: bool, r: Reading) {
    var b := BranchName(e);
    var remote := ReadRemote(b, publishing, r);
    remote.Some? && Lookup(TrackRemote(refs.tracking, b, publishing, r), b) == remote.value.listed
  }

  /** What a push after a verified edit may replace: nothing, or the head listed in this run, ours. */
  ghost predicate RespectsOthers(push: Push, e: Edit, r: Reading) {
    var b := BranchName(e);
    push.branch == b && Marked(push.commit, e.campaign) &&
    push.replaced == Lookup(r.atList, b) && (push.replaced.Some? ==> Marked(push.replaced.value, e.campaign))
  }

  /** Once applied and verified, the push respects other people's work in every environment exactly
      when the remote was read consistently: nobody pushed between the listing and the fetch, and a
      branch absent from the remote left no tracking ref behind. */
  lemma PushRespectsOthersIff(refs: Refs, e: Edit, a: Answers)
    requires ApplyOne(refs, e, true, a).1.outcome == Verified
    ensures var (after, out) := ApplyOne(refs, e, true, a);
      (forall reaches, atPush ::
        var push := PushOf(after, out, reaches, atPush);
        push.Some? ==> RespectsOthers(push.value, e, a.reading))
      <==> ReadConsistently(refs, e, true, a.reading)
  {
    var (after, out) := ApplyOne(refs, e, true, a);
    var b := BranchName(e);
    OnlyVerifiedMoves(refs, e, true, a, b);
    NamesApart(e, e);
    hide Message, Contains, Verify, BranchName, UnverifiedName;
    assert after.tracking == TrackRemote(refs.tracking, b, true, a.reading);
    if ReadConsistently(refs, e, true, a.reading) {
      forall reaches, atPush | PushOf(after, out, reaches, atPush).Some?
        ensures RespectsOthers(PushOf(after, out, reaches, atPush).value, e, a.reading)
      {
      }
    } else {
      // The environment that keeps the remote at the pinned head lets the push through.
      var pinned := Lookup(after.tracking, b);
      var atPush: Heads := if pinned.Some? then map[b := pinned.value] else map[];
      assert PushOf(after, out, true, atPush) == Some(Push(b, after.local[b], pinned));
      assert !RespectsOthers(PushOf(after, out, true, atPush).value, e, a.reading);
    }
  }

  /** A verified edit of a publishing run is pushed exactly when the push gets through and the remote's head is the
      one fetched, or, for a branch the remote does not list, the one the clone last knew. */
  lemma VerifiedEditsArePushedIff(refs: Refs, e: Edit, a: Answers, base: Commit, listed: Option<Commit>,
                                  reaches: bool, atPush: Heads)
    requires ApplyOne(refs, e, true, a).1.outcome == Verified
    requires ReadsAll(a.reading, BranchName(e), true, base, listed)
    requires a.reading.defaultBranch != Some(BranchName(e))
    ensures var (after, out) := ApplyOne(refs, e, true, a);
      var b := BranchName(e);
      var known := if listed.Some? then Some(a.reading.atFetch[b]) else Lookup(refs.tracking, b);
      && b in after.local
      && PushOf(after, out, reaches, atPush) ==
         if reaches && Lookup(atPush, b) == known then Some(Push(b, after.local[b], known)) else None
  {
    OnlyVerifiedMoves(refs, e, true, a, BranchName(e));
    NamesApart(e, e);
    hide Message, Contains, Verify, BranchName, UnverifiedName, Marked;
  }

  /** Listing and fetching as one read, with no stale tracking ref, is consistent. */
  lemma AtomicReadIsConsistent(refs: Refs, e: Edit, r: Reading)
    requires ReadRemote(BranchName(e), true, r).Some?
    requires Lookup(r.atFetch, BranchName(e)) == Lookup(r.atList, BranchName(e))
    requires BranchName(e) !in r.atList ==> BranchName(e) !in TrackDefault(refs.tracking, r)
    ensures ReadConsistently(refs, e, true, r)
  {
    hide BranchName;
  }

  // ---- over all runs ----

  /** One edit applied and, when it verifies and the run publishes, pushed. */
  datatype Turn = Turn(edit: Edit, publishing: bool, answers: Answers, reaches: bool, atPush: Heads)

  function AfterTurn(refs: Refs, t: Turn): Refs {
    var (after, out) := ApplyOne(refs, t.edit, t.publishing, t.answers);
    if out.outcome == Verified && t.publishing then AfterPush(after, PushOf(after, out, t.reaches, t.atPush)) else after
  }

  /** A turn of a run that does not publish leaves the tracking refs alone, and one whose push goes through ends with
      the tracking ref at the local branch. */
  lemma TurnsPublish(refs: Refs, t: Turn, base: Commit, listed: Option<Commit>)
    requires ReadsAll(t.answers.reading, BranchName(t.edit), t.publishing, base, listed)
    ensures var out := ApplyOne(refs, t.edit, t.publishing, t.answers).1;
      var (after, b) := (AfterTurn(refs, t), BranchName(t.edit));
      && (!t.publishing ==> after.tracking == refs.tracking)
      && (t.publishing && out.outcome == Verified && t.reaches && Lookup(t.atPush, b) == listed && listed.Some?
          && t.answers.reading.atFetch[b] == listed.value && t.answers.reading.defaultBranch != Some(b) ==>
           b in after.local && Lookup(after.tracking, b) == Some(after.local[b]))
  {
    if ApplyOne(refs, t.edit, t.publishing, t.answers).1.outcome == Verified && t.publishing
       && t.answers.reading.defaultBranch != Some(BranchName(t.edit)) {
      VerifiedEditsArePushedIff(refs, t.edit, t.answers, base, listed, t.reaches, t.atPush);
    }
    hide Message, Contains, Verify, BranchName, UnverifiedName, Marked;
  }

  function AfterTurns(refs: Refs, turns: seq<Turn>): Refs {
    if turns == [] then refs else AfterTurn(AfterTurns(refs, turns[..|turns| - 1]), turns[|turns| - 1])
  }

  /** Turn `i` ended verified, with the branch, its own, at that commit. */
  ghost predicate VerifiedBy(refs: Refs, turns: seq<Turn>, i: nat, b: Branch, c: Commit) {
    && i < |turns| && BranchName(turns[i].edit) == b && Marked(c, turns[i].edit.campaign)
    && var (after, out) := ApplyOne(AfterTurns(refs, turns[..i]), turns[i].edit, turns[i].publishing, turns[i].answers);
       out.outcome == Verified && Lookup(after.local, b) == Some(c)
  }

  lemma VerifiedByOneMore(refs: Refs, turns: seq<Turn>, t: Turn, i: nat, b: Branch, c: Commit)
    requires VerifiedBy(refs, turns, i, b, c)
    ensures VerifiedBy(refs, turns + [t], i, b, c)
  {
    assert (turns + [t])[..i] == turns[..i];
  }

  lemma LocalAfterTurn(refs: Refs, t: Turn)
    ensures AfterTurn(refs, t).local == ApplyOne(refs, t.edit, t.publishing, t.answers).0.local
  {
    hide ApplyOne, PushOf;
  }

  lemma MovedIsVerified(refs: Refs, turns: seq<Turn>, b: Branch)
    requires turns != [] && OursBranch(b)
    requires Lookup(AfterTurns(refs, turns).local, b) != Lookup(AfterTurns(refs, turns[..|turns| - 1]).local, b)
    ensures var now := Lookup(AfterTurns(refs, turns).local, b);
      now.Some? && VerifiedBy(refs, turns, |turns| - 1, b, now.value)
  {
    hide ApplyOne, Marked, AfterTurn, BranchName, OursBranch;
    var init, t := turns[..|turns| - 1], turns[|turns| - 1];
    LocalAfterTurn(AfterTurns(refs, init), t);
    OnlyVerifiedMoves(AfterTurns(refs, init), t.edit, t.publishing, t.answers, b);
  }

  /** Over every run, whoever pushes in between: a `fleetreach/` branch is where it started, or at a commit
      some turn of its name verified and left it at. */
  lemma {:induction false} BranchesEndVerified(refs: Refs, turns: seq<Turn>, b: Branch)
    requires OursBranch(b)
    ensures var now := Lookup(AfterTurns(refs, turns).local, b);
      now == Lookup(refs.local, b) || (now.Some? && exists i: nat :: VerifiedBy(refs, turns, i, b, now.value))
  {
    hide AfterTurns, VerifiedBy, OursBranch;
    if turns == [] {
      NoTurns(refs);
    } else {
      var init, t := turns[..|turns| - 1], turns[|turns| - 1];
      BranchesEndVerified(refs, init, b);
      var was, now := Lookup(AfterTurns(refs, init).local, b), Lookup(AfterTurns(refs, turns).local, b);
      if now != was {
        MovedIsVerified(refs, turns, b);
      } else if now != Lookup(refs.local, b) {
        var i: nat :| VerifiedBy(refs, init, i, b, was.value);
        assert turns == init + [t];
        VerifiedByOneMore(refs, init, t, i, b, was.value);
      }
    }
  }

  lemma NoTurns(refs: Refs)
    ensures AfterTurns(refs, []) == refs
  {
  }

  /** A campaign id is hexadecimal: it holds no slash. */
  predicate PlainCampaign(e: Edit) {
    '/' !in e.campaign
  }

  /** Every local branch marked verified for the campaign it is named after passed a re-scan: one of this
      clone's own, or one of `elsewhere`, what fleetreach verified in other clones. */
  ghost predicate Sound(refs: Refs, elsewhere: set<(Commit, string)>) {
    forall e: Edit | PlainCampaign(e) && BranchName(e) in refs.local ::
      SoundHead(refs.local[BranchName(e)], e.campaign, refs.passed + elsewhere)
  }

  ghost predicate SoundHead(c: Commit, campaign: string, passed: set<(Commit, string)>) {
    Marked(c, campaign) ==> (c, campaign) in passed
  }

  /** Nobody forges the marks: a head the turn lists on its branch that carries them passed a re-scan. */
  ghost predicate HonestListing(refs: Refs, t: Turn, elsewhere: set<(Commit, string)>) {
    BranchName(t.edit) in t.answers.reading.atList ==>
      SoundHead(t.answers.reading.atList[BranchName(t.edit)], t.edit.campaign, refs.passed + elsewhere)
  }

  /** Each turn of the run, at its time. */
  ghost predicate HonestTurns(refs: Refs, turns: seq<Turn>, elsewhere: set<(Commit, string)>) {
    forall i | 0 <= i < |turns| ::
      PlainCampaign(turns[i].edit) && HonestListing(AfterTurns(refs, turns[..i]), turns[i], elsewhere)
  }

  /** What one turn does to the local branches: the edit's own ends at a commit that passed if it is marked,
      and no other but the unverified one of that name moves. */
  lemma TurnMoves(refs: Refs, t: Turn, elsewhere: set<(Commit, string)>)
    requires Sound(refs, elsewhere) && PlainCampaign(t.edit) && HonestListing(refs, t, elsewhere)
    ensures var after := AfterTurn(refs, t);
      && refs.passed <= after.passed
      && (forall x | x != BranchName(t.edit) && x != UnverifiedName(t.edit) ::
           Lookup(after.local, x) == Lookup(refs.local, x))
      && (BranchName(t.edit) in after.local ==>
           SoundHead(after.local[BranchName(t.edit)], t.edit.campaign, after.passed + elsewhere))
  {
    hide Message, Contains, Verify, BranchName, UnverifiedName, Marked;
    NamesApart(t.edit, t.edit);
    var b := BranchName(t.edit);
    assert b in refs.local ==> SoundHead(refs.local[b], t.edit.campaign, refs.passed + elsewhere);
  }

  lemma TurnKeepsSound(refs: Refs, t: Turn, elsewhere: set<(Commit, string)>)
    requires Sound(refs, elsewhere) && PlainCampaign(t.edit) && HonestListing(refs, t, elsewhere)
    ensures Sound(AfterTurn(refs, t), elsewhere)
  {
    TurnMoves(refs, t, elsewhere);
    hide AfterTurn, Marked, BranchName, UnverifiedName;
    var after := AfterTurn(refs, t);
    forall e: Edit | PlainCampaign(e) && BranchName(e) in after.local
      ensures SoundHead(after.local[BranchName(e)], e.campaign, after.passed + elsewhere)
    {
      NamesApart(t.edit, e);
      if BranchName(e) == BranchName(t.edit) {
        BranchTellsCampaign(e, t.edit);
      } else {
        assert Lookup(after.local, BranchName(e)) == Lookup(refs.local, BranchName(e));
        assert SoundHead(refs.local[BranchName(e)], e.campaign, refs.passed + elsewhere);
      }
    }
  }

  /** Over every run, with each listed head honest at its time: every branch marked verified for its campaign
      is at a commit whose own re-scan passed, however many edits share the clone. */
  lemma {:induction false} VerifiedBranchesPassed(refs: Refs, turns: seq<Turn>, elsewhere: set<(Commit, string)>)
    requires Sound(refs, elsewhere) && HonestTurns(refs, turns, elsewhere)
    ensures Sound(AfterTurns(refs, turns), elsewhere)
  {
    hide Sound, AfterTurn, HonestListing;
    if turns != [] {
      var init, t := turns[..|turns| - 1], turns[|turns| - 1];
      assert forall i | 0 <= i < |init| :: init[i] == turns[i] && init[..i] == turns[..i];
      VerifiedBranchesPassed(refs, init, elsewhere);
      assert turns[..|turns| - 1] == init;
      TurnKeepsSound(AfterTurns(refs, init), t, elsewhere);
    }
  }

  /** So what a turn verified, and no later turn moved, passed: the branch holds verified work only. */
  lemma MovedBranchesPassed(refs: Refs, turns: seq<Turn>, elsewhere: set<(Commit, string)>, e: Edit)
    requires Sound(refs, elsewhere) && HonestTurns(refs, turns, elsewhere) && PlainCampaign(e)
    ensures var (b, now) := (BranchName(e), AfterTurns(refs, turns));
      Lookup(now.local, b) == Lookup(refs.local, b)
      || (b in now.local && (now.local[b], e.campaign) in now.passed + elsewhere)
  {
    var (b, now) := (BranchName(e), AfterTurns(refs, turns));
    NamesApart(e, e);
    BranchesEndVerified(refs, turns, b);
    VerifiedBranchesPassed(refs, turns, elsewhere);
    if Lookup(now.local, b) != Lookup(refs.local, b) {
      var i: nat :| VerifiedBy(refs, turns, i, b, now.local[b]);
      BranchTellsCampaign(turns[i].edit, e);
      hide AfterTurns, Marked, BranchName, ApplyOne;
      assert SoundHead(now.local[b], e.campaign, now.passed + elsewhere);
    }
  }
}
