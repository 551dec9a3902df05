/** What the newest run does to one entry, in terms of what that run's own report holds. */
module HistoryNewestRun {
  import opened Wrappers
  import opened Severities
  import opened History
  import opened HistoryLaws

  // ---- what a report holds of a finding ----

  /** The finding names the advisory, and a vulnerable installed version of the package in the repo. */
  predicate Sights(f: Finding, k: Key) {
    && f.advisory == k.advisory && f.ecosystem == k.ecosystem
    && InRepo(k.repo, k.package, k.version, true) in f.occurrences
  }

  predicate Sighted(s: Snapshot, k: Key) {
    exists f :: f in s.report.findings && Sights(f, k)
  }

  /** A decision on the finding came out as `outcome`. */
  predicate Decides(s: Snapshot, k: Key, outcome: Decided) {
    Decision(k.advisory, k.repo, k.package, k.version, outcome) in s.report.decisions
  }

  /** The run read the repo in full: it did not exit 2, scanned the repo, and lists no gap in it. */
  predicate ReadInFull(s: Snapshot, repo: string) {
    s.run.exitCode != 2 && RepoOutcome(repo, Scanned) in s.report.outcomes && repo !in s.report.coverage
  }

  lemma SightedIsSeen(s: Snapshot, k: Key)
    ensures k in SeenKeys(s.report.findings) <==> Sighted(s, k)
    ensures forall f :: k in FindingKeys(f) <==> Sights(f, k)
  {
    forall f
      ensures k in FindingKeys(f) <==> Sights(f, k)
    {
      if k in FindingKeys(f) {
        var occ :| occ in f.occurrences && occ.InRepo? && occ.vulnerable && KeyOf(f, occ) == k;
        assert occ == InRepo(k.repo, k.package, k.version, true);
      }
    }
  }

  lemma ReadInFullIsTrusted(s: Snapshot, k: Key)
    ensures Trusts(s, k) <==> ReadInFull(s, k.repo)
  {
    if Trusts(s, k) {
      var o :| o in s.report.outcomes && o.status.Scanned? && o.repo !in s.report.coverage && o.repo == k.repo;
      assert o == RepoOutcome(k.repo, Scanned);
    }
  }

  // ---- the rating and the owner ----

  lemma {:induction false} UrgencyIs(decisions: seq<Decision>, k: Key, o: Decided)
    ensures Urgency(decisions, k) == Some(o) <==>
      && Decision(k.advisory, k.repo, k.package, k.version, o) in decisions
      && forall d | d in decisions && Concerns(d, k) :: d.outcome.Rank() <= o.Rank()
    ensures Urgency(decisions, k) == None <==> forall d | d in decisions :: !Concerns(d, k)
  {
    if decisions != [] {
      var init, last := decisions[..|decisions| - 1], decisions[|decisions| - 1];
      assert decisions == init + [last];
      UrgencyIs(init, k, o);
      if Urgency(init, k).Some? {
        UrgencyIs(init, k, Urgency(init, k).value);
      }
      UrgencyIs(init, k, last.outcome);
      assert Concerns(last, k) ==> last == Decision(k.advisory, k.repo, k.package, k.version, last.outcome);
    }
  }

  lemma {:induction false} LastSeverityIs(findings: seq<Finding>, k: Key, i: nat)
    requires i < |findings| && k in FindingKeys(findings[i])
    requires forall j | i < j < |findings| :: k !in FindingKeys(findings[j])
    ensures LastSeverity(findings, k) == findings[i].severity
  {
    if i < |findings| - 1 {
      LastSeverityIs(findings[..|findings| - 1], k, i);
    }
  }

  lemma {:induction false} OwnerIs(contexts: seq<Context>, repo: string, i: nat)
    requires i < |contexts| && contexts[i].repo == repo && contexts[i].owner.Some?
    requires forall j | i < j < |contexts| :: contexts[j].repo == repo ==> contexts[j].owner.None?
    ensures OwnerOf(contexts, repo) == contexts[i].owner
  {
    if i < |contexts| - 1 {
      OwnerIs(contexts[..|contexts| - 1], repo, i);
    }
  }

  lemma {:induction false} NoOwner(contexts: seq<Context>, repo: string)
    requires forall c | c in contexts :: c.repo == repo ==> c.owner.None?
    ensures OwnerOf(contexts, repo) == None
  {
    if contexts != [] {
      NoOwner(contexts[..|contexts| - 1], repo);
    }
  }

  // ---- the newest run ----

  function EntryOf(runs: seq<Snapshot>, k: Key): Option<Entry> {
    Lookup(FoldAll(runs).entries, k)
  }

  /** One more run, for one finding. */
  lemma NewestStep(before: seq<Snapshot>, s: Snapshot, k: Key)
    ensures EntryOf(before + [s], k) == EntryAfter(EntryOf(before, k), s, k)
  {
    hide EntryAfter, FoldAll;
    var runs := before + [s];
    assert runs[..|runs| - 1] == before;
    FoldAllAt(runs, k);
    FoldAllAt(before, k);
  }

  /** Fail closed: a finding the newest run neither has nor ignores is fixed at that run only when the run read the
      finding's repo in full. After exit 2, with a gap in the repo or with no scan of it, nothing changes. */
  lemma FixedOnlyByAFullRead(before: seq<Snapshot>, s: Snapshot, k: Key)
    requires !Sighted(s, k) && k !in s.suppressed
    ensures var (prior, after) := (EntryOf(before, k), EntryOf(before + [s], k));
      if ReadInFull(s, k.repo) && prior.Some? && prior.value.status != Fixed then
        after == Some(prior.value.(status := Fixed, fixedAt := Some(s.run.at)))
      else
        after == prior
  {
    hide FoldAll, SeenKeys, Trustworthy;
    NewestStep(before, s, k);
    SightedIsSeen(s, k);
    ReadInFullIsTrusted(s, k);
  }

  /** A finding the newest run has is open, or ignored when the run ignores it too; one it only ignores is ignored.
      Either way it was last seen at that run, and coming back from fixed counts one reopening. */
  lemma SeenAgain(before: seq<Snapshot>, s: Snapshot, k: Key)
    requires Sighted(s, k) || k in s.suppressed
    ensures var (prior, after) := (EntryOf(before, k), EntryOf(before + [s], k));
      && after.Some?
      && after.value.status == (if k in s.suppressed then Ignored else Open)
      && after.value.lastSeen == s.run.at
      && (prior.None? ==>
           after.value.firstSeen == s.run.at && after.value.fixedAt == None && after.value.reopened == 0)
      && (prior.Some? && prior.value.status == Fixed ==>
           && after.value.firstSeen == prior.value.firstSeen
           && after.value.fixedAt == None && after.value.reopened == prior.value.reopened + 1)
      && (prior.Some? && prior.value.status != Fixed ==>
           && after.value.firstSeen == prior.value.firstSeen
           && after.value.fixedAt == prior.value.fixedAt && after.value.reopened == prior.value.reopened)
  {
    hide FoldAll, SeenKeys, Trustworthy, Urgency, LastSeverity, OwnerOf;
    NewestStep(before, s, k);
    SightedIsSeen(s, k);
  }

  /** The rating of a finding the newest run has: the severity of the report's last finding that sights it, and its
      most urgent decision, immediate above out-of-cycle above scheduled above defer. */
  lemma RatedByTheNewestRun(before: seq<Snapshot>, s: Snapshot, k: Key, i: nat)
    requires i < |s.report.findings| && Sights(s.report.findings[i], k)
    requires forall j | i < j < |s.report.findings| :: !Sights(s.report.findings[j], k)
    ensures var after := EntryOf(before + [s], k);
      && after.Some?
      && after.value.severity == s.report.findings[i].severity
      && after.value.ssvc ==
         if Decides(s, k, Immediate) then Some(Immediate)
         else if Decides(s, k, OutOfCycle) then Some(OutOfCycle)
         else if Decides(s, k, Scheduled) then Some(Scheduled)
         else if Decides(s, k, Defer) then Some(Defer)
         else None
  {
    hide FoldAll, SeenKeys, Trustworthy, Urgency, LastSeverity, OwnerOf, Sights, FindingKeys;
    NewestStep(before, s, k);
    SightedIsSeen(s, k);
    LastSeverityIs(s.report.findings, k, i);
    MostUrgent(s, k);
  }

  lemma MostUrgent(s: Snapshot, k: Key)
    ensures Urgency(s.report.decisions, k) ==
         if Decides(s, k, Immediate) then Some(Immediate)
         else if Decides(s, k, OutOfCycle) then Some(OutOfCycle)
         else if Decides(s, k, Scheduled) then Some(Scheduled)
         else if Decides(s, k, Defer) then Some(Defer)
         else None
  {
    hide Urgency;
    var decisions := s.report.decisions;
    var most := Urgency(decisions, k);
    UrgencyIs(decisions, k, if most.Some? then most.value else Defer);
    forall o | Decides(s, k, o)
      ensures most.Some? && o.Rank() <= most.value.Rank()
    {
      assert Concerns(Decision(k.advisory, k.repo, k.package, k.version, o), k);
    }
  }

  /** The rating of a finding the newest run only ignores is the one it had. */
  lemma IgnoringKeepsTheRating(before: seq<Snapshot>, s: Snapshot, k: Key)
    requires !Sighted(s, k) && k in s.suppressed
    ensures var (prior, after) := (EntryOf(before, k), EntryOf(before + [s], k));
      && after.Some?
      && after.value.severity == (if prior.Some? then prior.value.severity else Unknown)
      && after.value.ssvc == (if prior.Some? then prior.value.ssvc else None)
  {
    hide FoldAll, SeenKeys, Trustworthy, OwnerOf;
    NewestStep(before, s, k);
    SightedIsSeen(s, k);
  }

  /** The owner of a finding the newest run touches: whom the report's last context naming an owner of the repo names;
      with none, the owner it had. */
  lemma OwnedByTheNewestRun(before: seq<Snapshot>, s: Snapshot, k: Key)
    requires Sighted(s, k) || k in s.suppressed
    ensures var (prior, after) := (EntryOf(before, k), EntryOf(before + [s], k));
      var contexts := s.report.contexts;
      && after.Some?
      && (forall i: nat |
           && i < |contexts| && contexts[i].repo == k.repo && contexts[i].owner.Some?
           && (forall j | i < j < |contexts| :: contexts[j].repo == k.repo ==> contexts[j].owner.None?) ::
           after.value.owner == contexts[i].owner)
      && ((forall c | c in contexts :: c.repo == k.repo ==> c.owner.None?) ==>
           after.value.owner == if prior.Some? then prior.value.owner else None)
  {
    hide FoldAll, SeenKeys, Trustworthy, Urgency, LastSeverity, OwnerOf;
    NewestStep(before, s, k);
    SightedIsSeen(s, k);
    var contexts := s.report.contexts;
    if forall c | c in contexts :: c.repo == k.repo ==> c.owner.None? {
      NoOwner(contexts, k.repo);
    }
    forall i: nat |
      && i < |contexts| && contexts[i].repo == k.repo && contexts[i].owner.Some?
      && (forall j | i < j < |contexts| :: contexts[j].repo == k.repo ==> contexts[j].owner.None?)
      ensures OwnerOf(contexts, k.repo) == contexts[i].owner
    {
      OwnerIs(contexts, k.repo, i);
    }
  }
}
