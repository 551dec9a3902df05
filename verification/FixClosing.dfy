/** Closing requests the plan no longer wants (`close_obsolete` and `close_one` in crates/cli/src/fix.rs), a
    command at a time, on remotes that other people write to between any two commands. */
module FixClosing {
  import opened Wrappers
  import opened FixPlan
  import opened FixProtocol
  import opened FixSchedule
  import opened Text

  /** A branch of a repo's remote. */
  type Place = (string, Branch)

  type Remotes = map<Place, Commit>

  /** What someone else does to a branch: moves it, or deletes it. */
  datatype Write = Write(at: Place, head: Option<Commit>)

  /** One step of a trace: someone else's write, or a command of fleetreach and whether it succeeds. */
  datatype Step =
    | Other(write: Write)
    | Fetch(at: Place, ok: bool)
    | Judge(ok: bool)
    | Shut(ok: bool)
    | Delete(ok: bool)

  /** How far closing one request has come: the branch, and its head as it was fetched. */
  datatype Phase =
    | Idle
    | Fetched(at: Place, head: Commit)
    | Judged(at: Place, head: Commit)
    | Closed(at: Place, head: Commit)

  /** A branch deleted: the head judged verified, and the head that went. */
  datatype Deletion = Deletion(at: Place, judged: Commit, deleted: Commit)

  datatype State = State(remotes: Remotes, phase: Phase, deletions: seq<Deletion>)

  function Start(remotes: Remotes): State {
    State(remotes, Idle, [])
  }

  function AfterWrite(remotes: Remotes, w: Write): Remotes {
    if w.head.Some? then remotes[w.at := w.head.value] else remotes - {w.at}
  }

  predicate SaysVerified(c: Commit) {
    c.Child? && Contains(c.message, VERIFIED)
  }

  /** A command that fails, or finds no branch, ends the request; commands of an ended one are not given. */
  function Next(s: State, step: Step): State {
    match step
    case Other(w) => s.(remotes := AfterWrite(s.remotes, w))
    case Fetch(at, ok) =>
      if OursBranch(at.1) && ok && at in s.remotes then s.(phase := Fetched(at, s.remotes[at])) else s.(phase := Idle)
    case Judge(ok) =>
      if s.phase.Fetched? && ok && SaysVerified(s.phase.head) then s.(phase := Judged(s.phase.at, s.phase.head))
      else s.(phase := Idle)
    case Shut(ok) =>
      if s.phase.Judged? && ok then s.(phase := Closed(s.phase.at, s.phase.head)) else s.(phase := Idle)
    case Delete(ok) =>
      if s.phase.Closed? && ok && s.phase.at in s.remotes then
        State(s.remotes - {s.phase.at}, Idle,
              s.deletions + [Deletion(s.phase.at, s.phase.head, s.remotes[s.phase.at])])
      else s.(phase := Idle)
  }

  function Run(s: State, trace: seq<Step>): State {
    if trace == [] then s else Next(Run(s, trace[..|trace| - 1]), trace[|trace| - 1])
  }

  lemma RunOneMore(s: State, trace: seq<Step>, step: Step)
    ensures Run(s, trace + [step]) == Next(Run(s, trace), step)
  {
    hide Next;
    assert (trace + [step])[..|trace|] == trace;
  }

  lemma {:induction false} RunTogether(s: State, a: seq<Step>, b: seq<Step>)
    ensures Run(s, a + b) == Run(Run(s, a), b)
  {
    hide Next;
    if b == [] {
      assert a + b == a;
    } else {
      var init := b[..|b| - 1];
      assert (a + b)[..|a + b| - 1] == a + init;
      RunTogether(s, a, init);
    }
  }

  // ---- the program ----

  /** What happens around closing one request: writes before its fetch, writes between the fetch and the
      deletion, and whether each command succeeds. */
  datatype Calls = Calls(before: seq<Write>, fetches: bool, judges: bool, shuts: bool,
                         between: seq<Write>, deletes: bool)

  function Others(writes: seq<Write>): (steps: seq<Step>)
    ensures |steps| == |writes| && forall i | 0 <= i < |writes| :: steps[i] == Other(writes[i])
  {
    seq(|writes|, i requires 0 <= i < |writes| => Other(writes[i]))
  }

  function TraceOf(at: Place, c: Calls): seq<Step> {
    Others(c.before) + [Fetch(at, c.fetches), Judge(c.judges), Shut(c.shuts)] + Others(c.between) + [Delete(c.deletes)]
  }

  function TraceOfAll(closing: seq<(Place, Calls)>): seq<Step> {
    if closing == [] then []
    else
      TraceOfAll(closing[..|closing| - 1]) + TraceOf(closing[|closing| - 1].0, closing[|closing| - 1].1)
  }

  class Origins {
    var remotes: Remotes
    var deletions: seq<Deletion>

    function View(): State
      reads this
    {
      State(remotes, Idle, deletions)
    }

    constructor (r: Remotes)
      ensures View() == Start(r)
    {
      remotes, deletions := r, [];
    }

    /** Other people's turn. */
    method Let(writes: seq<Write>, ghost phase: Phase)
      modifies this`remotes
      ensures State(remotes, phase, deletions) == Run(State(old(remotes), phase, deletions), Others(writes))
    {
      ghost var s := State(remotes, phase, deletions);
      for i := 0 to |writes|
        invariant State(remotes, phase, deletions) == Run(s, Others(writes[..i]))
      {
        var w := writes[i];
        assert Others(writes[..i + 1]) == Others(writes[..i]) + [Other(w)];
        RunOneMore(s, Others(writes[..i]), Other(w));
        remotes := if w.head.Some? then remotes[w.at := w.head.value] else remotes - {w.at};
      }
      assert writes[..|writes|] == writes;
    }

    /** `close_one`. */
    method CloseOne(at: Place, c: Calls)
      modifies this
      ensures View() == Run(old(View()), TraceOf(at, c))
    {
      hide Run, SaysVerified, OursBranch;
      ghost var s := View();
      TraceInParts(s, at, c);
      Let(c.before, Idle);
      ghost var fetched := Next(View(), Fetch(at, c.fetches));
      ghost var closed := Next(Next(fetched, Judge(c.judges)), Shut(c.shuts));
      if OursBranch(at.1) && c.fetches && at in remotes {
        var head := remotes[at];
        if c.judges && SaysVerified(head) && c.shuts {
          assert closed.phase == Closed(at, head);
          Let(c.between, Closed(at, head));
          if c.deletes && at in remotes {
            deletions := deletions + [Deletion(at, head, remotes[at])];
            remotes := remotes - {at};
          }
          return;
        }
      }
      assert closed == View();
      Let(c.between, Idle);
    }

    /** The loop of `close_obsolete` over the requests to close. */
    method CloseEach(closing: seq<(Place, Calls)>)
      modifies this
      ensures View() == Run(old(View()), TraceOfAll(closing))
    {
      hide Run, TraceOf;
      ghost var s := View();
      RunNothing(s);
      for i := 0 to |closing|
        invariant View() == Run(s, TraceOfAll(closing[..i]))
      {
        assert closing[..i + 1][..i] == closing[..i];
        RunTogether(s, TraceOfAll(closing[..i]), TraceOf(closing[i].0, closing[i].1));
        CloseOne(closing[i].0, closing[i].1);
      }
      assert closing[..|closing|] == closing;
    }
  }

  lemma RunNothing(s: State)
    ensures Run(s, []) == s
  {
  }

  lemma TraceInParts(s: State, at: Place, c: Calls)
    ensures var fetched := Next(Run(s, Others(c.before)), Fetch(at, c.fetches));
      var closed := Next(Next(fetched, Judge(c.judges)), Shut(c.shuts));
      Run(s, TraceOf(at, c)) == Next(Run(closed, Others(c.between)), Delete(c.deletes))
  {
    hide Run, Next;
    var fetch, judge, shut := Fetch(at, c.fetches), Judge(c.judges), Shut(c.shuts);
    var before := Others(c.before);
    RunOneMore(s, before, fetch);
    RunOneMore(s, before + [fetch], judge);
    RunOneMore(s, before + [fetch] + [judge], shut);
    var front := before + [fetch] + [judge] + [shut];
    assert front == before + [fetch, judge, shut];
    RunTogether(s, front, Others(c.between));
    RunOneMore(s, front + Others(c.between), Delete(c.deletes));
  }

  // ---- what fleetreach can touch ----

  /** Other people's writes alone. */
  function OthersAlone(remotes: Remotes, trace: seq<Step>): Remotes {
    if trace == [] then remotes
    else
      var was, last := OthersAlone(remotes, trace[..|trace| - 1]), trace[|trace| - 1];
      if last.Other? then AfterWrite(was, last.write) else was
  }

  /** The trace turns only to the branches `closing`. */
  ghost predicate Turns(trace: seq<Step>, closing: set<Place>) {
    forall i | 0 <= i < |trace| && trace[i].Fetch? :: trace[i].at in closing
  }

  /** Whatever the trace, a branch it does not turn to is where other people left it; each deletion is of a
      branch it turned to, a `fleetreach/` one, whose fetched head said verified. */
  lemma {:induction false} OnlyTheClosedAreTouched(remotes: Remotes, trace: seq<Step>, closing: set<Place>, at: Place)
    requires Turns(trace, closing)
    ensures var s := Run(Start(remotes), trace);
      && (s.phase.Idle? || (s.phase.at in closing && OursBranch(s.phase.at.1)
           && (s.phase.Fetched? || SaysVerified(s.phase.head))))
      && (at !in closing || !OursBranch(at.1) ==> Lookup(s.remotes, at) == Lookup(OthersAlone(remotes, trace), at))
      && forall d | d in s.deletions :: d.at in closing && OursBranch(d.at.1) && SaysVerified(d.judged)
  {
    hide OursBranch, SaysVerified;
    if trace != [] {
      var init := trace[..|trace| - 1];
      assert forall i | 0 <= i < |init| :: init[i] == trace[i];
      OnlyTheClosedAreTouched(remotes, init, closing, at);
    }
  }

  /** With the branches to close chosen as `close_obsolete` chooses them: a branch some edit of the plan wants,
      any branch of a repo the plan did not scan, and any branch that is not a `fleetreach/` one, is where
      other people left it. */
  lemma WantedBranchesAreUntouched(edits: seq<Edit>, scanned: seq<string>, args: Args, w: World, closing: set<Place>,
                                   remotes: Remotes, trace: seq<Step>, at: Place)
    requires forall repo, b :: (repo, b) in closing <==> repo in scanned && Obsolete(edits, args, w, repo, b)
    requires Turns(trace, closing)
    requires at in Wanted(edits) || at.0 !in scanned || !OursBranch(at.1)
    ensures Lookup(Run(Start(remotes), trace).remotes, at) == Lookup(OthersAlone(remotes, trace), at)
  {
    hide Kept, BranchName, Run, OthersAlone, OursBranch;
    OnlyTheClosedAreTouched(remotes, trace, closing, at);
    assert (at.0, at.1) == at;
  }

  lemma {:induction false} TraceTurns(closing: seq<(Place, Calls)>, places: set<Place>)
    requires forall i | 0 <= i < |closing| :: closing[i].0 in places
    ensures Turns(TraceOfAll(closing), places)
  {
    if closing != [] {
      TraceTurns(closing[..|closing| - 1], places);
    }
  }

  ghost predicate Closes(closing: seq<(Place, Calls)>, at: Place) {
    exists i :: 0 <= i < |closing| && closing[i].0 == at
  }

  lemma ClosesOneMore(closing: seq<(Place, Calls)>, at: Place, c: Calls)
    ensures forall x :: Closes(closing + [(at, c)], x) <==> Closes(closing, x) || x == at
  {
    var more := closing + [(at, c)];
    assert more[|closing|].0 == at;
    assert forall i | 0 <= i < |closing| :: more[i] == closing[i];
  }

  /** `close_obsolete`: the obsolete requests are found, then closed one by one. */
  method CloseUnwanted(edits: seq<Edit>, scanned: seq<string>, args: Args, w: World, requests: Requests,
                       origins: Origins, calls: Place -> Calls)
    returns (closing: seq<(Place, Calls)>)
    requires CacheFits(requests, w) && origins.deletions == []
    modifies requests, origins
    ensures forall repo, b :: Closes(closing, (repo, b)) <==> repo in scanned && Obsolete(edits, args, w, repo, b)
    ensures forall i, j | 0 <= i < j < |closing| :: closing[i].0 != closing[j].0
    ensures origins.View() == Run(Start(old(origins.remotes)), TraceOfAll(closing))
    ensures forall at | at in Wanted(edits) || at.0 !in scanned || !OursBranch(at.1) ::
      Lookup(origins.remotes, at) == Lookup(OthersAlone(old(origins.remotes), TraceOfAll(closing)), at)
  {
    hide Obsolete, Run, OthersAlone, TraceOfAll, BranchName, OursBranch;
    ghost var remotes := origins.remotes;
    var places := CloseObsolete(edits, scanned, args, w, requests);
    var todo := places;
    closing := [];
    while todo != {}
      invariant todo <= places && origins.View() == Start(remotes)
      invariant forall at :: Closes(closing, at) <==> at in places - todo
      invariant forall i, j | 0 <= i < j < |closing| :: closing[i].0 != closing[j].0
      decreases |todo|
    {
      var at :| at in todo;
      assert !Closes(closing, at);
      ClosesOneMore(closing, at, calls(at));
      todo := todo - {at};
      closing := closing + [(at, calls(at))];
    }
    assert forall i | 0 <= i < |closing| :: Closes(closing, closing[i].0);
    origins.CloseEach(closing);
    ghost var trace := TraceOfAll(closing);
    TraceTurns(closing, places);
    forall at | at in Wanted(edits) || at.0 !in scanned || !OursBranch(at.1)
      ensures Lookup(Run(Start(remotes), trace).remotes, at) == Lookup(OthersAlone(remotes, trace), at)
    {
      WantedBranchesAreUntouched(edits, scanned, args, w, places, remotes, trace, at);
    }
  }

  // ---- what is deleted is what was judged ----

  /** The last write to `at` since the last fetch, when there is one. */
  function WrittenSinceFetch(trace: seq<Step>, at: Place): Option<Option<Commit>> {
    if trace == [] then None
    else
      var last := trace[|trace| - 1];
      if last.Fetch? then None
      else if last.Other? && last.write.at == at then Some(last.write.head)
      else WrittenSinceFetch(trace[..|trace| - 1], at)
  }

  lemma {:induction false} HeadSinceFetch(remotes: Remotes, trace: seq<Step>)
    ensures var s := Run(Start(remotes), trace);
      !s.phase.Idle? ==>
        var written := WrittenSinceFetch(trace, s.phase.at);
        Lookup(s.remotes, s.phase.at) == if written.None? then Some(s.phase.head) else written.value
  {
    hide OursBranch, SaysVerified;
    if trace != [] {
      HeadSinceFetch(remotes, trace[..|trace| - 1]);
    }
  }

  /** The deletion names the branch, not its head. Over every trace, a deletion takes the head that was judged
      exactly when the last thing other people did to the branch since the fetch, if anything, was to put that
      very head back; so whenever no write to it lies in between. */
  lemma DeletedIsJudgedIff(remotes: Remotes, trace: seq<Step>)
    requires var s, now := Run(Start(remotes), trace), Run(Start(remotes), trace + [Delete(true)]);
      now.deletions != s.deletions
    ensures var now := Run(Start(remotes), trace + [Delete(true)]);
      now.deletions != [] &&
      var d := now.deletions[|now.deletions| - 1];
      d.deleted == d.judged <==> WrittenSinceFetch(trace, d.at) in {None, Some(Some(d.judged))}
  {
    RunOneMore(Start(remotes), trace, Delete(true));
    HeadSinceFetch(remotes, trace);
    hide Run, WrittenSinceFetch;
  }
}
