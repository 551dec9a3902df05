/** Stepping a planned target clear of advisories of its own (crates/cli/src/fix_targets.rs). */
module FixTargets {
  import opened Wrappers
  import opened FixPlan
  import opened Osv

  datatype Step<V> =
    | Clear
    | To(version: V, ids: set<string>)
    | Stuck(ids: set<string>)

  /** A version order, with the ecosystem's spelling of prereleases. */
  datatype Order<!V> = Order(leq: (V, V) -> bool, prerelease: V -> bool)

  predicate Hits<V(==)>(a: Advisory<V>, v: V, leq: (V, V) -> bool) {
    AnyRangeAffects(a.ranges, v, leq) || v in a.versions
  }

  predicate Named<V>(a: Advisory<V>, targeted: seq<string>) {
    a.id in targeted || exists i :: 0 <= i < |a.aliases| && a.aliases[i] in targeted
  }

  /** An advisory the repo has already and the plan is not fixing is not a new finding. */
  predicate Counts<V(==)>(a: Advisory<V>, from: seq<V>, targeted: seq<string>, leq: (V, V) -> bool) {
    Named(a, targeted) || forall i | 0 <= i < |from| :: !Hits(a, from[i], leq)
  }

  function Counted<V(==)>(advisories: seq<Advisory<V>>, from: seq<V>, targeted: seq<string>, leq: (V, V) -> bool)
    : seq<Advisory<V>>
  {
    if advisories == [] then []
    else
      var a := advisories[|advisories| - 1];
      Counted(advisories[..|advisories| - 1], from, targeted, leq) + if Counts(a, from, targeted, leq) then [a] else []
  }

  predicate ClearOf<V(==)>(counted: seq<Advisory<V>>, v: V, leq: (V, V) -> bool) {
    forall i | 0 <= i < |counted| :: !Hits(counted[i], v, leq)
  }

  function HitIds<V(==)>(counted: seq<Advisory<V>>, v: V, leq: (V, V) -> bool): set<string> {
    set i | 0 <= i < |counted| && Hits(counted[i], v, leq) :: counted[i].id
  }

  // ---- the candidate bounds, ascending ----

  predicate Candidate<V>(f: V, to: V, o: Order<V>) {
    !o.leq(f, to) && (!o.prerelease(f) || o.prerelease(to))
  }

  function InsertBound<V(==)>(f: V, sorted: seq<V>, leq: (V, V) -> bool): seq<V> {
    if sorted == [] then [f]
    else if sorted[0] == f then sorted
    else if leq(f, sorted[0]) then [f] + sorted
    else [sorted[0]] + InsertBound(f, sorted[1..], leq)
  }

  function Candidates<V(==)>(fixed: seq<V>, to: V, o: Order<V>): seq<V> {
    if fixed == [] then []
    else
      var rest := Candidates(fixed[1..], to, o);
      if Candidate(fixed[0], to, o) then InsertBound(fixed[0], rest, o.leq) else rest
  }

  function FirstClear<V(==)>(bounds: seq<V>, counted: seq<Advisory<V>>, leq: (V, V) -> bool): Option<V> {
    if bounds == [] then None
    else if ClearOf(counted, bounds[0], leq) then Some(bounds[0])
    else FirstClear(bounds[1..], counted, leq)
  }

  /** `step`. */
  function StepFrom<V(==)>(advisories: seq<Advisory<V>>, from: seq<V>, to: V, targeted: seq<string>, o: Order<V>)
    : Step<V>
  {
    var counted := Counted(advisories, from, targeted, o.leq);
    var ids := HitIds(counted, to, o.leq);
    if ids == {} then Clear
    else
      match FirstClear(Candidates(AdvisoriesFixed(advisories), to, o), counted, o.leq)
      case Some(v) => To(v, ids)
      case None => Stuck(ids)
  }

  ghost predicate Ascending<V>(s: seq<V>, leq: (V, V) -> bool) {
    forall i, j | 0 <= i < j < |s| :: leq(s[i], s[j])
  }

  lemma {:induction false} InsertAscending<V(!new)>(f: V, sorted: seq<V>, leq: (V, V) -> bool)
    requires TotalOrder(leq) && Ascending(sorted, leq)
    ensures Ascending(InsertBound(f, sorted, leq), leq)
    ensures forall x :: x in InsertBound(f, sorted, leq) <==> x == f || x in sorted
  {
    if sorted != [] && sorted[0] != f && !leq(f, sorted[0]) {
      var rest := sorted[1..];
      assert sorted == [sorted[0]] + rest;
      InsertAscending(f, rest, leq);
      assert forall x | x in InsertBound(f, rest, leq) :: leq(sorted[0], x);
    }
  }

  lemma {:induction false} CandidatesAscending<V(!new)>(fixed: seq<V>, to: V, o: Order<V>)
    requires TotalOrder(o.leq)
    ensures Ascending(Candidates(fixed, to, o), o.leq)
    ensures forall x :: x in Candidates(fixed, to, o) <==> x in fixed && Candidate(x, to, o)
  {
    if fixed != [] {
      assert fixed == [fixed[0]] + fixed[1..];
      CandidatesAscending(fixed[1..], to, o);
      if Candidate(fixed[0], to, o) {
        InsertAscending(fixed[0], Candidates(fixed[1..], to, o), o.leq);
      }
    }
  }

  lemma {:induction false} FirstClearIsLeast<V(!new)>(bounds: seq<V>, counted: seq<Advisory<V>>, leq: (V, V) -> bool)
    requires TotalOrder(leq) && Ascending(bounds, leq)
    ensures var r := FirstClear(bounds, counted, leq);
      && (r.Some? ==> r.value in bounds && ClearOf(counted, r.value, leq))
      && forall f | f in bounds && ClearOf(counted, f, leq) :: r.Some? && leq(r.value, f)
  {
    if bounds != [] {
      assert bounds == [bounds[0]] + bounds[1..];
      FirstClearIsLeast(bounds[1..], counted, leq);
      assert forall f | f in bounds[1..] :: leq(bounds[0], f);
      assert leq(bounds[0], bounds[0]);
    }
  }

  lemma HitIdsEmpty<V>(counted: seq<Advisory<V>>, v: V, leq: (V, V) -> bool)
    ensures HitIds(counted, v, leq) == {} <==> ClearOf(counted, v, leq)
  {
    if i :| 0 <= i < |counted| && Hits(counted[i], v, leq) {
      assert counted[i].id in HitIds(counted, v, leq);
    }
  }

  /** What a step's answer promises of the candidate fixes and the counted advisories. */
  ghost predicate SoundStep<V(!new)>(
    step: Step<V>, advisories: seq<Advisory<V>>, from: seq<V>, to: V, targeted: seq<string>, o: Order<V>)
  {
    var counted := Counted(advisories, from, targeted, o.leq);
    var fixed := AdvisoriesFixed(advisories);
    && (step.Clear? <==> ClearOf(counted, to, o.leq))
    && (!step.Clear? ==> step.ids == HitIds(counted, to, o.leq))
    && (step.To? ==>
         && !o.leq(step.version, to) && ClearOf(counted, step.version, o.leq)
         && step.version in fixed && Candidate(step.version, to, o)
         && (forall f | f in fixed && Candidate(f, to, o) && ClearOf(counted, f, o.leq) :: o.leq(step.version, f))
         && StepFrom(advisories, from, step.version, targeted, o).Clear?)
    && (step.Stuck? ==> forall f | f in fixed && Candidate(f, to, o) :: !ClearOf(counted, f, o.leq))
  }

  /** A step's answer: `Clear` exactly when nothing counted hits the target; a version to go to is
      above the target, clear, a published fix, the least such candidate, and a fixpoint. */
  lemma StepIsSound<V(!new)>(advisories: seq<Advisory<V>>, from: seq<V>, to: V, targeted: seq<string>, o: Order<V>)
    requires TotalOrder(o.leq)
    ensures SoundStep(StepFrom(advisories, from, to, targeted, o), advisories, from, to, targeted, o)
  {
    var counted := Counted(advisories, from, targeted, o.leq);
    var bounds := Candidates(AdvisoriesFixed(advisories), to, o);
    HitIdsEmpty(counted, to, o.leq);
    CandidatesAscending(AdvisoriesFixed(advisories), to, o);
    FirstClearIsLeast(bounds, counted, o.leq);
    var r := FirstClear(bounds, counted, o.leq);
    if r.Some? {
      HitIdsEmpty(counted, r.value, o.leq);
    }
  }

  // ---- the step in the advisories' own terms ----

  /** The advisory lists the version, or one of its ranges affects it. */
  ghost predicate Names<V(!new)>(a: Advisory<V>, v: V, leq: (V, V) -> bool) {
    v in a.versions || exists r :: r in a.ranges && RangeAffects(r, v, leq)
  }

  /** It is of the version, and either the plan means to fix it, by its id or an alias, or nothing installed has it. */
  ghost predicate NewlyHits<V(!new)>(a: Advisory<V>, v: V, from: seq<V>, targeted: seq<string>, leq: (V, V) -> bool) {
    && Names(a, v, leq)
    && (a.id in targeted || (exists x :: x in a.aliases && x in targeted) || forall w | w in from :: !Names(a, w, leq))
  }

  lemma HitsMeans<V(!new)>(a: Advisory<V>, v: V, leq: (V, V) -> bool)
    ensures Hits(a, v, leq) <==> Names(a, v, leq)
  {
    hide RangeAffects;
    if r :| r in a.ranges && RangeAffects(r, v, leq) {
      var i :| 0 <= i < |a.ranges| && a.ranges[i] == r;
      assert RangeAffects(a.ranges[i], v, leq);
    }
  }

  ghost predicate NothingNew<V(!new)>(
    advisories: seq<Advisory<V>>, v: V, from: seq<V>, targeted: seq<string>, leq: (V, V) -> bool)
  {
    forall a | a in advisories :: !NewlyHits(a, v, from, targeted, leq)
  }

  /** Some event of some advisory names `f` as the version that fixes it. */
  ghost predicate Published<V(!new)>(advisories: seq<Advisory<V>>, f: V) {
    exists a, r, e :: a in advisories && r in a.ranges && e in r.events && e.fixed == Some(f)
  }

  /** Where the edit could be sent: a published fix above the target, and no prerelease unless the target is one. */
  ghost predicate Offered<V(!new)>(advisories: seq<Advisory<V>>, f: V, to: V, o: Order<V>) {
    Published(advisories, f) && !o.leq(f, to) && (o.prerelease(f) ==> o.prerelease(to))
  }

  lemma NamedMeans<V(!new)>(a: Advisory<V>, from: seq<V>, targeted: seq<string>, v: V, leq: (V, V) -> bool)
    ensures Counts(a, from, targeted, leq) && Hits(a, v, leq) <==> NewlyHits(a, v, from, targeted, leq)
  {
    forall w
      ensures Hits(a, w, leq) <==> Names(a, w, leq)
    {
      HitsMeans(a, w, leq);
    }
    hide Hits, Names;
    assert (forall i | 0 <= i < |from| :: !Hits(a, from[i], leq)) <==> forall w | w in from :: !Names(a, w, leq);
    if Named(a, targeted) && a.id !in targeted {
      var i :| 0 <= i < |a.aliases| && a.aliases[i] in targeted;
      assert a.aliases[i] in a.aliases;
    }
    if x :| x in a.aliases && x in targeted {
      var i :| 0 <= i < |a.aliases| && a.aliases[i] == x;
    }
  }

  lemma {:induction false} CountedAre<V(!new)>(advisories: seq<Advisory<V>>, from: seq<V>, targeted: seq<string>,
                                               leq: (V, V) -> bool)
    ensures forall a :: a in Counted(advisories, from, targeted, leq) <==>
      a in advisories && Counts(a, from, targeted, leq)
  {
    hide Counts;
    if advisories != [] {
      var init, last := advisories[..|advisories| - 1], advisories[|advisories| - 1];
      assert advisories == init + [last];
      CountedAre(init, from, targeted, leq);
    }
  }

  lemma ClearMeans<V(!new)>(advisories: seq<Advisory<V>>, v: V, from: seq<V>, targeted: seq<string>,
                            leq: (V, V) -> bool)
    ensures var counted := Counted(advisories, from, targeted, leq);
      && (ClearOf(counted, v, leq) <==> NothingNew(advisories, v, from, targeted, leq))
      && HitIds(counted, v, leq) == set a | a in advisories && NewlyHits(a, v, from, targeted, leq) :: a.id
  {
    var counted := Counted(advisories, from, targeted, leq);
    CountedAre(advisories, from, targeted, leq);
    forall a
      ensures a in counted && Hits(a, v, leq) <==> a in advisories && NewlyHits(a, v, from, targeted, leq)
    {
      NamedMeans(a, from, targeted, v, leq);
    }
    hide Counted, Counts, Hits, NewlyHits;
    assert forall a :: a in counted <==> exists i :: 0 <= i < |counted| && counted[i] == a;
    assert ClearOf(counted, v, leq) <==> forall a | a in counted :: !Hits(a, v, leq);
    assert HitIds(counted, v, leq) == set a | a in counted && Hits(a, v, leq) :: a.id;
  }

  lemma {:induction false} EventsFixedAre<V(!new)>(events: seq<Event<V>>, f: V)
    ensures f in EventsFixed(events) <==> exists e :: e in events && e.fixed == Some(f)
  {
    if events != [] {
      var init, last := events[..|events| - 1], events[|events| - 1];
      assert events == init + [last];
      EventsFixedAre(init, f);
    }
  }

  lemma {:induction false} RangesFixedAre<V(!new)>(ranges: seq<Range<V>>, f: V)
    ensures f in RangesFixed(ranges) <==> exists r, e :: r in ranges && e in r.events && e.fixed == Some(f)
  {
    if ranges != [] {
      var init, last := ranges[..|ranges| - 1], ranges[|ranges| - 1];
      assert ranges == init + [last];
      RangesFixedAre(init, f);
      EventsFixedAre(last.events, f);
    }
  }

  lemma {:induction false} AdvisoriesFixedAre<V(!new)>(advisories: seq<Advisory<V>>, f: V)
    ensures f in AdvisoriesFixed(advisories) <==> Published(advisories, f)
  {
    if advisories != [] {
      var init, last := advisories[..|advisories| - 1], advisories[|advisories| - 1];
      assert advisories == init + [last];
      AdvisoriesFixedAre(init, f);
      RangesFixedAre(last.ranges, f);
    }
  }

  /** A step, told by the advisories alone. It is `Clear` exactly when none of them newly hits the target, and
      otherwise names those that do. It sends the edit to the least version offered that none of them newly hits,
      and is stuck exactly when there is none. */
  lemma StepMeans<V(!new)>(advisories: seq<Advisory<V>>, from: seq<V>, to: V, targeted: seq<string>, o: Order<V>)
    requires TotalOrder(o.leq)
    ensures var step := StepFrom(advisories, from, to, targeted, o);
      && (step.Clear? <==> NothingNew(advisories, to, from, targeted, o.leq))
      && (!step.Clear? ==>
           step.ids == set a | a in advisories && NewlyHits(a, to, from, targeted, o.leq) :: a.id)
      && (step.To? ==>
           && Offered(advisories, step.version, to, o)
           && NothingNew(advisories, step.version, from, targeted, o.leq)
           && forall f | Offered(advisories, f, to, o) && NothingNew(advisories, f, from, targeted, o.leq) ::
             o.leq(step.version, f))
      && (step.Stuck? ==>
           forall f | Offered(advisories, f, to, o) :: !NothingNew(advisories, f, from, targeted, o.leq))
  {
    StepIsSound(advisories, from, to, targeted, o);
    ClearMeans(advisories, to, from, targeted, o.leq);
    hide StepFrom, HitIds, Counted, ClearOf, NewlyHits, NothingNew, Published;
    forall f
      ensures f in AdvisoriesFixed(advisories) && Candidate(f, to, o) <==> Offered(advisories, f, to, o)
      ensures ClearOf(Counted(advisories, from, targeted, o.leq), f, o.leq) <==>
        NothingNew(advisories, f, from, targeted, o.leq)
    {
      AdvisoriesFixedAre(advisories, f);
      ClearMeans(advisories, f, from, targeted, o.leq);
    }
    hide Candidate, Offered;
  }

  // ---- completeness ----

  /** From `to` up the advisory is told by introduced and fixed events alone: no last affected bound and no
      listed version stands there. */
  ghost predicate ByFixesFrom<V(!new)>(a: Advisory<V>, to: V, leq: (V, V) -> bool) {
    && (forall v | v in a.versions :: !leq(to, v))
    && forall i | 0 <= i < |a.ranges| :: LastAffectedBelow(a.ranges[i].events, to, leq)
  }

  ghost predicate AllByFixesFrom<V(!new)>(advisories: seq<Advisory<V>>, to: V, leq: (V, V) -> bool) {
    forall i | 0 <= i < |advisories| :: ByFixesFrom(advisories[i], to, leq)
  }

  lemma ByFixesHigher<V(!new)>(a: Advisory<V>, to: V, x: V, leq: (V, V) -> bool)
    requires TotalOrder(leq) && leq(to, x) && ByFixesFrom(a, to, leq)
    ensures ByFixesFrom(a, x, leq)
  {
  }

  /** The greatest fixed bound above `to` and at or below `w`, when there is one. */
  lemma {:induction false} GreatestFix<V(!new)>(fixed: seq<V>, to: V, w: V, leq: (V, V) -> bool) returns (f: Option<V>)
    requires TotalOrder(leq)
    ensures f.None? ==> NoFixBetween(fixed, to, w, leq)
    ensures f.Some? ==> f.value in fixed && leq(f.value, w) && !leq(f.value, to) && NoFixBetween(fixed, f.value, w, leq)
  {
    f := None;
    if fixed != [] {
      assert fixed == [fixed[0]] + fixed[1..];
      f := GreatestFix(fixed[1..], to, w, leq);
      if leq(fixed[0], w) && !leq(fixed[0], to) && (f.None? || leq(f.value, fixed[0])) {
        f := Some(fixed[0]);
      }
    }
  }

  lemma HitsCarryUp<V(!new)>(counted: seq<Advisory<V>>, i: nat, x: V, y: V, leq: (V, V) -> bool)
    requires TotalOrder(leq) && leq(x, y) && i < |counted| && ByFixesFrom(counted[i], x, leq)
    requires NoFixBetween(AdvisoriesFixed(counted), x, y, leq)
    ensures Hits(counted[i], x, leq) ==> Hits(counted[i], y, leq)
  {
    AdvisoriesFixedHas(counted, i);
    RangesCarryUp(counted[i].ranges, x, y, leq);
  }

  /** Below any clear version above a hit target there is a published fix that is clear. */
  lemma ClearFixBelow<V(!new)>(counted: seq<Advisory<V>>, to: V, w: V, leq: (V, V) -> bool) returns (f: V)
    requires TotalOrder(leq) && AllByFixesFrom(counted, to, leq)
    requires !ClearOf(counted, to, leq) && ClearOf(counted, w, leq) && !leq(w, to)
    ensures f in AdvisoriesFixed(counted) && ClearOf(counted, f, leq) && !leq(f, to) && leq(f, w)
  {
    f := to;
    var greatest := GreatestFix(AdvisoriesFixed(counted), to, w, leq);
    if greatest.None? {
      var i :| 0 <= i < |counted| && Hits(counted[i], to, leq);
      HitsCarryUp(counted, i, to, w, leq);
      assert false;
    } else {
      f := greatest.value;
      forall i | 0 <= i < |counted|
        ensures !Hits(counted[i], f, leq)
      {
        ByFixesHigher(counted[i], to, f, leq);
        HitsCarryUp(counted, i, f, w, leq);
      }
    }
  }

  lemma {:induction false} CountedFixes<V>(advisories: seq<Advisory<V>>, from: seq<V>, targeted: seq<string>,
                                             leq: (V, V) -> bool)
    ensures forall f | f in AdvisoriesFixed(Counted(advisories, from, targeted, leq)) ::
      f in AdvisoriesFixed(advisories)
  {
    if advisories != [] {
      var init := advisories[..|advisories| - 1];
      CountedFixes(init, from, targeted, leq);
      var counted, a := Counted(init, from, targeted, leq), advisories[|advisories| - 1];
      if Counts(a, from, targeted, leq) {
        assert (counted + [a])[..|counted|] == counted;
        assert AdvisoriesFixed(counted + [a]) == AdvisoriesFixed(counted) + RangesFixed(a.ranges);
      } else {
        assert Counted(advisories, from, targeted, leq) == counted;
      }
    }
  }

  /** Where the counted advisories are told by fixes alone from the target up, and none of those fixes is
      passed over as a prerelease, `To` is the least clear version above the target, and `Stuck` means there is none. */
  lemma StepIsComplete<V(!new)>(advisories: seq<Advisory<V>>, from: seq<V>, to: V, targeted: seq<string>, o: Order<V>)
    requires TotalOrder(o.leq)
    requires var counted := Counted(advisories, from, targeted, o.leq);
      && AllByFixesFrom(counted, to, o.leq)
      && (forall f | f in AdvisoriesFixed(counted) && !o.leq(f, to) :: Candidate(f, to, o))
    ensures var counted := Counted(advisories, from, targeted, o.leq);
      var step := StepFrom(advisories, from, to, targeted, o);
      forall w | !o.leq(w, to) && ClearOf(counted, w, o.leq) ::
        step.Clear? || (step.To? && o.leq(step.version, w))
  {
    var counted := Counted(advisories, from, targeted, o.leq);
    var step := StepFrom(advisories, from, to, targeted, o);
    StepIsSound(advisories, from, to, targeted, o);
    CountedFixes(advisories, from, targeted, o.leq);
    hide StepFrom, Counted, ClearOf, AllByFixesFrom, Candidate;
    forall w | !o.leq(w, to) && ClearOf(counted, w, o.leq)
      ensures step.Clear? || (step.To? && o.leq(step.version, w))
    {
      if !step.Clear? {
        var f := ClearFixBelow(counted, to, w, o.leq);
        assert Candidate(f, to, o);
      }
    }
  }

  function LastAffectedRange<V>(low: V, last: V): Range<V> {
    Range(true, [Event(Some(Version(low)), None, None), Event(None, None, Some(last))])
  }

  lemma LastAffectedRangeAffects<V>(low: V, last: V, v: V, leq: (V, V) -> bool)
    ensures RangeAffects(LastAffectedRange(low, last), v, leq) <==> leq(low, v) && leq(v, last)
    ensures EventsFixed(LastAffectedRange(low, last).events) == []
  {
    var first, second := Event(Some(Version(low)), None, None), Event(None, None, Some(last));
    var events := [first, second];
    assert LastAffectedRange(low, last).events == events;
    assert events[..1] == [first] && [first][..0] == [];
    assert events[0] == first && HasIntroduced(events);
    assert EventsFixed([first]) == [];
    assert AfterEvents([first], false, v, leq) == leq(low, v);
    assert AfterEvents(events, false, v, leq) == (!Ends(second, v, leq) && AfterEvents([first], false, v, leq));
  }

  lemma OneAdvisory<V>(a: Advisory<V>, r: Range<V>, v: V, leq: (V, V) -> bool)
    requires a.versions == [] && a.ranges == [r]
    ensures Counted([a], [], [], leq) == [a]
    ensures ClearOf([a], v, leq) <==> !RangeAffects(r, v, leq)
    ensures HitIds([a], v, leq) == if RangeAffects(r, v, leq) then {a.id} else {}
    ensures AdvisoriesFixed([a]) == EventsFixed(r.events)
  {
    assert [a][..0] == [] && [r][..0] == [];
    assert [a][0] == a && a.ranges[0] == r;
    assert Hits(a, v, leq) <==> RangeAffects(r, v, leq);
    assert RangesFixed([r]) == EventsFixed(r.events);
  }

  /** Told by a last affected version instead: the step is stuck though a clear version lies above the target
      exactly when the target is in the affected range and some version is above the last affected one. */
  lemma LastAffectedIsStuckIff<V(!new)>(a: Advisory<V>, low: V, last: V, to: V, o: Order<V>)
    requires TotalOrder(o.leq)
    requires a.versions == [] && a.ranges == [LastAffectedRange(low, last)]
    ensures
      StepFrom([a], [], to, [], o).Stuck?
      && (exists w :: !o.leq(w, to) && ClearOf(Counted([a], [], [], o.leq), w, o.leq))
      <==> o.leq(low, to) && o.leq(to, last) && exists w :: !o.leq(w, last)
  {
    LastAffectedRangeAffects(low, last, to, o.leq);
    OneAdvisory(a, LastAffectedRange(low, last), to, o.leq);
    assert StepFrom([a], [], to, [], o).Stuck? <==> o.leq(low, to) && o.leq(to, last);
    forall w
      ensures ClearOf([a], w, o.leq) <==> !(o.leq(low, w) && o.leq(w, last))
    {
      LastAffectedRangeAffects(low, last, w, o.leq);
      OneAdvisory(a, LastAffectedRange(low, last), w, o.leq);
    }
    hide ClearOf, StepFrom, Counted;
    if o.leq(low, to) && o.leq(to, last) {
      if w :| !o.leq(w, to) && ClearOf([a], w, o.leq) {
        assert !o.leq(w, last);
      }
      if w :| !o.leq(w, last) {
        assert !o.leq(w, to) && ClearOf([a], w, o.leq);
      }
    }
  }

  // ---- settling an edit ----

  /** An ecosystem's reader: how it parses and writes versions, whether a target leaves the line of
      some installed version, and the campaign a target gives. */
  datatype Reader<!V> = Reader(
    order: Order<V>,
    advisories: string -> seq<Advisory<V>>,
    parse: string -> Option<V>,
    show: V -> string,
    crosses: (seq<string>, V) -> bool,
    campaign: (string, string, string, seq<string>) -> string)

  function ParseAll<V>(texts: seq<string>, parse: string -> Option<V>): Option<seq<V>> {
    if texts == [] then Some([])
    else
      var rest := ParseAll(texts[..|texts| - 1], parse);
      var last := parse(texts[|texts| - 1]);
      if rest.None? || last.None? then None else Some(rest.value + [last.value])
  }

  /** The step of an edit, when its versions can all be read. */
  function EditStep<V(==)>(e: Edit, r: Reader<V>): Option<Step<V>> {
    var from := ParseAll(e.from, r.parse);
    var to := r.parse(e.to);
    if from.None? || to.None? then None
    else Some(StepFrom(r.advisories(e.package), from.value, to.value, e.advisories, r.order))
  }

  /** The edit sent on to `v`: its campaign follows, and a new major needs leave to stay planned. */
  predicate MovedTo<V(==)>(edit: Edit, was: Edit, v: V, r: Reader<V>, allowBreaking: bool) {
    && edit.to == r.show(v)
    && edit.campaign == r.campaign(was.ecosystem, was.package, edit.to, was.advisories)
    && edit.breaking == (was.breaking || r.crosses(was.from, v))
    && edit.strategy == if r.crosses(was.from, v) && !was.breaking && !allowBreaking then Blocked else was.strategy
  }

  class PlannedEdit {
    var edit: Edit

    constructor (e: Edit)
      ensures edit == e
    {
      edit := e;
    }

    /** `Reader::check` and `settle`: moves the edit as the step says; whether it changed. */
    method Check<V(==, !new)>(r: Reader<V>, allowBreaking: bool) returns (moved: bool)
      requires TotalOrder(r.order.leq)
      modifies this
      ensures var was := old(edit);
        && edit.package == was.package && edit.from == was.from && edit.advisories == was.advisories
        && edit.repo == was.repo && edit.ecosystem == was.ecosystem
        && moved == (EditStep(was, r).Some? && !EditStep(was, r).value.Clear?)
        && (!moved ==> edit == was)
        && (was.strategy == Blocked ==> edit.strategy == Blocked)
        && (moved && EditStep(was, r).value.Stuck? ==> edit.strategy == Blocked && edit.to == was.to)
        && (moved && EditStep(was, r).value.To? ==>
             MovedTo(edit, was, EditStep(was, r).value.version, r, allowBreaking))
      ensures (forall v :: r.parse(r.show(v)) == Some(v)) && edit.strategy != Blocked && EditStep(edit, r).Some? ==>
        EditStep(edit, r).value.Clear?
    {
      var from := ParseAll(edit.from, r.parse);
      var to := r.parse(edit.to);
      if to.None? || from.None? {
        return false;
      }
      var step := StepFrom(r.advisories(edit.package), from.value, to.value, edit.advisories, r.order);
      StepIsSound(r.advisories(edit.package), from.value, to.value, edit.advisories, r.order);
      match step {
        case Clear =>
          return false;
        case Stuck(ids) =>
          edit := edit.(strategy := Blocked, reason := Some(edit.to + " has no fix published"));
          return true;
        case To(v, ids) =>
          var was := edit.to;
          edit := edit.(to := r.show(v));
          edit := edit.(campaign := r.campaign(edit.ecosystem, edit.package, edit.to, edit.advisories));
          if r.crosses(edit.from, v) && !edit.breaking {
            edit := edit.(breaking := true);
            if !allowBreaking {
              edit := edit.(strategy := Blocked, reason :=
                Some(was + " has advisories, and the next clear version is a breaking upgrade"));
            }
          }
          return true;
      }
    }
  }
}
