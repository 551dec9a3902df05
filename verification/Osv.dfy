/** Advisory ranges with their bounds parsed, and which versions they affect (crates/core/src/osv.rs).
    A version type is any type with a total order. */
module Osv {
  import opened Wrappers

  ghost predicate TotalOrder<V(!new)>(leq: (V, V) -> bool) {
    && (forall x, y :: leq(x, y) || leq(y, x))
    && (forall x, y :: leq(x, y) && leq(y, x) ==> x == y)
    && (forall x, y, z :: leq(x, y) && leq(y, z) ==> leq(x, z))
  }

  /** A lower bound that was there but could not be parsed fails loud: it affects everything. */
  datatype Bound<V> = Version(v: V) | Unparseable

  datatype Event<V> = Event(introduced: Option<Bound<V>>, fixed: Option<V>, lastAffected: Option<V>)

  datatype Range<V> = Range(matchable: bool, events: seq<Event<V>>)

  datatype Advisory<V> = Advisory(id: string, aliases: seq<string>, ranges: seq<Range<V>>, versions: seq<V>)

  predicate Introduces<V>(e: Event<V>, v: V, leq: (V, V) -> bool) {
    e.introduced.Some? && (e.introduced.value.Unparseable? || leq(e.introduced.value.v, v))
  }

  predicate Ends<V>(e: Event<V>, v: V, leq: (V, V) -> bool) {
    (e.fixed.Some? && leq(e.fixed.value, v)) || (e.lastAffected.Some? && !leq(v, e.lastAffected.value))
  }

  /** Whether a version is affected after the events, read in the order they are listed. */
  predicate AfterEvents<V>(events: seq<Event<V>>, start: bool, v: V, leq: (V, V) -> bool) {
    if events == [] then start
    else
      var e := events[|events| - 1];
      !Ends(e, v, leq) && (Introduces(e, v, leq) || AfterEvents(events[..|events| - 1], start, v, leq))
  }

  predicate HasIntroduced<V>(events: seq<Event<V>>) {
    exists i :: 0 <= i < |events| && events[i].introduced.Some?
  }

  predicate RangeAffects<V>(r: Range<V>, v: V, leq: (V, V) -> bool) {
    r.matchable && AfterEvents(r.events, !HasIntroduced(r.events), v, leq)
  }

  predicate AnyRangeAffects<V>(ranges: seq<Range<V>>, v: V, leq: (V, V) -> bool) {
    exists i :: 0 <= i < |ranges| && RangeAffects(ranges[i], v, leq)
  }

  // ---- the last event that says something decides ----

  /** The event puts `v` in the range: it was introduced at or below `v`, or where it cannot be read. */
  ghost predicate PutsIn<V>(e: Event<V>, v: V, leq: (V, V) -> bool) {
    match e.introduced
    case None => false
    case Some(Unparseable) => true
    case Some(Version(low)) => leq(low, v)
  }

  /** The event takes `v` out of the range: it was fixed at or below `v`, or last affected below it. */
  ghost predicate TakesOut<V>(e: Event<V>, v: V, leq: (V, V) -> bool) {
    match (e.fixed, e.lastAffected)
    case (None, None) => false
    case (Some(f), None) => leq(f, v)
    case (None, Some(last)) => !leq(v, last)
    case (Some(f), Some(last)) => leq(f, v) || !leq(v, last)
  }

  lemma {:induction false} LastWord<V>(events: seq<Event<V>>, start: bool, v: V, leq: (V, V) -> bool, i: nat)
    requires i < |events| && (PutsIn(events[i], v, leq) || TakesOut(events[i], v, leq))
    requires forall j | i < j < |events| :: !PutsIn(events[j], v, leq) && !TakesOut(events[j], v, leq)
    ensures AfterEvents(events, start, v, leq) <==> !TakesOut(events[i], v, leq)
  {
    if i < |events| - 1 {
      LastWord(events[..|events| - 1], start, v, leq, i);
    }
  }

  lemma {:induction false} NoWord<V>(events: seq<Event<V>>, start: bool, v: V, leq: (V, V) -> bool)
    requires forall j | 0 <= j < |events| :: !PutsIn(events[j], v, leq) && !TakesOut(events[j], v, leq)
    ensures AfterEvents(events, start, v, leq) == start
  {
    if events != [] {
      NoWord(events[..|events| - 1], start, v, leq);
    }
  }

  /** A range affects a version exactly when it can be matched and the last of its events to say anything of the
      version puts it in and does not take it out; where none does, when no event of the range introduces anything. */
  lemma LastEventDecides<V>(r: Range<V>, v: V, leq: (V, V) -> bool)
    ensures RangeAffects(r, v, leq) ==> r.matchable
    ensures forall i | 0 <= i < |r.events| && (PutsIn(r.events[i], v, leq) || TakesOut(r.events[i], v, leq))
                       && (forall j | i < j < |r.events| ::
                            !PutsIn(r.events[j], v, leq) && !TakesOut(r.events[j], v, leq)) ::
      RangeAffects(r, v, leq) <==> r.matchable && !TakesOut(r.events[i], v, leq)
    ensures (forall j | 0 <= j < |r.events| ::
              !PutsIn(r.events[j], v, leq) && !TakesOut(r.events[j], v, leq)) ==>
      (RangeAffects(r, v, leq) <==> r.matchable && forall e | e in r.events :: e.introduced == None)
  {
    hide PutsIn, TakesOut, AfterEvents;
    var start := !HasIntroduced(r.events);
    forall i | 0 <= i < |r.events| && (PutsIn(r.events[i], v, leq) || TakesOut(r.events[i], v, leq))
               && (forall j | i < j < |r.events| ::
                    !PutsIn(r.events[j], v, leq) && !TakesOut(r.events[j], v, leq))
      ensures AfterEvents(r.events, start, v, leq) <==> !TakesOut(r.events[i], v, leq)
    {
      LastWord(r.events, start, v, leq, i);
    }
    if forall j | 0 <= j < |r.events| :: !PutsIn(r.events[j], v, leq) && !TakesOut(r.events[j], v, leq) {
      NoWord(r.events, start, v, leq);
    }
  }

  // ---- the fixed bounds ----

  function EventsFixed<V>(events: seq<Event<V>>): seq<V> {
    if events == [] then []
    else
      var e := events[|events| - 1];
      EventsFixed(events[..|events| - 1]) + if e.fixed.Some? then [e.fixed.value] else []
  }

  function RangesFixed<V>(ranges: seq<Range<V>>): seq<V> {
    if ranges == [] then [] else RangesFixed(ranges[..|ranges| - 1]) + EventsFixed(ranges[|ranges| - 1].events)
  }

  function AdvisoriesFixed<V>(advisories: seq<Advisory<V>>): seq<V> {
    if advisories == [] then []
    else AdvisoriesFixed(advisories[..|advisories| - 1]) + RangesFixed(advisories[|advisories| - 1].ranges)
  }

  lemma {:induction false} RangesFixedHas<V>(ranges: seq<Range<V>>, i: nat)
    requires i < |ranges|
    ensures forall f | f in EventsFixed(ranges[i].events) :: f in RangesFixed(ranges)
  {
    if i < |ranges| - 1 {
      assert ranges[..|ranges| - 1][i] == ranges[i];
      RangesFixedHas(ranges[..|ranges| - 1], i);
    }
  }

  lemma {:induction false} AdvisoriesFixedHas<V>(advisories: seq<Advisory<V>>, i: nat)
    requires i < |advisories|
    ensures forall f | f in RangesFixed(advisories[i].ranges) :: f in AdvisoriesFixed(advisories)
  {
    if i < |advisories| - 1 {
      assert advisories[..|advisories| - 1][i] == advisories[i];
      AdvisoriesFixedHas(advisories[..|advisories| - 1], i);
    }
  }

  // ---- between fixed bounds a version can only become affected ----

  /** Every last affected bound lies below `x`: at `x` and above it each has ended what came before. */
  ghost predicate LastAffectedBelow<V>(events: seq<Event<V>>, x: V, leq: (V, V) -> bool) {
    forall i | 0 <= i < |events| && events[i].lastAffected.Some? :: !leq(x, events[i].lastAffected.value)
  }

  /** No fixed bound lies above `x` and at or below `y`. */
  ghost predicate NoFixBetween<V>(fixed: seq<V>, x: V, y: V, leq: (V, V) -> bool) {
    forall f | f in fixed :: !(leq(f, y) && !leq(f, x))
  }

  lemma {:induction false} AffectedCarriesUp<V(!new)>(events: seq<Event<V>>, start: bool, x: V, y: V,
                                                          leq: (V, V) -> bool)
    requires TotalOrder(leq) && leq(x, y) && LastAffectedBelow(events, x, leq)
    requires NoFixBetween(EventsFixed(events), x, y, leq)
    ensures AfterEvents(events, start, x, leq) ==> AfterEvents(events, start, y, leq)
  {
    if events != [] {
      var init, e := events[..|events| - 1], events[|events| - 1];
      assert e.fixed.Some? ==> e.fixed.value in EventsFixed(events);
      assert NoFixBetween(EventsFixed(init), x, y, leq);
      AffectedCarriesUp(init, start, x, y, leq);
    }
  }

  lemma RangesCarryUp<V(!new)>(ranges: seq<Range<V>>, x: V, y: V, leq: (V, V) -> bool)
    requires TotalOrder(leq) && leq(x, y) && NoFixBetween(RangesFixed(ranges), x, y, leq)
    requires forall i | 0 <= i < |ranges| :: LastAffectedBelow(ranges[i].events, x, leq)
    ensures AnyRangeAffects(ranges, x, leq) ==> AnyRangeAffects(ranges, y, leq)
  {
    if AnyRangeAffects(ranges, x, leq) {
      var i :| 0 <= i < |ranges| && RangeAffects(ranges[i], x, leq);
      RangesFixedHas(ranges, i);
      AffectedCarriesUp(ranges[i].events, !HasIntroduced(ranges[i].events), x, y, leq);
      assert RangeAffects(ranges[i], y, leq);
    }
  }
}
