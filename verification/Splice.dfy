/** Edits of a file's text: replacing ranges from the back, an npm range in a `package.json`, dropping
    yarn.lock entries (crates/cli/src/fix_managers.rs, crates/cli/src/fix_constraints.rs). */
module Splice {
  import opened Text
  import opened Wrappers

  /** Where some text stands: from `start` up to `end`. */
  datatype Span = Span(start: nat, end: nat)

  /** In order, apart, and inside a text of length `n` from `pos` on. */
  predicate InLine(spans: seq<Span>, pos: nat, n: nat) {
    if spans == [] then pos <= n
    else pos <= spans[0].start <= spans[0].end && InLine(spans[1..], spans[0].end, n)
  }

  /** The text from `pos` on with each span replaced, written out from left to right. */
  function Spliced(text: string, pos: nat, spans: seq<Span>, to: string): string
    requires InLine(spans, pos, |text|)
    decreases |spans|
  {
    InLineFits(spans, pos, |text|);
    if spans == [] then text[pos..]
    else text[pos..spans[0].start] + to + Spliced(text, spans[0].end, spans[1..], to)
  }

  lemma {:induction false} InLineFits(spans: seq<Span>, pos: nat, n: nat)
    requires InLine(spans, pos, n)
    ensures pos <= n && (spans != [] ==> spans[0].end <= n)
    decreases |spans|
  {
    if spans != [] {
      InLineFits(spans[1..], spans[0].end, n);
    }
  }

  /** Up to the first span nothing has changed. */
  lemma SplicedFront(text: string, pos: nat, spans: seq<Span>, to: string, q: nat)
    requires InLine(spans, pos, |text|) && pos <= q <= |text| && InLine(spans, q, |text|)
    ensures var s := Spliced(text, pos, spans, to);
      q - pos <= |s| && s[..q - pos] == text[pos..q] && s[q - pos..] == Spliced(text, q, spans, to)
  {
    InLineFits(spans, pos, |text|);
    if spans != [] {
      InLineFits(spans[1..], spans[0].end, |text|);
      var rest := to + Spliced(text, spans[0].end, spans[1..], to);
      var s := Spliced(text, pos, spans, to);
      assert s == text[pos..spans[0].start] + rest;
      assert text[pos..spans[0].start] == text[pos..q] + text[q..spans[0].start];
      assert Spliced(text, q, spans, to) == text[q..spans[0].start] + rest;
      assert s == text[pos..q] + Spliced(text, q, spans, to);
    } else {
      assert text[pos..] == text[pos..q] + text[q..];
    }
  }

  /** Putting back what already stands there changes nothing. */
  lemma {:induction false} SplicedIdentity(text: string, pos: nat, spans: seq<Span>, to: string)
    requires InLine(spans, pos, |text|)
    requires forall s | s in spans :: s.start <= s.end <= |text| && text[s.start..s.end] == to
    ensures Spliced(text, pos, spans, to) == text[pos..]
    decreases |spans|
  {
    if spans != [] {
      InLineFits(spans, pos, |text|);
      assert spans[0] in spans && forall s | s in spans[1..] :: s in spans;
      SplicedIdentity(text, spans[0].end, spans[1..], to);
      assert text[pos..] == text[pos..spans[0].start] + text[spans[0].start..spans[0].end] + text[spans[0].end..];
    }
  }

  /** Every character outside the spans is kept, moved by what the spans before it grew or shrank. */
  function Shift(spans: seq<Span>, p: nat, width: nat): int {
    if spans == [] || spans[0].end > p then 0
    else (width - (spans[0].end - spans[0].start)) + Shift(spans[1..], p, width)
  }

  lemma {:induction false} OutsideIsKept(text: string, pos: nat, spans: seq<Span>, to: string, p: nat)
    requires InLine(spans, pos, |text|) && pos <= p < |text|
    requires forall s | s in spans :: p < s.start || s.end <= p
    ensures var at := p - pos + Shift(spans, p, |to|);
      0 <= at < |Spliced(text, pos, spans, to)| && Spliced(text, pos, spans, to)[at] == text[p]
    decreases |spans|
  {
    if spans != [] {
      InLineFits(spans, pos, |text|);
      var first, rest := spans[0], spans[1..];
      assert spans == [first] + rest && first in spans && forall s | s in rest :: s in spans;
      var front, more := text[pos..first.start], Spliced(text, first.end, rest, to);
      assert Spliced(text, pos, spans, to) == front + to + more;
      if first.end <= p {
        OutsideIsKept(text, first.end, rest, to, p);
        hide Spliced, Shift, InLine;
        KeptBehind(front + to, more, p - first.end + Shift(rest, p, |to|));
      } else {
        hide Spliced, InLine;
        assert (front + to + more)[p - pos] == front[p - pos] == text[p];
      }
    }
  }

  /** What the first `i` spans grew or shrank. */
  function Grown(spans: seq<Span>, i: nat, width: nat): int
    requires i <= |spans|
  {
    if i == 0 then 0 else (width - (spans[0].end - spans[0].start)) + Grown(spans[1..], i - 1, width)
  }

  /** At `at` the text `s` holds `to`, and `tail` follows to its end. */
  predicate HoldsAt(s: string, at: int, to: string, tail: string) {
    0 <= at && at + |to| <= |s| && s[at..at + |to|] == to && s[at + |to|..] == tail
  }

  /** Each range holds the new text, behind what stood before it and before what follows it. */
  lemma {:induction false} EachRangeHoldsTheText(text: string, pos: nat, spans: seq<Span>, to: string, i: nat)
    requires InLine(spans, pos, |text|) && i < |spans|
    ensures InLine(spans[i + 1..], spans[i].end, |text|)
    ensures HoldsAt(Spliced(text, pos, spans, to), spans[i].start - pos + Grown(spans, i, |to|), to,
                    Spliced(text, spans[i].end, spans[i + 1..], to))
    decreases i
  {
    hide HoldsAt;
    InLineFits(spans, pos, |text|);
    var first, rest := spans[0], spans[1..];
    var before, more := text[pos..first.start], Spliced(text, first.end, rest, to);
    assert Spliced(text, pos, spans, to) == before + to + more;
    if i == 0 {
      HoldsInFront(before, to, more);
    } else {
      EachRangeHoldsTheText(text, first.end, rest, to, i - 1);
      assert rest[i - 1] == spans[i] && rest[i..] == spans[i + 1..];
      hide Spliced, InLine;
      var tail := Spliced(text, spans[i].end, spans[i + 1..], to);
      HoldsBehind(before + to, more, spans[i].start - first.end + Grown(rest, i - 1, |to|), to, tail);
    }
  }

  lemma HoldsInFront(before: string, to: string, more: string)
    ensures HoldsAt(before + to + more, |before|, to, more)
  {
  }

  lemma HoldsBehind(front: string, more: string, at: int, to: string, tail: string)
    requires HoldsAt(more, at, to, tail)
    ensures HoldsAt(front + more, |front| + at, to, tail)
  {
  }

  lemma KeptBehind(front: string, more: string, at: nat)
    requires at < |more|
    ensures (front + more)[|front| + at] == more[at]
  {
  }

  // ---- replacing ranges from the back ----

  /** The ranges of one parse: in bounds, and no two of them overlapping or starting together. */
  ghost predicate Apart(spans: seq<Span>, n: nat) {
    && (forall i | 0 <= i < |spans| :: spans[i].start <= spans[i].end <= n)
    && (forall i, j | 0 <= i < j < |spans| ::
         spans[i].start != spans[j].start && (spans[i].end <= spans[j].start || spans[j].end <= spans[i].start))
  }

  function InsertUp(s: Span, sorted: seq<Span>): seq<Span> {
    if sorted == [] || s.start <= sorted[0].start then [s] + sorted
    else [sorted[0]] + InsertUp(s, sorted[1..])
  }

  /** The ranges by start. */
  function SortUp(spans: seq<Span>): seq<Span> {
    if spans == [] then [] else InsertUp(spans[0], SortUp(spans[1..]))
  }

  function Reversed<T>(s: seq<T>): seq<T> {
    seq(|s|, i requires 0 <= i < |s| => s[|s| - 1 - i])
  }

  lemma {:induction false} InsertUpInLine(s: Span, sorted: seq<Span>, pos: nat, n: nat)
    requires InLine(sorted, pos, n) && pos <= s.start <= s.end <= n
    requires forall t | t in sorted :: t.start <= t.end && t.start != s.start && (s.end <= t.start || t.end <= s.start)
    ensures InLine(InsertUp(s, sorted), pos, n)
    ensures forall t :: t in InsertUp(s, sorted) <==> t == s || t in sorted
    decreases |sorted|
  {
    if sorted != [] {
      var rest := sorted[1..];
      assert sorted == [sorted[0]] + rest && sorted[0] in sorted;
      if sorted[0].start < s.start {
        InsertUpInLine(s, rest, sorted[0].end, n);
      } else {
        assert ([s] + sorted)[1..] == sorted;
      }
    } else {
      assert [s][1..] == [];
    }
  }

  lemma ApartPair(spans: seq<Span>, n: nat, i: nat, j: nat)
    requires Apart(spans, n) && i < j < |spans|
    ensures spans[i].start <= spans[i].end <= n && spans[j].start <= spans[j].end <= n
    ensures spans[i].start != spans[j].start && (spans[i].end <= spans[j].start || spans[j].end <= spans[i].start)
  {
  }

  lemma ApartTail(first: Span, rest: seq<Span>, n: nat)
    requires Apart([first] + rest, n)
    ensures Apart(rest, n)
  {
    var spans := [first] + rest;
    forall i, j | 0 <= i < j < |rest|
      ensures rest[i].start != rest[j].start && (rest[i].end <= rest[j].start || rest[j].end <= rest[i].start)
    {
      hide Apart;
      ApartPair(spans, n, i + 1, j + 1);
    }
    forall i | 0 <= i < |rest|
      ensures rest[i].start <= rest[i].end <= n
    {
      hide Apart;
      ApartPair(spans, n, 0, i + 1);
    }
  }

  lemma ApartFromRest(first: Span, rest: seq<Span>, n: nat)
    requires Apart([first] + rest, n)
    ensures first.start <= first.end <= n
    ensures forall t | t in rest ::
      t.start <= t.end && t.start != first.start && (first.end <= t.start || t.end <= first.start)
  {
    assert ([first] + rest)[0] == first;
    forall t | t in rest
      ensures t.start <= t.end && t.start != first.start && (first.end <= t.start || t.end <= first.start)
    {
      hide Apart;
      var i :| 0 <= i < |rest| && rest[i] == t;
      ApartPair([first] + rest, n, 0, i + 1);
    }
  }

  lemma {:induction false} SortUpInLine(spans: seq<Span>, n: nat)
    requires Apart(spans, n)
    ensures InLine(SortUp(spans), 0, n)
    ensures forall t :: t in SortUp(spans) <==> t in spans
  {
    hide Apart, InLine, InsertUp;
    if spans == [] {
      NothingInLine(n);
    } else {
      var rest := spans[1..];
      assert spans == [spans[0]] + rest;
      ApartFromRest(spans[0], rest, n);
      ApartTail(spans[0], rest, n);
      SortUpInLine(rest, n);
      InsertUpInLine(spans[0], SortUp(rest), 0, n);
    }
  }

  lemma NothingInLine(n: nat)
    ensures InLine([], 0, n)
  {
  }

  lemma {:induction false} InLineTail(spans: seq<Span>, pos: nat, n: nat, m: nat)
    requires InLine(spans, pos, n) && m <= |spans|
    ensures InLine(spans[m..], pos, n)
    ensures m > 0 ==>
      spans[m - 1].start <= spans[m - 1].end && pos <= spans[m - 1].start && InLine(spans[m..], spans[m - 1].end, n)
    decreases m
  {
    InLineFits(spans, pos, n);
    if m == 1 {
      EarlierStart(spans[1..], pos, spans[0].end, n);
    } else if m > 1 {
      InLineTail(spans[1..], spans[0].end, n, m - 1);
      assert spans[1..][m - 1..] == spans[m..];
      EarlierStart(spans[m..], pos, spans[0].end, n);
    } else {
      assert spans[0..] == spans;
    }
  }

  lemma EarlierStart(spans: seq<Span>, pos: nat, later: nat, n: nat)
    requires pos <= later && InLine(spans, later, n)
    ensures InLine(spans, pos, n)
  {
  }

  lemma SpliceOneMore(text: string, up: seq<Span>, m: nat, to: string)
    requires InLine(up, 0, |text|) && 0 < m <= |up|
    requires InLine(up[m..], 0, |text|) && InLine(up[m - 1..], 0, |text|)
    ensures var out := Spliced(text, 0, up[m..], to);
      var s := up[m - 1];
      s.start <= s.end <= |out| && Spliced(text, 0, up[m - 1..], to) == out[..s.start] + to + out[s.end..]
  {
    InLineTail(up, 0, |text|, m);
    var s, rest := up[m - 1], up[m..];
    InLineFits(rest, s.end, |text|);
    SplicedFront(text, 0, rest, to, s.end);
    EarlierStart(rest, s.start, s.end, |text|);
    SplicedFront(text, 0, rest, to, s.start);
    assert up[m - 1..][1..] == rest && up[m - 1..][0] == s;
    assert text[0..s.start] == text[..s.start];
  }

  /** `replaced`: the ranges replaced one by one, the last one in the text first. */
  method Replaced(text: string, spans: seq<Span>, to: string) returns (out: string)
    requires Apart(spans, |text|)
    ensures InLine(SortUp(spans), 0, |text|) && out == Spliced(text, 0, SortUp(spans), to)
  {
    hide SortUp, Spliced, InLine, Apart;
    SortUpInLine(spans, |text|);
    var down := Reversed(SortUp(spans));
    ghost var up := SortUp(spans);
    out := text;
    InLineTail(up, 0, |text|, |up|);
    NothingSpliced(text, up[|up|..], to);
    for i := 0 to |down|
      invariant InLine(up[|up| - i..], 0, |text|) && out == Spliced(text, 0, up[|up| - i..], to)
    {
      var s := down[i];
      InLineTail(up, 0, |text|, |up| - i - 1);
      SpliceOneMore(text, up, |up| - i, to);
      out := out[..s.start] + to + out[s.end..];
    }
    assert up[0..] == up;
  }

  lemma NothingSpliced(text: string, spans: seq<Span>, to: string)
    requires spans == []
    ensures InLine(spans, 0, |text|) && Spliced(text, 0, spans, to) == text
  {
  }

  // ---- an npm range in a package.json ----

  function Quoted(s: string): (q: string)
    ensures q != ""
  {
    "\"" + s + "\""
  }

  function SkipSpaces(text: string, i: nat): (j: nat)
    requires i <= |text|
    ensures i <= j <= |text| && forall k | i <= k < j :: IsSpace(text[k])
    ensures j < |text| ==> !IsSpace(text[j])
    decreases |text| - i
  {
    if i < |text| && IsSpace(text[i]) then SkipSpaces(text, i + 1) else i
  }

  /** Where the value `value` stands when it is what follows a key that ends at `i` and its colon. */
  function ValueAfter(text: string, i: nat, value: string): (r: Option<nat>)
    requires i <= |text|
    ensures r.Some? ==> i <= r.value && At(text, value, r.value)
  {
    var colon := SkipSpaces(text, i);
    if colon == |text| || text[colon] != ':' then None
    else
      var start := SkipSpaces(text, colon + 1);
      if At(text, value, start) then Some(start) else None
  }

  /** A place to edit: the value directly after an occurrence of the key and a colon. */
  ghost predicate Site(text: string, key: string, value: string, s: Span) {
    exists k: nat :: SiteOf(text, key, value, k, s)
  }

  predicate SiteOf(text: string, key: string, value: string, k: nat, s: Span) {
    At(text, key, k) && ValueAfter(text, k + |key|, value) == Some(s.start) && s.end == s.start + |value|
  }

  /** The sites of one scan, each key looked for past the last key or value read. */
  function Sites(text: string, pos: nat, key: string, value: string): (sites: seq<Span>)
    requires pos <= |text| && key != ""
    ensures InLine(sites, pos, |text|)
    decreases |text| - pos
  {
    var at := FindFrom(text, key, pos);
    if at.None? then []
    else
      var end := at.value + |key|;
      var v := ValueAfter(text, end, value);
      if v.None? then
        var rest := Sites(text, end, key, value);
        EarlierStart(rest, pos, end, |text|);
        rest
      else
        var rest := Sites(text, v.value + |value|, key, value);
        var all := [Span(v.value, v.value + |value|)] + rest;
        assert all[1..] == rest;
        all
  }

  lemma FirstSite(text: string, pos: nat, key: string, value: string)
    requires pos <= |text| && key != "" && FindFrom(text, key, pos).Some?
    ensures var at := FindFrom(text, key, pos).value;
      var end := at + |key|;
      var v := ValueAfter(text, end, value);
      && pos <= at && end <= |text|
      && (if v.None? then Sites(text, pos, key, value) == Sites(text, end, key, value)
          else
            var first := Span(v.value, v.value + |value|);
            && SiteOf(text, key, value, at, first) && end <= first.start <= first.end <= |text|
            && text[first.start..first.end] == value
            && Sites(text, pos, key, value) == [first] + Sites(text, first.end, key, value))
  {
  }

  lemma NoSites(text: string, pos: nat, key: string, value: string)
    requires pos <= |text| && key != "" && FindFrom(text, key, pos).None?
    ensures Sites(text, pos, key, value) == []
  {
  }

  lemma {:induction false} SitesAreSites(text: string, pos: nat, key: string, value: string)
    requires pos <= |text| && key != ""
    ensures forall s | s in Sites(text, pos, key, value) ::
      Site(text, key, value, s) && s.start <= s.end <= |text| && text[s.start..s.end] == value
    decreases |text| - pos
  {
    hide Sites, FindFrom, ValueAfter, SiteOf, At, InLine;
    if FindFrom(text, key, pos).None? {
      NoSites(text, pos, key, value);
    } else {
      FirstSite(text, pos, key, value);
      var at := FindFrom(text, key, pos).value;
      var end := at + |key|;
      var v := ValueAfter(text, end, value);
      if v.None? {
        SitesAreSites(text, end, key, value);
      } else {
        SitesAreSites(text, v.value + |value|, key, value);
        assert Site(text, key, value, Span(v.value, v.value + |value|));
      }
    }
  }

  /** A key at `k` that the scan from `pos` passes over: an earlier key reaches over it, or an earlier key's
      site does. */
  ghost predicate Overlapped(text: string, pos: nat, key: string, value: string, k: nat)
    requires pos <= |text| && key != ""
  {
    || (exists k': nat :: At(text, key, k') && pos <= k' < k < k' + |key|)
    || (exists k': nat, s ::
         s in Sites(text, pos, key, value) && SiteOf(text, key, value, k', s) && pos <= k' < k < s.end)
  }

  /** Every value `value` after the key is a site, but for a key that overlaps what was read before it. */
  lemma {:induction false} SitesAreComplete(text: string, pos: nat, key: string, value: string, k: nat, s: Span)
    requires pos <= k <= |text| && key != "" && SiteOf(text, key, value, k, s)
    ensures s in Sites(text, pos, key, value) || Overlapped(text, pos, key, value, k)
    decreases |text| - pos
  {
    hide Sites, FindFrom, ValueAfter, At, InLine;
    FoundNoLater(text, key, pos, k);
    FirstSite(text, pos, key, value);
    var at := FindFrom(text, key, pos).value;
    var end := at + |key|;
    var v := ValueAfter(text, end, value);
    if at < k < end {
      assert At(text, key, at);
    } else if at < k {
      if v.None? {
        SitesAreComplete(text, end, key, value, k, s);
      } else {
        var first := Span(v.value, v.value + |value|);
        assert first in Sites(text, pos, key, value);
        if k >= first.end {
          var more := Sites(text, first.end, key, value);
          assert forall x | x in more :: x in Sites(text, pos, key, value);
          SitesAreComplete(text, first.end, key, value, k, s);
        }
      }
    }
  }

  /** The keys one scan reads, each looked for past the last key or value. */
  function KeysRead(text: string, pos: nat, key: string, value: string): seq<nat>
    requires pos <= |text| && key != ""
    decreases |text| - pos
  {
    var at := FindFrom(text, key, pos);
    if at.None? then [] else [at.value] + KeysRead(text, ReadEnd(text, key, value, at.value), key, value)
  }

  /** Where the scan goes on after reading the key at `k`: past its value when that is to be changed. */
  function ReadEnd(text: string, key: string, value: string, k: nat): (end: nat)
    requires At(text, key, k) && key != ""
    ensures k < k + |key| <= end <= |text|
  {
    var v := ValueAfter(text, k + |key|, value);
    if v.Some? then v.value + |value| else k + |key|
  }

  lemma KeysReadNext(text: string, pos: nat, key: string, value: string)
    requires pos <= |text| && key != ""
    ensures var at := FindFrom(text, key, pos);
      KeysRead(text, pos, key, value) ==
        if at.None? then [] else [at.value] + KeysRead(text, ReadEnd(text, key, value, at.value), key, value)
  {
  }

  lemma SitesNext(text: string, pos: nat, key: string, value: string)
    requires pos <= |text| && key != "" && FindFrom(text, key, pos).Some?
    ensures var at := FindFrom(text, key, pos).value;
      var v := ValueAfter(text, at + |key|, value);
      var rest := Sites(text, ReadEnd(text, key, value, at), key, value);
      && Sites(text, pos, key, value) == (if v.Some? then [Span(v.value, v.value + |value|)] + rest else rest)
      && (v.Some? ==> SiteOf(text, key, value, at, Span(v.value, v.value + |value|)))
      && (v.None? ==> forall s :: !SiteOf(text, key, value, at, s))
  {
    hide Sites, FindFrom, ValueAfter, At, InLine;
    FirstSite(text, pos, key, value);
  }

  /** The sites are those of the keys read. */
  lemma {:induction false} SitesOfKeysRead(text: string, pos: nat, key: string, value: string, s: Span)
    requires pos <= |text| && key != ""
    ensures forall k | k in KeysRead(text, pos, key, value) :: pos <= k && At(text, key, k)
    ensures s in Sites(text, pos, key, value) <==>
      exists k :: k in KeysRead(text, pos, key, value) && SiteOf(text, key, value, k, s)
    decreases |text| - pos
  {
    KeysReadNext(text, pos, key, value);
    if FindFrom(text, key, pos).None? {
      NoSites(text, pos, key, value);
    } else {
      SitesNext(text, pos, key, value);
      var at := FindFrom(text, key, pos).value;
      var end := ReadEnd(text, key, value, at);
      SitesOfKeysRead(text, end, key, value, s);
      hide Sites, KeysRead, FindFrom, ValueAfter, ReadEnd, At;
      OneMoreRead(text, pos, key, value, at, end, s);
    }
  }

  lemma OneMoreRead(text: string, pos: nat, key: string, value: string, at: nat, end: nat, s: Span)
    requires pos <= at < end <= |text| && key != "" && At(text, key, at)
    requires KeysRead(text, pos, key, value) == [at] + KeysRead(text, end, key, value)
    requires s in Sites(text, pos, key, value) <==> SiteOf(text, key, value, at, s) || s in Sites(text, end, key, value)
    requires forall k | k in KeysRead(text, end, key, value) :: end <= k && At(text, key, k)
    requires s in Sites(text, end, key, value) <==>
      exists k :: k in KeysRead(text, end, key, value) && SiteOf(text, key, value, k, s)
    ensures forall k | k in KeysRead(text, pos, key, value) :: pos <= k && At(text, key, k)
    ensures s in Sites(text, pos, key, value) <==>
      exists k :: k in KeysRead(text, pos, key, value) && SiteOf(text, key, value, k, s)
  {
    hide Sites, KeysRead, SiteOf, At;
    var all, rest := KeysRead(text, pos, key, value), KeysRead(text, end, key, value);
    assert forall k :: k in all <==> k == at || k in rest;
  }

  /** A key is read exactly when no key read before it is still being read where it stands. */
  lemma {:induction false} KeysReadExactly(text: string, pos: nat, key: string, value: string, k: nat)
    requires pos <= k <= |text| && key != "" && At(text, key, k)
    ensures forall j | j in KeysRead(text, pos, key, value) :: At(text, key, j)
    ensures k in KeysRead(text, pos, key, value) <==>
      forall j | j in KeysRead(text, pos, key, value) && j < k :: ReadEnd(text, key, value, j) <= k
    decreases |text| - pos
  {
    hide Sites, KeysRead, FindFrom, ValueAfter, At, ReadEnd;
    SitesOfKeysRead(text, pos, key, value, Span(0, 0));
    KeysReadNext(text, pos, key, value);
    FoundNoLater(text, key, pos, k);
    var at := FindFrom(text, key, pos).value;
    var end := ReadEnd(text, key, value, at);
    var all, rest := KeysRead(text, pos, key, value), KeysRead(text, end, key, value);
    assert forall j :: j in all <==> j == at || j in rest;
    SitesOfKeysRead(text, end, key, value, Span(0, 0));
    if end <= k {
      KeysReadExactly(text, end, key, value, k);
    }
  }

  lemma QuotedShape(s: string)
    ensures |Quoted(s)| >= 2 && Quoted(s)[0] == '"' && Quoted(s)[|Quoted(s)| - 1] == '"'
  {
  }

  /** Only one key stands directly before a value. */
  lemma OneKeyBefore(text: string, key: string, value: string, j: nat, k: nat, s: Span)
    requires key != "" && !IsSpace(key[|key| - 1])
    requires SiteOf(text, key, value, j, s) && SiteOf(text, key, value, k, s) && j <= k
    ensures j == k
  {
    assert !IsSpace(':');
    assert text[k..k + |key|][|key| - 1] == text[k + |key| - 1];
  }

  /** Between a key and the value after it stand white space and one colon. */
  lemma BetweenKeyAndValue(text: string, i: nat, value: string, k: nat)
    requires i <= |text| && ValueAfter(text, i, value).Some? && i <= k < ValueAfter(text, i, value).value
    ensures k < |text| && (IsSpace(text[k]) || text[k] == ':')
  {
    hide At;
  }

  /** Quoted texts without quotes of their own overlap at a shared quote only, but for a key that is itself the
      value: what an earlier key's reading reaches over is its own closing quote, its value's, or its value. */
  lemma OverlapIsASharedQuote(text: string, package: string, range: string, j: nat, k: nat)
    requires '"' !in package && '"' !in range
    requires At(text, Quoted(package), j) && At(text, Quoted(package), k)
    requires j < k < ReadEnd(text, Quoted(package), Quoted(range), j)
    ensures var (key, value) := (Quoted(package), Quoted(range));
      var v := ValueAfter(text, j + |key|, value);
      || k == j + |key| - 1
      || (v.Some? && (k == v.value + |value| - 1 || (k == v.value && package == range)))
  {
    hide ValueAfter;
    var key, value := Quoted(package), Quoted(range);
    var v := ValueAfter(text, j + |key|, value);
    QuoteInside(text, package, k, 0);
    assert !IsSpace('"');
    if k < j + |key| {
      QuoteInside(text, package, j, k - j);
    } else if k < v.value {
      BetweenKeyAndValue(text, j + |key|, value, k);
    } else {
      QuoteInside(text, range, v.value, k - v.value);
      if k == v.value {
        SameQuoted(text, package, range, k);
      }
    }
  }

  /** A quoted text has a quote at its two ends only. */
  lemma QuoteInside(text: string, s: string, at: nat, i: nat)
    requires '"' !in s && At(text, Quoted(s), at) && i < |Quoted(s)|
    ensures at + i < |text| && (text[at + i] == '"' <==> i == 0 || i == |Quoted(s)| - 1)
  {
    assert text[at..at + |Quoted(s)|][i] == text[at + i];
    assert 0 < i < |Quoted(s)| - 1 ==> Quoted(s)[i] == s[i - 1] && s[i - 1] in s;
  }

  lemma SameQuoted(text: string, a: string, b: string, at: nat)
    requires '"' !in a && '"' !in b && At(text, Quoted(a), at) && At(text, Quoted(b), at)
    ensures a == b
  {
    QuoteInside(text, a, at, |Quoted(a)| - 1);
    QuoteInside(text, b, at, |Quoted(b)| - 1);
    if |a| < |b| {
      QuoteInside(text, b, at, |Quoted(a)| - 1);
    } else if |b| < |a| {
      QuoteInside(text, a, at, |Quoted(b)| - 1);
    }
    assert Quoted(a)[1..|a| + 1] == a && Quoted(b)[1..|b| + 1] == b;
  }

  /** Exactly which values of the range are changed: the one after the key at `k` is, unless a key read before
      it is still being read there. */
  lemma SitesExactly(text: string, package: string, range: string, k: nat, s: Span)
    requires k <= |text| && SiteOf(text, Quoted(package), Quoted(range), k, s)
    ensures var (key, value) := (Quoted(package), Quoted(range));
      var read := KeysRead(text, 0, key, value);
      && (forall j | j in read :: At(text, key, j))
      && (s in Sites(text, 0, key, value) <==> forall j | j in read && j < k :: ReadEnd(text, key, value, j) <= k)
  {
    var key, value := Quoted(package), Quoted(range);
    QuotedShape(package);
    hide Quoted, Sites, KeysRead, ReadEnd, ValueAfter;
    assert At(text, key, k);
    KeysReadExactly(text, 0, key, value, k);
    SitesOfKeysRead(text, 0, key, value, s);
    assert !IsSpace('"');
    forall j | j in KeysRead(text, 0, key, value) && SiteOf(text, key, value, j, s)
      ensures j == k
    {
      if j <= k {
        OneKeyBefore(text, key, value, j, k, s);
      } else {
        OneKeyBefore(text, key, value, k, j, s);
      }
    }
  }

  lemma FoundNoLater(text: string, key: string, pos: nat, k: nat)
    requires pos <= k <= |text| && At(text, key, k)
    ensures FindFrom(text, key, pos).Some? && FindFrom(text, key, pos).value <= k
    ensures At(text, key, FindFrom(text, key, pos).value)
  {
  }

  lemma SplicedCons(text: string, pos: nat, first: Span, rest: seq<Span>, to: string)
    requires InLine([first] + rest, pos, |text|)
    ensures pos <= first.start <= |text| && InLine(rest, first.end, |text|)
    ensures Spliced(text, pos, [first] + rest, to) == text[pos..first.start] + to + Spliced(text, first.end, rest, to)
  {
    assert ([first] + rest)[1..] == rest;
    InLineFits([first] + rest, pos, |text|);
  }

  /** What is left to write at `pos`. */
  ghost function Left(text: string, pos: nat, key: string, value: string, to: string): string
    requires pos <= |text| && key != ""
  {
    Spliced(text, pos, Sites(text, pos, key, value), to)
  }

  /** By the next key and whether its value is to be changed. */
  lemma SiteNext(text: string, pos: nat, key: string, value: string, to: string)
    requires pos <= |text| && key != ""
    ensures var at := FindFrom(text, key, pos);
      var left := Left(text, pos, key, value, to);
      if at.None? then left == text[pos..]
      else
        var end := at.value + |key|;
        && pos <= end <= |text|
        && var v := ValueAfter(text, end, value);
          if v.None? then left == text[pos..end] + Left(text, end, key, value, to)
          else
            var next := v.value + |value|;
            && end <= v.value && next <= |text|
            && left == text[pos..end] + text[end..v.value] + to + Left(text, next, key, value, to)
  {
    hide Sites, FindFrom, ValueAfter, SiteOf, At, InLine, Spliced;
    var at := FindFrom(text, key, pos);
    if at.None? {
      NoSites(text, pos, key, value);
      NothingLeft(text, pos, to);
    } else {
      FirstSite(text, pos, key, value);
      var end := at.value + |key|;
      var v := ValueAfter(text, end, value);
      if v.None? {
        SplicedFront(text, pos, Sites(text, end, key, value), to, end);
        var s := Spliced(text, pos, Sites(text, pos, key, value), to);
        assert s == s[..end - pos] + s[end - pos..];
      } else {
        var first := Span(v.value, v.value + |value|);
        SplicedCons(text, pos, first, Sites(text, first.end, key, value), to);
        assert text[pos..v.value] == text[pos..end] + text[end..v.value];
      }
    }
  }

  lemma NothingLeft(text: string, pos: nat, to: string)
    requires pos <= |text|
    ensures InLine([], pos, |text|) && Spliced(text, pos, [], to) == text[pos..]
  {
  }

  /** `with_npm_range`: one pass over the text, copying it with each site's value changed. */
  method WithNpmRange(text: string, package: string, range: string, raised: string) returns (out: string)
    ensures out == Spliced(text, 0, Sites(text, 0, Quoted(package), Quoted(range)), Quoted(raised))
  {
    var key, value, to := Quoted(package), Quoted(range), Quoted(raised);
    hide Sites, Spliced, ValueAfter, FindFrom, Quoted, At, Left, InLine;
    var pos: nat := 0;
    out := "";
    ghost var all := Left(text, 0, key, value, to);
    assert all == Spliced(text, 0, Sites(text, 0, key, value), to) by {
      LeftIsSpliced(text, key, value, to);
    }
    while true
      invariant pos <= |text|
      invariant out + Left(text, pos, key, value, to) == all
      decreases |text| - pos
    {
      SiteNext(text, pos, key, value, to);
      var at := FindFrom(text, key, pos);
      if at.None? {
        break;
      }
      StaysInside(text, key, at.value);
      var end := at.value + |key|;
      var v := ValueAfter(text, end, value);
      if v.Some? {
        StaysInside(text, value, v.value);
        Regrouped(out, text[pos..end], text[end..v.value] + to, Left(text, v.value + |value|, key, value, to));
        Regrouped(text[pos..end], text[end..v.value], to, Left(text, v.value + |value|, key, value, to));
      } else {
        Regrouped(out, text[pos..end], "", Left(text, end, key, value, to));
      }
      out := out + text[pos..end];
      pos := end;
      if v.Some? {
        out := out + (text[end..v.value] + to);
        pos := v.value + |value|;
      }
    }
    out := out + text[pos..];
  }

  lemma LeftIsSpliced(text: string, key: string, value: string, to: string)
    requires key != ""
    ensures Left(text, 0, key, value, to) == Spliced(text, 0, Sites(text, 0, key, value), to)
  {
  }

  lemma Regrouped(a: string, b: string, c: string, d: string)
    ensures a + (b + c + d) == (a + b + c) + d == (a + b) + (c + d)
    ensures a + (b + d) == (a + b) + d
    ensures (a + b) + c + d == (a + (b + c)) + d
  {
  }

  lemma StaysInside(text: string, part: string, i: nat)
    requires At(text, part, i)
    ensures i + |part| <= |text|
  {
  }

  /** Raising a range to itself leaves the file as it is. */
  lemma RaisingToItselfChangesNothing(text: string, package: string, range: string)
    ensures Spliced(text, 0, Sites(text, 0, Quoted(package), Quoted(range)), Quoted(range)) == text
  {
    var sites := Sites(text, 0, Quoted(package), Quoted(range));
    SitesAreSites(text, 0, Quoted(package), Quoted(range));
    SplicedIdentity(text, 0, sites, Quoted(range));
  }

  // ---- yarn.lock entries ----

  /** A line of a classic yarn.lock: the key line of an entry, a line indented under one, or another. */
  datatype Kind = KeyLine | Indented | Other

  function KindOf(line: string): Kind {
    if line != "" && line[0] == ' ' then Indented
    else if line != "" && line[0] == '#' then Other
    else if Trim(line) == "" then Other
    else KeyLine
  }

  function TrimColons(s: string): string {
    if s != [] && s[|s| - 1] == ':' then TrimColons(s[..|s| - 1]) else s
  }

  function TrimQuotes(s: string): string {
    if s != [] && s[0] == '"' then TrimQuotes(s[1..])
    else if s != [] && s[|s| - 1] == '"' then TrimQuotes(s[..|s| - 1])
    else s
  }

  predicate Asks(spec: string, package: string) {
    var bare := TrimQuotes(spec);
    package <= bare && |package| < |bare| && bare[|package|] == '@'
  }

  /** Whether a key line names the package at any range. */
  predicate Names(line: string, package: string) {
    var specs := SplitText(TrimColons(TrimEnd(line)), ", ");
    exists i :: 0 <= i < |specs| && Asks(specs[i], package)
  }

  /** The line opens an entry of the package. */
  predicate Opens(line: string, package: string) {
    KindOf(line) == KeyLine && Names(line, package)
  }

  /** Line `i` stands in an entry of the package: under its key line with only indented lines between. */
  ghost predicate InEntry(lines: seq<string>, package: string, i: nat) {
    i < |lines| &&
    exists k :: 0 <= k <= i && Opens(lines[k], package) && forall j | k < j <= i :: KindOf(lines[j]).Indented?
  }

  ghost function Kept(lines: seq<string>, package: string): seq<string> {
    if lines == [] then []
    else
      var z := |lines| - 1;
      Kept(lines[..z], package) + if InEntry(lines, package, z) then [] else [lines[z]]
  }

  lemma InEntryLast(lines: seq<string>, package: string, i: nat)
    requires i < |lines|
    ensures InEntry(lines, package, i) <==> InEntry(lines[..i + 1], package, i)
    ensures InEntry(lines, package, i) <==>
      if KindOf(lines[i]).Indented? then i > 0 && InEntry(lines[..i], package, i - 1) else Opens(lines[i], package)
  {
    hide KindOf, Names;
    var upTo := lines[..i + 1];
    assert forall j | 0 <= j <= i :: upTo[j] == lines[j];
    if i > 0 {
      var before := lines[..i];
      assert forall j | 0 <= j < i :: before[j] == lines[j];
    }
  }

  /** `without_yarn_entries`: one pass over the lines with a flag for being inside a dropped entry. */
  method WithoutYarnEntries(lines: seq<string>, package: string) returns (out: seq<string>)
    ensures out == Kept(lines, package)
  {
    hide KindOf, Names, InEntry;
    out := [];
    var dropping := false;
    for i := 0 to |lines|
      invariant out == Kept(lines[..i], package)
      invariant dropping <==> i > 0 && InEntry(lines[..i], package, i - 1)
    {
      var line := lines[i];
      var kind := KindOf(line);
      InEntryLast(lines, package, i);
      assert lines[..i + 1][..i] == lines[..i];
      if kind.KeyLine? {
        dropping := Names(line, package);
      } else if !kind.Indented? {
        dropping := false;
      }
      if !dropping {
        out := out + [line];
      }
    }
    assert lines[..|lines|] == lines;
  }

  lemma {:induction false} KeptHasNoEntry(lines: seq<string>, package: string)
    ensures forall line | line in Kept(lines, package) :: !Opens(line, package)
    ensures forall line | line in Kept(lines, package) :: line in lines
  {
    if lines != [] {
      hide KindOf, Names;
      var z := |lines| - 1;
      assert lines == lines[..z] + [lines[z]];
      KeptHasNoEntry(lines[..z], package);
      assert Opens(lines[z], package) ==> InEntry(lines, package, z);
    }
  }

  lemma {:induction false} NothingToDrop(lines: seq<string>, package: string)
    requires forall line | line in lines :: !Opens(line, package)
    ensures Kept(lines, package) == lines
  {
    if lines != [] {
      hide KindOf, Names, Opens;
      var z := |lines| - 1;
      assert lines == lines[..z] + [lines[z]];
      NothingToDrop(lines[..z], package);
      assert forall k | 0 <= k <= z :: lines[k] in lines;
    }
  }

  /** What is left names the package nowhere, and dropping again drops nothing more. */
  lemma DroppingOnceIsEnough(lines: seq<string>, package: string)
    ensures forall line | line in Kept(lines, package) :: !Opens(line, package)
    ensures Kept(Kept(lines, package), package) == Kept(lines, package)
  {
    KeptHasNoEntry(lines, package);
    NothingToDrop(Kept(lines, package), package);
  }

  // ---- a declared version against a reported one ----

  function WithoutZeros(core: string): string {
    if |core| >= 2 && core[|core| - 2..] == ".0" then WithoutZeros(core[..|core| - 2]) else core
  }

  function WithZeros(core: string, n: nat): string {
    if n == 0 then core else WithZeros(core, n - 1) + ".0"
  }

  /** The version's numbers, and what follows them from the first dash or plus on. */
  function SuffixAt(version: string): (n: nat)
    ensures n <= |version|
  {
    if version == [] || version[0] == '-' || version[0] == '+' then 0 else 1 + SuffixAt(version[1..])
  }

  /** One version to NuGet and Maven: the same numbers up to trailing zeros, and the same suffix. */
  ghost predicate SameVersion(a: string, b: string) {
    var x, y := a[..SuffixAt(a)], b[..SuffixAt(b)];
    a[SuffixAt(a)..] == b[SuffixAt(b)..] && SameNumbers(x, y)
  }

  ghost predicate SameNumbers(x: string, y: string) {
    exists m: nat, n: nat :: WithZeros(x, m) == WithZeros(y, n)
  }

  lemma {:induction false} WithoutWithZeros(core: string, n: nat)
    ensures WithoutZeros(WithZeros(core, n)) == WithoutZeros(core)
  {
    if n > 0 {
      WithoutWithZeros(core, n - 1);
      var s := WithZeros(core, n);
      assert s[|s| - 2..] == ".0" && s[..|s| - 2] == WithZeros(core, n - 1);
    }
  }

  lemma {:induction false} WithZerosBack(core: string) returns (n: nat)
    ensures WithZeros(WithoutZeros(core), n) == core
  {
    n := 0;
    if |core| >= 2 && core[|core| - 2..] == ".0" {
      var m := WithZerosBack(core[..|core| - 2]);
      n := m + 1;
      assert core == core[..|core| - 2] + ".0";
    }
  }

  lemma {:induction false} WithZerosAdds(core: string, m: nat, n: nat)
    ensures WithZeros(WithZeros(core, m), n) == WithZeros(core, m + n)
  {
    if n > 0 {
      WithZerosAdds(core, m, n - 1);
    }
  }

  lemma WithoutZerosDecides(x: string, y: string)
    ensures WithoutZeros(x) == WithoutZeros(y) <==> SameNumbers(x, y)
  {
    if WithoutZeros(x) == WithoutZeros(y) {
      var p := WithZerosBack(x);
      var q := WithZerosBack(y);
      WithZerosAdds(WithoutZeros(x), p, q);
      WithZerosAdds(WithoutZeros(y), q, p);
      assert WithZeros(x, q) == WithZeros(y, p);
    }
    if m: nat, n: nat :| WithZeros(x, m) == WithZeros(y, n) {
      WithoutWithZeros(x, m);
      WithoutWithZeros(y, n);
    }
  }

  lemma SameVersionDecided(a: string, b: string)
    ensures SameVersion(a, b) <==>
      a[SuffixAt(a)..] == b[SuffixAt(b)..] &&
      WithoutZeros(a[..SuffixAt(a)]) == WithoutZeros(b[..SuffixAt(b)])
  {
    WithoutZerosDecides(a[..SuffixAt(a)], b[..SuffixAt(b)]);
  }

  lemma {:induction false} SuffixStarts(core: string, suffix: string)
    requires '-' !in core && '+' !in core && (suffix == "" || suffix[0] in "-+")
    ensures SuffixAt(core + suffix) == |core|
  {
    if core == "" {
      assert core + suffix == suffix;
    } else {
      assert core[0] in core && (core + suffix)[1..] == core[1..] + suffix;
      assert forall c | c in core[1..] :: c in core;
      SuffixStarts(core[1..], suffix);
    }
  }

  /** Versions cut at their first dash or plus are the same when what follows is the same text and the numbers before it
      differ in trailing zero parts alone. */
  lemma SameVersionInParts(core: string, suffix: string, core': string, suffix': string)
    requires '-' !in core && '+' !in core && (suffix == "" || suffix[0] in "-+")
    requires '-' !in core' && '+' !in core' && (suffix' == "" || suffix'[0] in "-+")
    ensures SameVersion(core + suffix, core' + suffix') <==> suffix == suffix' && SameNumbers(core, core')
  {
    SuffixStarts(core, suffix);
    SuffixStarts(core', suffix');
    assert (core + suffix)[..|core|] == core && (core + suffix)[|core|..] == suffix;
    assert (core' + suffix')[..|core'|] == core' && (core' + suffix')[|core'|..] == suffix';
    hide SuffixAt, SameNumbers;
  }

  /** The inner `parts` of `version_is`. */
  method VersionParts(version: string) returns (core: string, suffix: string)
    ensures core == WithoutZeros(version[..SuffixAt(version)]) && suffix == version[SuffixAt(version)..]
  {
    var end := SuffixAt(version);
    core, suffix := version[..end], version[end..];
    while |core| >= 2 && core[|core| - 2..] == ".0"
      invariant WithoutZeros(core) == WithoutZeros(version[..end])
      decreases |core|
    {
      core := core[..|core| - 2];
    }
  }

  /** `version_is`. */
  method VersionIs(declared: string, from: seq<string>) returns (same: bool)
    ensures same <==> exists i :: 0 <= i < |from| && SameVersion(from[i], declared)
  {
    hide SameVersion;
    var core, suffix := VersionParts(declared);
    for i := 0 to |from|
      invariant forall k | 0 <= k < i :: !SameVersion(from[k], declared)
    {
      var c, s := VersionParts(from[i]);
      SameVersionDecided(from[i], declared);
      if c == core && s == suffix {
        return true;
      }
    }
    return false;
  }
}
