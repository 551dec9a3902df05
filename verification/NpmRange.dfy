/** npm ranges (crates/cli/src/fix_constraints.rs): range sugar read as plain comparators, and which
    versions a range takes. */
module NpmRange {
  import opened Decimal
  import opened SemVer
  import opened Text
  import opened Wrappers

  /** node-semver's limit on a version number. */
  const MAX_SAFE_INTEGER: nat := 9007199254740991

  /** A possibly partial version: `1`, `1.2`, `1.x`, `1.2.3-rc.1`. */
  datatype Partial = Partial(a: Option<nat>, b: Option<nat>, c: Option<nat>, pre: string)
  {
    function Known(): nat {
      (if a.Some? then 1 else 0) + (if b.Some? then 1 else 0) + (if c.Some? then 1 else 0)
    }

    /** The numbers given come first. */
    predicate InOrder() {
      (c.Some? ==> b.Some?) && (b.Some? ==> a.Some?)
    }

    /** Filled with zeros, keeping the prerelease only when the version was whole. */
    function Floor(): Option<Version> {
      var release := Version(Zero(a), Zero(b), Zero(c), []);
      if c.None? || pre == "" then Some(release)
      else
        var parsed := ParsePre(pre);
        if parsed.None? then None else Some(release.(pre := parsed.value))
    }

    /** The first version past what the first `kept` parts name, below every prerelease of it. */
    function After(kept: nat): Version {
      if kept == 1 then Version(Zero(a) + 1, 0, 0, LOWEST)
      else if kept == 2 then Version(Zero(a), Zero(b) + 1, 0, LOWEST)
      else Version(Zero(a), Zero(b), Zero(c) + 1, LOWEST)
    }
  }

  function Zero(n: Option<nat>): nat {
    if n.Some? then n.value else 0
  }

  // ---- reading a partial version ----

  datatype Part = Wild | Number(n: nat) | Unreadable

  function PartOf(s: string): Part {
    if s == "x" || s == "X" || s == "*" then Wild
    else if |s| > 1 && s[0] == '0' then Unreadable
    else if s != "" && AllDigits(s) && Value(s) <= MAX_SAFE_INTEGER then Number(Value(s))
    else Unreadable
  }

  /** The numbers of the parts; every one after a wildcard is left open. */
  function Numbers(parts: seq<string>, wild: bool): Option<seq<Option<nat>>> {
    if parts == [] then Some([])
    else
      var part := PartOf(parts[0]);
      var rest := Numbers(parts[1..], wild || part.Wild?);
      if part.Unreadable? || rest.None? then None
      else Some([if part.Number? && !wild then Some(part.n) else None] + rest.value)
  }

  function Slot(numbers: seq<Option<nat>>, i: nat): Option<nat> {
    if i < |numbers| then numbers[i] else None
  }

  function TrimMarks(s: string): string {
    if s != [] && (s[0] == 'v' || s[0] == '=') then TrimMarks(s[1..]) else s
  }

  function PartialOf(text: string): Option<Partial> {
    var marked := TrimMarks(Trim(text));
    var t := marked[..FirstIndex(marked, '+')];
    var d := FirstIndex(t, '-');
    var parts := SplitChar(t[..d], '.');
    var numbers := Numbers(parts, false);
    if |parts| > 3 || numbers.None? then None
    else Some(Partial(Slot(numbers.value, 0), Slot(numbers.value, 1), Slot(numbers.value, 2),
                      if d == |t| then "" else t[d + 1..]))
  }

  lemma {:induction false} NumbersLength(parts: seq<string>, wild: bool)
    ensures Numbers(parts, wild).Some? ==> |Numbers(parts, wild).value| == |parts|
    ensures Numbers(parts, true).Some? ==> forall i | 0 <= i < |parts| :: Slot(Numbers(parts, true).value, i).None?
  {
    if parts != [] {
      NumbersLength(parts[1..], wild || PartOf(parts[0]).Wild?);
      NumbersLength(parts[1..], true);
      if Numbers(parts, true).Some? {
        var ns, rest := Numbers(parts, true).value, Numbers(parts[1..], true).value;
        forall i | 0 <= i < |parts|
          ensures Slot(ns, i).None?
        {
          assert i > 0 ==> Slot(ns, i) == Slot(rest, i - 1);
        }
      }
    }
  }

  function Append(numbers: seq<Option<nat>>, rest: Option<seq<Option<nat>>>): Option<seq<Option<nat>>> {
    if rest.None? then None else Some(numbers + rest.value)
  }

  lemma AppendStep(numbers: seq<Option<nat>>, parts: seq<string>, i: nat, wild: bool)
    requires i < |parts|
    ensures var part := PartOf(parts[i]);
      Append(numbers, Numbers(parts[i..], wild)) ==
      if part.Unreadable? then None
      else Append(numbers + [if part.Number? && !wild then Some(part.n) else None],
                  Numbers(parts[i + 1..], wild || part.Wild?))
  {
    assert parts[i..][1..] == parts[i + 1..];
    var part := PartOf(parts[i]);
    var rest := Numbers(parts[i + 1..], wild || part.Wild?);
    var x := if part.Number? && !wild then Some(part.n) else None;
    if !part.Unreadable? && rest.Some? {
      assert numbers + ([x] + rest.value) == numbers + [x] + rest.value;
    }
  }

  lemma {:induction false} NumbersComeFirst(parts: seq<string>, wild: bool)
    requires Numbers(parts, wild).Some?
    ensures var ns := Numbers(parts, wild).value;
      |ns| == |parts| && forall i | 0 <= i < |ns| - 1 :: ns[i + 1].Some? ==> ns[i].Some?
  {
    hide PartOf;
    NumbersLength(parts, wild);
    if parts != [] {
      var next := wild || PartOf(parts[0]).Wild?;
      NumbersComeFirst(parts[1..], next);
      NumbersLength(parts[1..], next);
      var ns, rest := Numbers(parts, wild).value, Numbers(parts[1..], next).value;
      assert next ==> forall i | 0 <= i < |rest| :: Slot(rest, i).None?;
      assert forall i | 0 <= i < |rest| :: ns[i + 1] == rest[i] && Slot(rest, i) == rest[i];
    }
  }

  lemma PartialInOrder(text: string)
    ensures PartialOf(text).Some? ==> PartialOf(text).value.InOrder()
  {
    if PartialOf(text).Some? {
      var marked := TrimMarks(Trim(text));
      var t := marked[..FirstIndex(marked, '+')];
      var parts := SplitChar(t[..FirstIndex(t, '-')], '.');
      NumbersComeFirst(parts, false);
    }
  }

  /** `Partial::parse`: one pass over the dotted parts, with a flag for a wildcard met. */
  method ParsePartial(text: string) returns (r: Option<Partial>)
    ensures r == PartialOf(text)
  {
    var marked := TrimMarks(Trim(text));
    var t := marked[..FirstIndex(marked, '+')];
    var d := FirstIndex(t, '-');
    var parts := SplitChar(t[..d], '.');
    if |parts| > 3 {
      return None;
    }
    var numbers: seq<Option<nat>> := [];
    var wild := false;
    assert parts[0..] == parts;
    NumbersLength(parts, false);
    assert Numbers(parts, false).Some? ==> [] + Numbers(parts, false).value == Numbers(parts, false).value;
    for i := 0 to |parts|
      invariant |numbers| == i
      invariant Numbers(parts, false) == Append(numbers, Numbers(parts[i..], wild))
    {
      var part := PartOf(parts[i]);
      AppendStep(numbers, parts, i, wild);
      match part {
        case Wild =>
          wild := true;
          numbers := numbers + [None];
        case Number(n) =>
          numbers := numbers + [if wild then None else Some(n)];
        case Unreadable =>
          return None;
      }
    }
    return Some(Partial(Slot(numbers, 0), Slot(numbers, 1), Slot(numbers, 2), if d == |t| then "" else t[d + 1..]));
  }

  // ---- comparators ----

  datatype Op = Lt | Le | Gt | Ge | Eq

  datatype Comparator = Comparator(op: Op, bound: Version)

  predicate Holds(c: Comparator, v: Version) {
    var order := CompareVersion(v, c.bound);
    match c.op
    case Lt => order < 0
    case Le => order <= 0
    case Gt => order > 0
    case Ge => order >= 0
    case Eq => order == 0
  }

  datatype Mark = Bare | Exactly | Caret | Tilde | AtLeast | Above | Below | AtMost

  predicate HasPrefix(s: string, prefix: string) {
    prefix <= s
  }

  function SplitMark(token: string): (Mark, string) {
    if HasPrefix(token, "<=") then (AtMost, token[2..])
    else if HasPrefix(token, ">=") then (AtLeast, token[2..])
    else if HasPrefix(token, "<") then (Below, token[1..])
    else if HasPrefix(token, ">") then (Above, token[1..])
    else if HasPrefix(token, "=") then (Exactly, token[1..])
    else if HasPrefix(token, "^") then (Caret, token[1..])
    else if HasPrefix(token, "~>") then (Tilde, token[2..])
    else if HasPrefix(token, "~") then (Tilde, token[1..])
    else (Bare, token)
  }

  /** How many parts a caret keeps. */
  function CaretKeeps(p: Partial): nat {
    if Zero(p.a) != 0 then 1
    else if p.b.None? then 1
    else if p.b.value != 0 then 2
    else if p.c.None? then 2
    else 3
  }

  function Between(floor: Version, top: Version): seq<Comparator> {
    [Comparator(Ge, floor), Comparator(Lt, top)]
  }

  /** `^`, `~`, a bare version or a comparison, as plain comparators. */
  function Desugar(mark: Mark, p: Partial): Option<seq<Comparator>> {
    var known := p.Known();
    var read := p.Floor();
    if read.None? then None
    else
      var floor := read.value;
      Some(
        if known == 0 then
          (if mark == Above || mark == Below then [Comparator(Lt, Version(0, 0, 0, LOWEST))] else [])
        else match mark
          case Bare | Exactly => if known == 3 then [Comparator(Eq, floor)] else Between(floor, p.After(known))
          case Caret => Between(floor, p.After(CaretKeeps(p)))
          case Tilde => Between(floor, p.After(if known < 2 then known else 2))
          case AtLeast => [Comparator(Ge, floor)]
          case Above => if known == 3 then [Comparator(Gt, floor)] else [Comparator(Ge, p.After(known).(pre := []))]
          case Below => [Comparator(Lt, floor)]
          case AtMost => if known == 3 then [Comparator(Le, floor)] else [Comparator(Lt, p.After(known))])
  }

  function ComparatorsOf(token: string): Option<seq<Comparator>> {
    var (mark, rest) := SplitMark(token);
    var p := PartialOf(rest);
    if p.None? then None else Desugar(mark, p.value)
  }

  function HyphenSet(low: Partial, high: Partial): Option<seq<Comparator>> {
    var floor, top := low.Floor(), high.Floor();
    if floor.None? then None
    else if high.Known() == 0 then Some([Comparator(Ge, floor.value)])
    else if high.Known() == 3 then
      if top.None? then None else Some([Comparator(Ge, floor.value), Comparator(Le, top.value)])
    else Some(Between(floor.value, high.After(high.Known())))
  }

  predicate OnlyMarks(word: string) {
    forall i | 0 <= i < |word| :: word[i] in "<>=^~"
  }

  /** The tokens of a set and the operator still waiting for its version. */
  function Tokens(words: seq<string>): (seq<string>, string) {
    if words == [] then ([], "")
    else
      var (tokens, pending) := Tokens(words[..|words| - 1]);
      var word := words[|words| - 1];
      if OnlyMarks(word) then (tokens, pending + word) else (tokens + [pending + word], "")
  }

  function AllComparators(tokens: seq<string>): Option<seq<Comparator>> {
    if tokens == [] then Some([])
    else
      var before := AllComparators(tokens[..|tokens| - 1]);
      var last := ComparatorsOf(tokens[|tokens| - 1]);
      if before.None? || last.None? then None else Some(before.value + last.value)
  }

  /** One `||` part of a range. */
  function SetOf(text: string): Option<seq<Comparator>> {
    var hyphen := Find(text, " - ");
    if hyphen.Some? then
      var low, high := PartialOf(text[..hyphen.value]), PartialOf(text[hyphen.value + 3..]);
      if low.None? || high.None? then None else HyphenSet(low.value, high.value)
    else AllComparators(Tokens(Words(text)).0)
  }

  /** A prerelease counts only against a comparator on the same version that has one. */
  predicate Fits(comparators: seq<Comparator>, v: Version) {
    && (forall i | 0 <= i < |comparators| :: Holds(comparators[i], v))
    && (v.pre != [] ==> exists i :: 0 <= i < |comparators| && SamePrerelease(comparators[i].bound, v))
  }

  predicate SamePrerelease(bound: Version, v: Version) {
    bound.pre != [] && bound.major == v.major && bound.minor == v.minor && bound.patch == v.patch
  }

  method Comparators(token: string) returns (r: Option<seq<Comparator>>)
    ensures r == ComparatorsOf(token)
  {
    var (mark, rest) := SplitMark(token);
    var p := ParsePartial(rest);
    return if p.None? then None else Desugar(mark, p.value);
  }

  /** `comparator_set`. */
  method ComparatorSet(text: string) returns (r: Option<seq<Comparator>>)
    ensures r == SetOf(text)
  {
    hide PartialOf, ComparatorsOf, HyphenSet, Words, Find, OnlyMarks;
    var hyphen := Find(text, " - ");
    if hyphen.Some? {
      var low := ParsePartial(text[..hyphen.value]);
      var high := ParsePartial(text[hyphen.value + 3..]);
      return if low.None? || high.None? then None else HyphenSet(low.value, high.value);
    }
    var words := Words(text);
    var tokens: seq<string>, pending := [], "";
    for i := 0 to |words|
      invariant (tokens, pending) == Tokens(words[..i])
    {
      assert words[..i + 1][..i] == words[..i];
      if OnlyMarks(words[i]) {
        pending := pending + words[i];
      } else {
        tokens := tokens + [pending + words[i]];
        pending := "";
      }
    }
    assert words[..|words|] == words;
    var out: seq<Comparator> := [];
    for i := 0 to |tokens|
      invariant AllComparators(tokens[..i]) == Some(out)
    {
      assert tokens[..i + 1][..i] == tokens[..i];
      var cs := Comparators(tokens[i]);
      if cs.None? {
        UnreadableStays(tokens, i + 1);
        return None;
      }
      out := out + cs.value;
    }
    assert tokens[..|tokens|] == tokens;
    return Some(out);
  }

  lemma {:induction false} UnreadableStays(tokens: seq<string>, i: nat)
    requires i <= |tokens| && AllComparators(tokens[..i]).None?
    ensures AllComparators(tokens).None?
    decreases |tokens| - i
  {
    if i == |tokens| {
      assert tokens[..i] == tokens;
    } else {
      assert tokens[..i + 1][..i] == tokens[..i];
      UnreadableStays(tokens, i + 1);
    }
  }

  /** What a range says of a version: the union of its parts, and nothing at all when one of them
      cannot be read. */
  ghost predicate RangeSays(range: string, v: Version, answer: Option<bool>) {
    var parts := SplitText(range, "||");
    && (answer.None? <==> exists i :: 0 <= i < |parts| && SetOf(Trim(parts[i])).None?)
    && (answer.Some? ==>
         (answer.value <==>
          exists i :: 0 <= i < |parts| && SetOf(Trim(parts[i])).Some? && Fits(SetOf(Trim(parts[i])).value, v)))
  }

  /** `npm_satisfies`. */
  method NpmSatisfies(range: string, v: Version) returns (answer: Option<bool>)
    ensures RangeSays(range, v, answer)
  {
    hide SetOf, Fits, SplitText, Trim;
    var parts := SplitText(range, "||");
    var matched := false;
    for n := 0 to |parts|
      invariant forall i | 0 <= i < n :: SetOf(Trim(parts[i])).Some?
      invariant matched <==>
        exists i :: 0 <= i < n && SetOf(Trim(parts[i])).Some? && Fits(SetOf(Trim(parts[i])).value, v)
    {
      var part := ComparatorSet(Trim(parts[n]));
      if part.None? {
        return None;
      }
      var fits := FitsSet(part.value, v);
      matched := matched || fits;
    }
    return Some(matched);
  }

  method FitsSet(comparators: seq<Comparator>, v: Version) returns (fits: bool)
    ensures fits == Fits(comparators, v)
  {
    fits := forall i | 0 <= i < |comparators| :: Holds(comparators[i], v);
    if fits && v.pre != [] {
      fits := exists i | 0 <= i < |comparators| :: SamePrerelease(comparators[i].bound, v);
    }
  }

  // ---- what the sugar means ----

  function Part'(p: Partial, i: nat): nat
    requires i < 3
  {
    if i == 0 then Zero(p.a) else if i == 1 then Zero(p.b) else Zero(p.c)
  }

  /** The first `k` numbers of the version against those of the partial, as a whole. */
  function CompareFirst(v: Version, p: Partial, k: nat): int
    requires k <= 3
  {
    if k >= 1 && v.major != Zero(p.a) then CompareNat(v.major, Zero(p.a))
    else if k >= 2 && v.minor != Zero(p.b) then CompareNat(v.minor, Zero(p.b))
    else if k >= 3 then CompareNat(v.patch, Zero(p.c))
    else 0
  }

  /** For every version, prereleases included: it is before `After(k)` exactly when its first `k`
      numbers are at most the partial's. */
  lemma AfterMeans(v: Version, p: Partial, k: nat)
    requires 1 <= k <= 3
    ensures Before(v, p.After(k)) <==> CompareFirst(v, p, k) <= 0
  {
    if v.pre != [] {
      NothingBelowLowest(v.pre);
    }
    hide CompareIdents;
    var top := p.After(k);
    assert top.pre == LOWEST && LOWEST != [];
    if k == 1 {
      assert v.major == Zero(p.a) + 1 ==> CompareVersion(v, top) >= 0;
    } else if k == 2 {
      assert v.major == Zero(p.a) && v.minor == Zero(p.b) + 1 ==> CompareVersion(v, top) >= 0;
    } else {
      assert v.major == Zero(p.a) && v.minor == Zero(p.b) && v.patch == Zero(p.c) + 1 ==> CompareVersion(v, top) >= 0;
    }
  }

  /** A caret keeps everything through the leftmost given number that is not zero, and all the given
      numbers when every one is zero. */
  lemma CaretKeepsThroughLeftmostNonZero(p: Partial)
    requires p.InOrder() && p.Known() > 0
    ensures var k := CaretKeeps(p);
      && 1 <= k <= p.Known()
      && (forall i: nat | i < k - 1 :: Part'(p, i) == 0)
      && (Part'(p, k - 1) != 0 || k == p.Known())
  {
  }

  /** What each mark is meant to take among releases. */
  ghost predicate Means(mark: Mark, p: Partial, floor: Version, v: Version) {
    var known := p.Known();
    if known == 0 then mark != Above && mark != Below
    else match mark
      case Bare | Exactly => if known == 3 then v == floor else CompareFirst(v, p, known) == 0
      case Caret => !Before(v, floor) && CompareFirst(v, p, CaretKeeps(p)) == 0
      case Tilde => !Before(v, floor) && CompareFirst(v, p, if known < 2 then known else 2) == 0
      case AtLeast => !Before(v, floor)
      case Above => if known == 3 then Before(floor, v) else CompareFirst(v, p, known) > 0
      case Below => Before(v, floor)
      case AtMost => if known == 3 then !Before(floor, v) else CompareFirst(v, p, known) <= 0
  }

  lemma ReleaseAgainstFloor(p: Partial, floor: Version, v: Version, k: nat)
    requires p.Floor() == Some(floor) && v.pre == [] && 1 <= k <= p.Known() && p.InOrder()
    ensures !Before(v, floor) ==> CompareFirst(v, p, k) >= 0
    ensures p.Known() < 3 ==>
      && (Before(v, floor) <==> CompareFirst(v, p, p.Known()) < 0)
      && (!Before(v, p.After(k).(pre := [])) <==> CompareFirst(v, p, k) > 0)
  {
    hide CompareIdents;
  }

  lemma EqualToFloor(floor: Version, v: Version)
    requires v.pre == []
    ensures CompareVersion(v, floor) == 0 <==> v == floor
    ensures CompareVersion(v, floor) > 0 <==> Before(floor, v)
  {
    hide CompareIdents;
  }

  lemma BothHold(x: Comparator, y: Comparator, v: Version)
    requires v.pre == []
    ensures Fits([x, y], v) <==> Holds(x, v) && Holds(y, v)
    ensures Fits([x], v) <==> Holds(x, v)
  {
    assert [x, y][0] == x && [x, y][1] == y && [x][0] == x;
  }

  /** Among releases every mark takes exactly the versions it is meant to. */
  lemma SugarMeansWhatItSays(mark: Mark, p: Partial, v: Version)
    requires p.InOrder() && p.Floor().Some? && v.pre == []
    ensures Desugar(mark, p).Some?
    ensures Fits(Desugar(mark, p).value, v) <==> Means(mark, p, p.Floor().value, v)
  {
    hide Fits, CompareIdents, CompareVersion, CompareFirst, CaretKeeps, Holds;
    var floor, known := p.Floor().value, p.Known();
    if known == 0 {
      NoReleaseBelowZero(v);
      BothHold(Comparator(Lt, Version(0, 0, 0, LOWEST)), Comparator(Ge, floor), v);
      LtIsBefore(Version(0, 0, 0, LOWEST), v);
      NothingToHold(v);
    } else {
      match mark {
        case Bare | Exactly =>
          if known == 3 {
            OneBound(Eq, floor, v);
          } else {
            BetweenMeans(p, floor, v, known);
          }
        case Caret =>
          CaretKeepsThroughLeftmostNonZero(p);
          BetweenMeans(p, floor, v, CaretKeeps(p));
        case Tilde => BetweenMeans(p, floor, v, if known < 2 then known else 2);
        case AtLeast => OneBound(Ge, floor, v);
        case Above =>
          OneBound(Gt, floor, v);
          OneBound(Ge, p.After(known).(pre := []), v);
          ReleaseAgainstFloor(p, floor, v, known);
        case Below => OneBound(Lt, floor, v);
        case AtMost =>
          OneBound(Le, floor, v);
          OneBound(Lt, p.After(known), v);
          AfterMeans(v, p, known);
      }
    }
  }

  /** A single comparator, in terms of precedence alone. */
  lemma OneBound(op: Op, bound: Version, v: Version)
    requires v.pre == []
    ensures Fits([Comparator(op, bound)], v) <==>
      match op
      case Lt => Before(v, bound)
      case Le => !Before(bound, v)
      case Gt => Before(bound, v)
      case Ge => !Before(v, bound)
      case Eq => v == bound
  {
    BothHold(Comparator(op, bound), Comparator(op, bound), v);
    EqualToFloor(bound, v);
    LtIsBefore(bound, v);
    hide Fits, CompareVersion;
  }

  lemma LtIsBefore(bound: Version, v: Version)
    ensures Holds(Comparator(Lt, bound), v) <==> Before(v, bound)
  {
  }

  /** From the floor up to just past the first `k` numbers. */
  lemma BetweenMeans(p: Partial, floor: Version, v: Version, k: nat)
    requires p.Floor() == Some(floor) && v.pre == [] && 1 <= k <= p.Known() && p.InOrder()
    ensures Fits(Between(floor, p.After(k)), v) <==> !Before(v, floor) && CompareFirst(v, p, k) == 0
    ensures k == p.Known() < 3 ==> (Fits(Between(floor, p.After(k)), v) <==> CompareFirst(v, p, k) == 0)
  {
    hide Fits, CompareIdents, CompareVersion, CompareFirst, Holds;
    BothHold(Comparator(Ge, floor), Comparator(Lt, p.After(k)), v);
    LtIsBefore(p.After(k), v);
    BothHold(Comparator(Ge, floor), Comparator(Ge, floor), v);
    OneBound(Ge, floor, v);
    AfterMeans(v, p, k);
    ReleaseAgainstFloor(p, floor, v, k);
  }

  lemma NoReleaseBelowZero(v: Version)
    requires v.pre == []
    ensures CompareVersion(v, Version(0, 0, 0, LOWEST)) > 0
  {
    assert LOWEST != [];
  }

  lemma NothingToHold(v: Version)
    requires v.pre == []
    ensures Fits([], v)
  {
  }

  /** A hyphen range takes the releases from its low end through everything its high end names. */
  lemma HyphenMeansWhatItSays(low: Partial, high: Partial, v: Version)
    requires high.InOrder() && low.Floor().Some? && high.Floor().Some? && v.pre == []
    ensures HyphenSet(low, high).Some?
    ensures Fits(HyphenSet(low, high).value, v) <==>
      && !Before(v, low.Floor().value)
      && (high.Known() == 0
          || (if high.Known() == 3 then !Before(high.Floor().value, v) else CompareFirst(v, high, high.Known()) <= 0))
  {
    var floor, top, known := low.Floor().value, high.Floor().value, high.Known();
    EqualToFloor(top, v);
    hide Fits, CompareIdents, CompareVersion, CompareFirst;
    BothHold(Comparator(Ge, floor), Comparator(Le, top), v);
    if known > 0 {
      AfterMeans(v, high, known);
      BothHold(Comparator(Ge, floor), Comparator(Lt, high.After(known)), v);
    }
  }

  // ---- raising a range ----

  /** `raised_npm`: an exact pin stays exact, a tilde stays one, the rest become a caret. */
  function Raised(range: string, to: string): string {
    var t := Trim(range);
    if t != "" && t[0] == '~' then "~" + to
    else if t != "" && (IsDigit(t[0]) || t[0] == '=') && ' ' !in t then to
    else "^" + to
  }

  predicate Allowed(v: Version) {
    ValidPre(v.pre) && v.major <= MAX_SAFE_INTEGER && v.minor <= MAX_SAFE_INTEGER && v.patch <= MAX_SAFE_INTEGER
  }

  lemma PrintedPart(n: nat)
    requires n <= MAX_SAFE_INTEGER
    ensures PartOf(Print(n)) == Number(n)
    ensures forall i | 0 <= i < |Print(n)| :: Print(n)[i] != '.' && Print(n)[i] != '-'
  {
    var s := Print(n);
    assert IsDigit(s[0]);
  }

  lemma PrintedNumbers(v: Version)
    requires Allowed(v)
    ensures var core := Print(v.major) + "." + Print(v.minor) + "." + Print(v.patch);
      && '-' !in core
      && SplitChar(core, '.') == [Print(v.major), Print(v.minor), Print(v.patch)]
      && Numbers(SplitChar(core, '.'), false) == Some([Some(v.major), Some(v.minor), Some(v.patch)])
  {
    PrintedPart(v.major);
    PrintedPart(v.minor);
    PrintedPart(v.patch);
    hide Print, PartOf, SplitChar, Numbers;
    ThreeParts(Print(v.major), Print(v.minor), Print(v.patch));
    ThreeNumbers(Print(v.major), Print(v.minor), Print(v.patch), v.major, v.minor, v.patch);
  }

  lemma ThreeNumbers(x: string, y: string, z: string, a: nat, b: nat, c: nat)
    requires PartOf(x) == Number(a) && PartOf(y) == Number(b) && PartOf(z) == Number(c)
    ensures Numbers([x, y, z], false) == Some([Some(a), Some(b), Some(c)])
  {
    hide PartOf;
    var none: seq<Option<nat>> := [];
    NumbersCons(z, [], c);
    assert [z] + [] == [z] && [Some(c)] + none == [Some(c)];
    NumbersCons(y, [z], b);
    assert [y] + [z] == [y, z] && [Some(b)] + [Some(c)] == [Some(b), Some(c)];
    NumbersCons(x, [y, z], a);
    assert [x] + [y, z] == [x, y, z] && [Some(a)] + [Some(b), Some(c)] == [Some(a), Some(b), Some(c)];
  }

  lemma ThreeParts(x: string, y: string, z: string)
    requires forall s | s in [x, y, z] :: '.' !in s && '-' !in s
    ensures SplitChar(x + "." + y + "." + z, '.') == [x, y, z]
    ensures '-' !in x + "." + y + "." + z
  {
    hide SplitChar, Join;
    var parts := [x, y, z];
    assert x in parts && y in parts && z in parts;
    NoDash(x + ".", y + "." + z);
    assert x + "." + y + "." + z == x + "." + (y + "." + z);
    JoinThree(x, y, z);
    assert forall i | 0 <= i < 3 :: parts[i] in parts;
    SplitJoined(parts, '.');
  }

  lemma NoDash(a: string, b: string)
    ensures '-' !in a && '-' !in b ==> '-' !in a + b
  {
  }

  lemma JoinThree(x: string, y: string, z: string)
    ensures Join([x, y, z], ".") == x + "." + y + "." + z
  {
    assert [y, z][1..] == [z] && [x, y, z][1..] == [y, z];
    assert Join([y, z], ".") == y + "." + z;
  }

  lemma NumbersCons(part: string, rest: seq<string>, n: nat)
    requires PartOf(part) == Number(n) && Numbers(rest, false).Some?
    ensures Numbers([part] + rest, false) == Some([Some(n)] + Numbers(rest, false).value)
  {
    assert ([part] + rest)[1..] == rest;
  }

  /** A text with no spaces, leading marks or build metadata. */
  predicate PlainText(text: string) {
    text != "" && text[0] != 'v' && text[0] != '=' && NoSpace(text) && '+' !in text
  }

  lemma VersionTextIsPlain(text: string)
    requires VersionText(text) && text != "" && IsDigit(text[0])
    ensures PlainText(text)
  {
  }

  lemma PlainTextStays(text: string)
    requires PlainText(text)
    ensures TrimMarks(Trim(text)) == text && FirstIndex(text, '+') == |text|
  {
    TrimNothing(text);
    hide Trim, NoSpace;
  }

  lemma DashSplits(core: string, pre: string)
    requires '-' !in core
    ensures FirstIndex(core, '-') == |core|
    ensures var text := core + "-" + pre;
      FirstIndex(text, '-') == |core| < |text| && text[..|core|] == core && text[|core| + 1..] == pre
  {
    hide FirstIndex;
    var text := core + "-" + pre;
    assert text[|core|] == '-';
    assert forall i | 0 <= i < |core| :: text[i] == core[i] && core[i] in core;
  }

  /** Reading it comes down to its core and prerelease. */
  lemma PartialOfText(text: string, core: string, pre: string)
    requires PlainText(text) && '-' !in core
    requires text == core + if pre == "" then "" else "-" + pre
    ensures PartialOf(text) ==
      var parts := SplitChar(core, '.');
      var numbers := Numbers(parts, false);
      if |parts| > 3 || numbers.None? then None
      else Some(Partial(Slot(numbers.value, 0), Slot(numbers.value, 1), Slot(numbers.value, 2), pre))
  {
    hide SplitChar, Numbers, Trim, TrimMarks, FirstIndex, Slot, PlainText;
    PlainTextStays(text);
    DashSplits(core, pre);
    assert text[..|text|] == text;
    if pre == "" {
      assert text == core && core[..|core|] == core;
    } else {
      assert text == core + "-" + pre;
    }
  }

  /** A printed version reads back whole. */
  lemma PrintedReadsBack(v: Version)
    requires Allowed(v)
    ensures PartialOf(PrintVersion(v)) == Some(Partial(Some(v.major), Some(v.minor), Some(v.patch), PrintPre(v.pre)))
  {
    assert PrintPre([]) == "";
    PreIsVersionText(v.pre);
    hide Print, SplitChar, Numbers, PrintPre, PartialOf, Value;
    PrintIsVersionText(v);
    PrintedNumbers(v);
    var core := Print(v.major) + "." + Print(v.minor) + "." + Print(v.patch);
    assert PrintVersion(v) == core + if v.pre == [] then "" else "-" + PrintPre(v.pre);
    VersionTextIsPlain(PrintVersion(v));
    PartialOfText(PrintVersion(v), core, PrintPre(v.pre));
  }

  lemma FloorOfPrinted(v: Version)
    requires Allowed(v)
    ensures Partial(Some(v.major), Some(v.minor), Some(v.patch), PrintPre(v.pre)).Floor() == Some(v)
  {
    if v.pre != [] {
      PreReadsBack(v.pre);
      PreIsVersionText(v.pre);
    }
  }

  lemma WholeComparators(mark: Mark, v: Version)
    requires Allowed(v) && mark in {Bare, Caret, Tilde}
    ensures var p := Partial(Some(v.major), Some(v.minor), Some(v.patch), PrintPre(v.pre));
      Desugar(mark, p).Some? && Fits(Desugar(mark, p).value, v)
  {
    FloorOfPrinted(v);
    var p := Partial(Some(v.major), Some(v.minor), Some(v.patch), PrintPre(v.pre));
    ComparePreReflexive(v.pre);
    hide PrintPre, CompareIdents;
    var k := if mark == Caret then CaretKeeps(p) else 2;
    AfterMeans(v, p, k);
    var ge, lt, eq := Comparator(Ge, v), Comparator(Lt, p.After(k)), Comparator(Eq, v);
    assert CompareVersion(v, v) == 0;
    hide CompareVersion, CompareFirst;
    assert mark == Bare ==> Desugar(mark, p).value == [eq] && [eq][0] == eq;
    assert mark != Bare ==> Desugar(mark, p).value == [ge, lt] && [ge, lt][0] == ge && [ge, lt][1] == lt;
    assert SamePrerelease(ge.bound, v) || v.pre == [];
    if mark == Bare {
      assert Fits([eq], v);
    } else {
      assert Holds(ge, v) && Holds(lt, v);
      assert Fits([ge, lt], v);
    }
  }

  /** A version behind a mark is one token, split as it was written. */
  lemma MarkSplits(to: string)
    requires to != "" && IsDigit(to[0])
    ensures SplitMark("~" + to) == (Tilde, to) && SplitMark("^" + to) == (Caret, to) && SplitMark(to) == (Bare, to)
  {
    BareSplits(to);
    var tilde, caret := "~" + to, "^" + to;
    assert tilde[1..] == to && caret[1..] == to && tilde[0] == '~' && caret[0] == '^' && tilde[1] == to[0];
    assert forall p: string | HasPrefix(tilde, p) && p != "" :: p[0] == '~';
    assert forall p: string | HasPrefix(caret, p) && p != "" :: p[0] == '^';
    assert forall p: string | HasPrefix(tilde, p) && |p| > 1 :: p[1] == tilde[1];
    assert HasPrefix(tilde, "~") && HasPrefix(caret, "^");
  }

  lemma BareSplits(to: string)
    requires to != "" && IsDigit(to[0])
    ensures SplitMark(to) == (Bare, to)
  {
    assert forall p: string | HasPrefix(to, p) && p != "" :: p[0] == to[0];
  }

  predicate Safe(c: char) {
    VersionChar(c) || c == '~' || c == '^'
  }

  lemma SafeHasNoSpace(text: string)
    requires forall i | 0 <= i < |text| :: Safe(text[i])
    ensures NoSpace(text)
  {
  }

  lemma OneToken(text: string)
    requires text != "" && (forall i | 0 <= i < |text| :: Safe(text[i]))
    requires exists i :: 0 <= i < |text| && IsDigit(text[i])
    ensures SplitText(text, "||") == [text] && Trim(text) == text
    ensures SetOf(text) == AllComparators([text])
    ensures AllComparators([text]) == ComparatorsOf(text)
  {
    hide ComparatorsOf, AllComparators, Tokens, Words, Trim, SplitText, Find, Safe, NoSpace, OnlyMarks;
    SafeHasNoSpace(text);
    TrimNothing(text);
    OneWord(text);
    NotSplit(text);
    OneTokenOf(text);
    OneComparatorSet(text);
  }

  lemma NotSplit(text: string)
    requires forall i | 0 <= i < |text| :: Safe(text[i])
    ensures SplitText(text, "||") == [text] && Find(text, " - ").None?
  {
    NotInside(text, "||");
    NotInside(text, " - ");
  }

  lemma NotInside(text: string, part: string)
    requires part != "" && part[0] !in text
    ensures Find(text, part).None?
  {
  }

  lemma OneTokenOf(text: string)
    requires exists i :: 0 <= i < |text| && IsDigit(text[i])
    ensures Tokens([text]) == ([text], "")
  {
    assert [text][..0] == [];
    assert !OnlyMarks(text);
    assert "" + text == text && [] + [text] == [text];
  }

  lemma OneComparatorSet(text: string)
    ensures AllComparators([text]) == ComparatorsOf(text)
  {
    hide ComparatorsOf;
    assert [text][..0] == [];
    assert AllComparators([]) == Some([]);
    if ComparatorsOf(text).Some? {
      assert [] + ComparatorsOf(text).value == ComparatorsOf(text).value;
    }
  }

  /** Raising settles the repo's own range: whatever the range was, printed, read back and desugared
      the raised one takes the target, prerelease or not. */
  lemma RaisedRangeTakesTheTarget(range: string, v: Version, answer: Option<bool>)
    requires Allowed(v) && RangeSays(Raised(range, PrintVersion(v)), v, answer)
    ensures answer == Some(true)
  {
    hide Trim, Print, SplitText, SetOf, Fits, PartialOf, Desugar, SplitMark, PrintPre, AllComparators, SplitText;
    var to := PrintVersion(v);
    PrintIsVersionText(v);
    PrintedReadsBack(v);
    hide PrintVersion;
    MarkSplits(to);
    WholeComparators(Bare, v);
    WholeComparators(Caret, v);
    WholeComparators(Tilde, v);
    var text := Raised(range, to);
    assert text == to || text == "~" + to || text == "^" + to;
    assert IsDigit(text[if text == to then 0 else 1]);
    OneToken(text);
    assert [text][0] == text;
    assert Fits(ComparatorsOf(text).value, v);
  }

  /** A raised range is of its old range's kind: a tilde stays one, an exact version with no space in it stays exact,
      with or without its equals sign, and every other range becomes a caret. */
  lemma RaisingKeepsTheSpirit(range: string, v: Version)
    requires Allowed(v)
    ensures var (t, to) := (Trim(range), PrintVersion(v));
      && Raised(range, to) ==
         (if t != "" && t[0] == '~' then "~" + to
          else if t != "" && t[0] in "=0123456789" && (forall c | c in t :: c != ' ') then to
          else "^" + to)
      && SplitMark(Raised(range, to)) ==
         (if t != "" && t[0] == '~' then (Tilde, to)
          else if t != "" && t[0] in "=0123456789" && ' ' !in t then (Bare, to)
          else (Caret, to))
  {
    hide Trim;
    PrintIsVersionText(v);
    hide PrintVersion;
    MarkSplits(PrintVersion(v));
    hide SplitMark;
  }
}
