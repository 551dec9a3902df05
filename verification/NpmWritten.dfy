/** Versions as people write them in npm ranges, and how they are read. */
module NpmWritten {
  import opened Decimal
  import opened NpmRange
  import opened SemVer
  import opened Text
  import opened Wrappers

  /** A version as written behind a mark: perhaps a `v`; up to three numbers, where fewer may end in a wildcard; and
      behind all three perhaps a prerelease. Build metadata may follow. */
  datatype Written = Written(v: bool, numbers: seq<nat>, wild: string, pre: seq<string>, build: string)
  {
    predicate Valid() {
      && |numbers| <= 3 && wild in {"", "x", "X", "*"}
      && (numbers == [] ==> wild != "") && (|numbers| == 3 ==> wild == "")
      && ValidPre(pre) && (pre != [] ==> |numbers| == 3) && VersionText(build)
      && forall i | 0 <= i < |numbers| :: numbers[i] <= MAX_SAFE_INTEGER
    }

    /** The lowest version it names. */
    function Lowest(): Version
      requires |numbers| <= 3
    {
      Version(if |numbers| > 0 then numbers[0] else 0, if |numbers| > 1 then numbers[1] else 0,
              if |numbers| > 2 then numbers[2] else 0, pre)
    }

    function Core(): string
      requires |numbers| <= 3
    {
      if |numbers| == 0 then wild
      else if |numbers| == 3 then PrintVersion(Lowest())
      else
        Print(numbers[0]) + (if |numbers| == 2 then "." + Print(numbers[1]) else "")
        + if wild == "" then "" else "." + wild
    }

    function Text(): string
      requires |numbers| <= 3
    {
      (if v then "v" else "") + Core() + if build == "" then "" else "+" + build
    }
  }

  function PartialOfWritten(w: Written): Partial {
    Partial(if |w.numbers| > 0 then Some(w.numbers[0]) else None, if |w.numbers| > 1 then Some(w.numbers[1]) else None,
            if |w.numbers| > 2 then Some(w.numbers[2]) else None, PrintPre(w.pre))
  }

  predicate TextChar(c: char) {
    VersionChar(c) || c == '*' || c == '+'
  }

  // ---- the numbers and the wildcard ----

  predicate CoreText(core: string) {
    && core != "" && core[0] !in "v=<>^~-+" && forall i | 0 <= i < |core| :: VersionChar(core[i]) || core[i] == '*'
  }

  lemma CoreTextIsPlain(core: string)
    requires CoreText(core)
    ensures PlainText(core)
  {
  }

  lemma WildNumbers(wild: string)
    requires wild in {"x", "X", "*"}
    ensures Numbers([wild], false) == Some([None])
    ensures '.' !in wild && '-' !in wild
  {
    var none: seq<Option<nat>> := [];
    assert [wild][1..] == [];
    assert Numbers([], true) == Some(none);
    assert [None] + none == [None];
  }

  /** Numbers, then the wildcard if there is one. */
  function PartsOf(numbers: seq<nat>, wild: string): seq<string> {
    seq(|numbers|, i requires 0 <= i < |numbers| => Print(numbers[i])) + if wild == "" then [] else [wild]
  }

  function Known(numbers: seq<nat>): seq<Option<nat>> {
    seq(|numbers|, i requires 0 <= i < |numbers| => Some(numbers[i]))
  }

  lemma {:induction false} PartsRead(numbers: seq<nat>, wild: string)
    requires (forall i | 0 <= i < |numbers| :: numbers[i] <= MAX_SAFE_INTEGER) && wild in {"", "x", "X", "*"}
    ensures Numbers(PartsOf(numbers, wild), false) == Some(Known(numbers) + if wild == "" then [] else [None])
    ensures forall i | 0 <= i < |PartsOf(numbers, wild)| ::
      '.' !in PartsOf(numbers, wild)[i] && '-' !in PartsOf(numbers, wild)[i]
  {
    hide Numbers, PartOf, Print;
    if numbers == [] {
      var none: seq<Option<nat>> := [];
      NoNumbersRead();
      assert Known(numbers) == none;
      if wild != "" {
        WildNumbers(wild);
        assert PartsOf(numbers, wild) == [wild] && none + [None] == [None];
      } else {
        assert PartsOf(numbers, wild) == [] && none + [] == none;
      }
    } else {
      var rest := PartsOf(numbers[1..], wild);
      PartsRead(numbers[1..], wild);
      PrintedPart(numbers[0]);
      assert PartsOf(numbers, wild) == [Print(numbers[0])] + rest;
      assert Known(numbers) == [Some(numbers[0])] + Known(numbers[1..]);
      NumbersCons(Print(numbers[0]), rest, numbers[0]);
      var end: seq<Option<nat>> := if wild == "" then [] else [None];
      assert [Some(numbers[0])] + (Known(numbers[1..]) + end) == [Some(numbers[0])] + Known(numbers[1..]) + end;
    }
  }

  lemma NoNumbersRead()
    ensures Numbers([], false) == Some([])
  {
  }

  lemma SlotsAre(w: Written)
    requires w.Valid() && |w.numbers| < 3
    ensures var ns := Known(w.numbers) + if w.wild == "" then [] else [None];
      PartialOfWritten(w) == Partial(Slot(ns, 0), Slot(ns, 1), Slot(ns, 2), "")
  {
    assert PrintPre([]) == "";
  }

  /** Up to two numbers and a wildcard read as the numbers. */
  lemma PartialReads(w: Written)
    requires w.Valid() && |w.numbers| < 3
    ensures PartialOf(w.Core()) == Some(PartialOfWritten(w)) && CoreText(w.Core())
  {
    hide Numbers, PartialOf, Print, PrintPre, Join, SplitChar, PlainText, CoreText, Written.Core, Slot, PartsOf, Known;
    hide PartialOfWritten;
    var parts, core := PartsOf(w.numbers, w.wild), w.Core();
    PartsRead(w.numbers, w.wild);
    SlotsAre(w);
    CoreIsJoined(w);
    CoreTextIsPlain(core);
    SplitJoined(parts, '.');
    assert core == core + "";
    PartialOfText(core, core, "");
  }

  /** The core is its parts joined, with no dash in it. */
  lemma CoreIsJoined(w: Written)
    requires w.Valid() && |w.numbers| < 3
    ensures var parts := PartsOf(w.numbers, w.wild);
      0 < |parts| <= 3 && Join(parts, ".") == w.Core() && CoreText(w.Core()) && '-' !in w.Core()
  {
    hide Print, Value, Join, CoreText;
    var parts, ns := PartsOf(w.numbers, w.wild), w.numbers;
    forall i | 0 <= i < |parts|
      ensures CoreText(parts[i]) && '-' !in parts[i]
    {
      if i < |ns| {
        DigitsOnly(Print(ns[i]));
      } else {
        WildIsCore(w.wild);
      }
    }
    if |parts| == 1 {
      JoinOne(parts[0]);
      assert parts == [parts[0]];
    } else if |parts| == 2 {
      assert parts == [parts[0], parts[1]];
      JoinTwo(parts[0], parts[1]);
    } else {
      assert parts == [parts[0], parts[1], parts[2]];
      JoinThree(parts[0], parts[1], parts[2]);
      JoinTwo(parts[0], parts[1]);
      Dotted(parts[0] + "." + parts[1], parts[2]);
    }
  }

  lemma WildIsCore(wild: string)
    requires wild in {"x", "X", "*"}
    ensures CoreText(wild) && '-' !in wild
  {
  }

  lemma JoinOne(x: string)
    ensures Join([x], ".") == x
  {
  }

  lemma Dotted(x: string, y: string)
    requires CoreText(x) && CoreText(y) && '-' !in x && '-' !in y
    ensures CoreText(x + "." + y) && '-' !in x + "." + y
  {
    var s := x + "." + y;
    assert s[0] == x[0];
    assert forall i | 0 <= i < |s| :: s[i] == if i < |x| then x[i] else if i == |x| then '.' else y[i - |x| - 1];
  }

  lemma JoinTwo(x: string, y: string)
    requires CoreText(x) && CoreText(y) && '-' !in x && '-' !in y
    ensures Join([x, y], ".") == x + "." + y && CoreText(x + "." + y) && '-' !in x + "." + y
  {
    assert [x, y][1..] == [y];
    Dotted(x, y);
    hide CoreText;
  }

  lemma DigitsOnly(s: string)
    requires AllDigits(s) && s != ""
    ensures CoreText(s) && '-' !in s
  {
    assert IsDigit(s[0]);
  }

  lemma WholeReads(w: Written)
    requires w.Valid() && |w.numbers| == 3
    ensures PartialOf(w.Core()) == Some(PartialOfWritten(w)) && CoreText(w.Core())
  {
    hide PrintVersion, PrintPre, PartialOf, ValidPre;
    var low := w.Lowest();
    assert Allowed(low);
    PrintIsVersionText(low);
    PrintedReadsBack(low);
    VersionTextIsCore(PrintVersion(low));
  }

  lemma VersionTextIsCore(s: string)
    requires VersionText(s) && s != "" && IsDigit(s[0])
    ensures CoreText(s)
  {
  }

  lemma CoreReads(w: Written)
    requires w.Valid()
    ensures PartialOf(w.Core()) == Some(PartialOfWritten(w)) && CoreText(w.Core())
  {
    hide PartialOf, Written.Core, PartialOfWritten, CoreText;
    if |w.numbers| == 3 {
      WholeReads(w);
    } else {
      PartialReads(w);
    }
  }

  // ---- a leading v, and build metadata ----

  lemma LeadingV(t: string)
    requires NoSpace(t) && t != ""
    ensures PartialOf("v" + t) == PartialOf(t)
  {
    var s := "v" + t;
    assert s[1..] == t && NoSpace(s);
    TrimNothing(s);
    TrimNothing(t);
    assert TrimMarks(s) == TrimMarks(t);
    hide TrimMarks, Trim;
  }

  lemma BuildStays(t: string, build: string)
    requires PlainText(t) && NoSpace(build)
    ensures TrimMarks(Trim(t + "+" + build)) == t + "+" + build
  {
    hide Trim, IsSpace;
    var s := t + "+" + build;
    PlusIsNoSpace();
    assert forall i | 0 <= i < |s| :: s[i] == if i < |t| then t[i] else if i == |t| then '+' else build[i - |t| - 1];
    assert NoSpace(s);
    TrimNothing(s);
  }

  lemma PlusIsNoSpace()
    ensures !IsSpace('+')
  {
  }

  lemma BuildCut(t: string, build: string)
    requires '+' !in t
    ensures var s := t + "+" + build;
      FirstIndex(s, '+') == |t| < |s| && s[..|t|] == t
  {
    hide FirstIndex;
    var s := t + "+" + build;
    assert s[|t|] == '+' && forall i | 0 <= i < |t| :: s[i] == t[i] && t[i] in t;
  }

  lemma BuildIgnored(t: string, build: string)
    requires PlainText(t) && NoSpace(build)
    ensures PartialOf(t + "+" + build) == PartialOf(t)
  {
    hide Numbers, SplitChar, FirstIndex, Trim, NoSpace, TrimMarks;
    var s := t + "+" + build;
    PlainTextStays(t);
    BuildStays(t, build);
    BuildCut(t, build);
    assert t[..|t|] == t;
  }

  lemma WithBuild(core: string, build: string)
    requires CoreText(core) && VersionText(build)
    ensures var t := core + if build == "" then "" else "+" + build;
      && PartialOf(t) == PartialOf(core)
      && t != "" && t[0] !in "<>=^~-" && NoSpace(t) && forall i | 0 <= i < |t| :: TextChar(t[i])
  {
    var t := core + if build == "" then "" else "+" + build;
    TextCharsOf(core, build, t);
    CoreTextIsPlain(core);
    VersionTextHasNoSpace(build);
    hide PartialOf, CoreText, PlainText, VersionText, TextChar, NoSpace;
    if build == "" {
      assert t == core;
    } else {
      assert t == core + "+" + build;
      BuildIgnored(core, build);
    }
  }

  lemma WithV(v: bool, t: string)
    requires t != "" && t[0] !in "<>=^~-" && NoSpace(t) && forall i | 0 <= i < |t| :: TextChar(t[i])
    ensures var s := (if v then "v" else "") + t;
      && PartialOf(s) == PartialOf(t)
      && s != "" && s[0] !in "<>=^~-" && forall i | 0 <= i < |s| :: TextChar(s[i])
  {
    var s := (if v then "v" else "") + t;
    VIsTextChar();
    hide PartialOf, TextChar, NoSpace;
    if v {
      LeadingV(t);
      assert forall i | 0 <= i < |s| :: s[i] == if i == 0 then 'v' else t[i - 1];
    } else {
      assert s == t;
    }
  }

  /** A written version reads as its numbers and its prerelease. */
  lemma WrittenReadsBack(w: Written)
    requires w.Valid()
    ensures PartialOf(w.Text()) == Some(PartialOfWritten(w))
    ensures PartialOfWritten(w).Floor() == Some(w.Lowest())
    ensures w.Text() != "" && w.Text()[0] !in "<>=^~-" && forall i | 0 <= i < |w.Text()| :: TextChar(w.Text()[i])
  {
    hide PartialOf, Written.Core, CoreText, TextChar, NoSpace, Partial.Floor, PartialOfWritten, Written.Lowest;
    CoreReads(w);
    FloorIsLowest(w);
    var core := w.Core();
    var t := core + if w.build == "" then "" else "+" + w.build;
    WithBuild(core, w.build);
    WithV(w.v, t);
    assert w.Text() == (if w.v then "v" else "") + t;
  }

  lemma VIsTextChar()
    ensures TextChar('v')
  {
  }

  lemma VersionTextHasNoSpace(s: string)
    requires VersionText(s)
    ensures NoSpace(s)
  {
  }

  lemma TextCharsOf(core: string, build: string, t: string)
    requires CoreText(core) && VersionText(build) && t == core + if build == "" then "" else "+" + build
    ensures t != "" && t[0] !in "<>=^~-" && NoSpace(t) && forall i | 0 <= i < |t| :: TextChar(t[i])
  {
    assert t[0] == core[0];
    assert forall i | 0 <= i < |t| ::
      t[i] == if i < |core| then core[i] else if i == |core| then '+' else build[i - |core| - 1];
    assert forall c | TextChar(c) :: !IsSpace(c);
  }

  lemma FloorIsLowest(w: Written)
    requires w.Valid()
    ensures PartialOfWritten(w).Floor() == Some(w.Lowest())
  {
    assert PrintPre([]) == "";
    if |w.numbers| == 3 {
      assert Allowed(w.Lowest());
      FloorOfPrinted(w.Lowest());
    }
  }
}
