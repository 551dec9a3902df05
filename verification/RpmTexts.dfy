/** rpm's order read off the texts: where two versions part decides, and how. */
module RpmTexts {
  import opened Wrappers
  import opened Decimal
  import opened Text
  import opened RpmOrder

  /** Letters and digits are those of ASCII, by their codes; separators are everything else but the two marks. */
  lemma CharactersAre(c: char)
    ensures IsLetter(c) <==> 65 <= c as int <= 90 || 97 <= c as int <= 122
    ensures IsDigit(c) <==> 48 <= c as int <= 57
    ensures IsSeparator(c) <==> !IsLetter(c) && !IsDigit(c) && c as int != 126 && c as int != 94
  {
  }

  // ---- tokens of a text in two parts ----

  /** A text that does not go on with the run of digits or letters before it. */
  predicate Breaks(s: string) {
    s == [] || (!IsDigit(s[0]) && !IsLetter(s[0]))
  }

  lemma {:induction false} DigitRunStops(s: string, t: string)
    requires Breaks(t)
    ensures DigitRun(s + t) == DigitRun(s)
  {
    if s != [] && IsDigit(s[0]) {
      assert (s + t)[1..] == s[1..] + t;
      DigitRunStops(s[1..], t);
    }
  }

  lemma {:induction false} LetterRunStops(s: string, t: string)
    requires Breaks(t)
    ensures LetterRun(s + t) == LetterRun(s)
  {
    if s != [] && IsLetter(s[0]) {
      assert (s + t)[1..] == s[1..] + t;
      LetterRunStops(s[1..], t);
    }
  }

  /** How many characters the first step of `Tokens` takes, and the token it makes of them. */
  function FirstRun(s: string): (n: nat)
    requires s != []
    ensures 0 < n <= |s|
  {
    if IsDigit(s[0]) then DigitRun(s) else if IsLetter(s[0]) then LetterRun(s) else 1
  }

  function FirstToken(run: string): seq<Token>
    requires run != []
  {
    if IsDigit(run[0]) then [Digits(StripZeros(run))]
    else if IsLetter(run[0]) then [Letters(run)]
    else if run[0] == '~' then [Tilde]
    else if run[0] == '^' then [Caret]
    else []
  }

  lemma TokensFrom(s: string)
    requires s != []
    ensures Tokens(s) == FirstToken(s[..FirstRun(s)]) + Tokens(s[FirstRun(s)..])
  {
    assert s[..FirstRun(s)][0] == s[0];
  }

  lemma FirstRunStops(s: string, t: string)
    requires s != [] && Breaks(t)
    ensures FirstRun(s + t) == FirstRun(s)
  {
    DigitRunStops(s, t);
    LetterRunStops(s, t);
    hide DigitRun, LetterRun;
  }

  lemma Slices(s: string, t: string, n: nat)
    requires n <= |s|
    ensures (s + t)[..n] == s[..n] && (s + t)[n..] == s[n..] + t
  {
  }

  lemma SplitStep(s: string, t: string)
    requires s != [] && Breaks(t)
    ensures 0 < FirstRun(s) <= |s|
    ensures Tokens(s + t) == FirstToken(s[..FirstRun(s)]) + Tokens(s[FirstRun(s)..] + t)
  {
    hide Tokens, FirstToken, FirstRun, Breaks;
    FirstRunStops(s, t);
    TokensFrom(s + t);
    Slices(s, t, FirstRun(s));
  }

  lemma {:induction false} TokensSplit(s: string, t: string)
    requires Breaks(t)
    ensures Tokens(s + t) == Tokens(s) + Tokens(t)
    decreases |s|
  {
    hide Tokens, FirstToken, FirstRun, Breaks;
    if s == [] {
      assert s + t == t;
      NoTokens();
    } else {
      SplitStep(s, t);
      TokensFrom(s);
      TokensSplit(s[FirstRun(s)..], t);
    }
  }

  lemma NoTokens()
    ensures Tokens([]) == []
  {
  }

  lemma {:induction false} PrefixCancels(p: seq<Token>, a: seq<Token>, b: seq<Token>)
    ensures CompareTokens(p + a, p + b) == CompareTokens(a, b)
  {
    if p == [] {
      assert p + a == a && p + b == b;
    } else {
      CompareTokenEqual(Head(p + a), Head(p + b));
      assert (p + a)[1..] == p[1..] + a && (p + b)[1..] == p[1..] + b;
      PrefixCancels(p[1..], a, b);
      hide CompareToken;
    }
  }

  /** Two texts with a common front compare as what follows it. */
  lemma FrontCancels(front: string, s: string, t: string)
    requires Breaks(s) && Breaks(t)
    ensures Rpm(front + s, front + t) == Rpm(s, t)
  {
    hide Tokens, CompareTokens;
    TokensSplit(front, s);
    TokensSplit(front, t);
    PrefixCancels(Tokens(front), Tokens(s), Tokens(t));
  }

  lemma FrontAlone(front: string, s: string)
    requires Breaks(s)
    ensures Rpm(front + s, front) == Rpm(s, "")
  {
    hide Rpm;
    assert front + "" == front;
    FrontCancels(front, s, "");
  }

  /** What the first tokens of two texts say, when one of them starts with a mark or a run. */
  lemma MarkFirst(mark: char, s: string)
    ensures mark == '~' ==> Tokens([mark] + s) == [Tilde] + Tokens(s)
    ensures mark == '^' ==> Tokens([mark] + s) == [Caret] + Tokens(s)
    ensures IsSeparator(mark) ==> Tokens([mark] + s) == Tokens(s)
  {
    assert ([mark] + s)[1..] == s;
  }

  lemma RunFirst(s: string)
    requires s != [] && (IsDigit(s[0]) || IsLetter(s[0]))
    ensures Tokens(s) != []
    ensures if IsDigit(s[0]) then Tokens(s)[0].Digits? else Tokens(s)[0].Letters?
  {
  }

  // ---- the order of what follows a common front ----

  /** A tilde sorts before the end of the version, so `v~x` is before `v`; a caret after it, but before any further
      part, so `v^x` is after `v` and before `v.y`; and a further part is after. */
  lemma TildeEndCaretMore(v: string, x: string, y: string)
    requires y != [] && (IsDigit(y[0]) || IsLetter(y[0]))
    ensures Rpm(v + "~" + x, v) == -1
    ensures Rpm(v + "^" + x, v) == 1
    ensures Rpm(v + "^" + x, v + "." + y) == -1
    ensures Rpm(v + "." + y, v) == 1
    ensures Rpm(v + "~" + x, v + "^" + y) == -1
  {
    assert v + "~" + x == v + ("~" + x) && v + "^" + x == v + ("^" + x);
    assert v + "." + y == v + ("." + y) && v + "^" + y == v + ("^" + y);
    MarkFirst('~', x);
    MarkFirst('^', x);
    MarkFirst('^', y);
    MarkFirst('.', y);
    RunFirst(y);
    FrontAlone(v, "~" + x);
    FrontAlone(v, "^" + x);
    FrontAlone(v, "." + y);
    FrontCancels(v, "^" + x, "." + y);
    FrontCancels(v, "~" + x, "^" + y);
    assert Tokens("") == [];
  }

  /** A part of letters is before a part of digits, whatever they go on with. */
  lemma LettersBeforeDigits(p: string, x: string, y: string)
    requires x != [] && y != [] && IsLetter(x[0]) && IsDigit(y[0])
    ensures Rpm(p + "." + x, p + "." + y) == -1
  {
    assert p + "." + x == p + ("." + x) && p + "." + y == p + ("." + y);
    MarkFirst('.', x);
    MarkFirst('.', y);
    RunFirst(x);
    RunFirst(y);
    FrontCancels(p, "." + x, "." + y);
  }

  lemma OneRun(s: string)
    requires s != [] && (AllDigits(s) || forall i | 0 <= i < |s| :: IsLetter(s[i]))
    ensures Tokens(s) == FirstToken(s)
  {
    assert FirstRun(s) == |s| && s[..|s|] == s && s[|s|..] == [];
    TokensFrom(s);
    assert Tokens([]) == [];
    hide FirstToken;
  }

  lemma OneAgainstOne(x: Token, y: Token)
    ensures CompareTokens([x], [y]) == CompareToken(Some(x), Some(y))
  {
    assert [x][1..] == [] && [y][1..] == [];
    assert CompareTokens([], []) == 0;
  }

  lemma CompareTokenSign(x: Token, y: Token)
    ensures CompareToken(Some(x), Some(y)) in {-1, 0, 1}
  {
    if x.Letters? && y.Letters? {
      CompareTextSign(x.text, y.text);
    } else if x.Digits? && y.Digits? {
      CompareTextSign(x.text, y.text);
    }
  }

  /** Parts of digits compare by the numbers they are, of any length and with any leading zeros. */
  lemma NumbersByValue(p: string, x: string, y: string)
    requires x != [] && y != [] && AllDigits(x) && AllDigits(y)
    ensures Rpm(p + "." + x, p + "." + y) == if Value(x) < Value(y) then -1 else if Value(x) > Value(y) then 1 else 0
  {
    hide CompareToken, Value, StripZeros, CompareTokens, Tokens;
    assert p + "." + x == p + ("." + x) && p + "." + y == p + ("." + y);
    MarkFirst('.', x);
    MarkFirst('.', y);
    OneRun(x);
    OneRun(y);
    FrontCancels(p, "." + x, "." + y);
    OneAgainstOne(Digits(StripZeros(x)), Digits(StripZeros(y)));
    CompareTokenSign(Digits(StripZeros(x)), Digits(StripZeros(y)));
    DigitsCompareByValue(x, y);
  }

  /** Parts of letters compare at the first letter that differs; of two that agree, the shorter is before. */
  lemma WordsByFirstDifference(p: string, x: string, y: string, i: nat)
    requires x != [] && y != [] && (forall c | c in x + y :: IsLetter(c))
    requires i <= |x| && i < |y| && x[..i] == y[..i] && (i < |x| ==> x[i] < y[i])
    ensures Rpm(p + "." + x, p + "." + y) == -1
  {
    hide CompareText, CompareTokens, Tokens;
    assert p + "." + x == p + ("." + x) && p + "." + y == p + ("." + y);
    assert (forall i | 0 <= i < |x| :: x[i] in x + y) && (forall i | 0 <= i < |y| :: y[i] in x + y);
    MarkFirst('.', x);
    MarkFirst('.', y);
    OneRun(x);
    OneRun(y);
    FrontCancels(p, "." + x, "." + y);
    OneAgainstOne(Letters(x), Letters(y));
    CompareTextParts(x, y, i);
  }

  /** Separators tell parts apart and nothing more: any one will do, and so will several. */
  lemma SeparatorsDoNotCount(p: string, x: string, some: string, other: string)
    requires some != [] && other != [] && forall c | c in some + other :: IsSeparator(c)
    ensures Rpm(p + some + x, p + other + x) == 0
  {
    hide Tokens, CompareTokens;
    SeparatorsSkipped(some, x);
    SeparatorsSkipped(other, x);
    assert some[0] in some + other && other[0] in some + other;
    assert (forall c | c in some :: c in some + other) && (forall c | c in other :: c in some + other);
    assert p + some + x == p + (some + x) && p + other + x == p + (other + x);
    FrontCancels(p, some + x, other + x);
    CompareTokensReflexive(Tokens(x));
  }

  lemma {:induction false} SeparatorsSkipped(some: string, x: string)
    requires forall c | c in some :: IsSeparator(c)
    ensures Tokens(some + x) == Tokens(x)
  {
    if some == [] {
      assert some + x == x;
    } else {
      assert (some + x)[1..] == some[1..] + x;
      SeparatorsSkipped(some[1..], x);
    }
  }

  // ---- what is offered ----

  /** The build a repository offers of a package, under its name and module stream; source packages are not offered. */
  ghost predicate Offers(repo: Repository, row: Row) {
    exists p :: p in repo.packages && p.arch != "src" &&
      var build := Print(if p.epoch == None then 0 else p.epoch.value) + ":" + p.version + "-" + p.release;
      var nevra := p.name + "-" + build + "." + p.arch;
      row == ((p.name, if nevra in repo.streams then repo.streams[nevra] else "-"), build)
  }

  lemma {:induction false} PackageRowsAre(packages: seq<Package>, streams: map<string, string>, row: Row)
    ensures row in PackageRows(packages, streams) <==> Offers(Repository(packages, streams), row)
  {
    hide Print;
    if packages != [] {
      var init, last := packages[..|packages| - 1], packages[|packages| - 1];
      assert packages == init + [last];
      PackageRowsAre(init, streams, row);
    }
  }

  /** The builds the highest one is taken of are exactly those some repository offers. */
  lemma {:induction false} RowsAreOffered(repos: seq<Repository>, row: Row)
    ensures row in Rows(repos) <==> exists repo :: repo in repos && Offers(repo, row)
  {
    hide Offers;
    if repos != [] {
      var init, last := repos[..|repos| - 1], repos[|repos| - 1];
      assert repos == init + [last];
      RowsAreOffered(init, row);
      PackageRowsAre(last.packages, last.streams, row);
      assert last == Repository(last.packages, last.streams);
    }
  }

  // ---- whole builds ----

  /** Printed builds compare by epoch first, then by version, then by release. */
  lemma EpochThenVersionThenRelease(e: nat, v: string, r: string, e': nat, v': string, r': string)
    requires ':' !in v && ':' !in r && '-' !in v && ':' !in v' && ':' !in r' && '-' !in v'
    requires r != [] && r' != []
    ensures var (a, b) := (PrintBuild(e, v, r), PrintBuild(e', v', r'));
      && Readable(a) && Readable(b)
      && (e < e' ==> CompareBuilds(a, b) == -1)
      && (e > e' ==> CompareBuilds(a, b) == 1)
      && (e == e' && Rpm(v, v') != 0 ==> CompareBuilds(a, b) == Rpm(v, v'))
      && (e == e' && Rpm(v, v') == 0 ==> CompareBuilds(a, b) == Rpm(r, r'))
  {
    hide PrintBuild, ReadEvr, Rpm;
    BuildReadsBack(e, v, r);
    BuildReadsBack(e', v', r');
  }
}
