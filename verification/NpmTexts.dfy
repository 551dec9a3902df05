/** npm ranges read off their text: what a range as people write it takes, with no comparator in between. */
module NpmTexts {
  import opened Decimal
  import opened NpmRange
  import opened NpmWritten
  import opened SemVer
  import opened Text
  import opened Wrappers

  // ---- ranges as they are written ----

  /** A mark and a version, written together or with a space between. */
  datatype Bounded = Bounded(mark: string, apart: bool, version: Written)
  {
    predicate Valid() {
      mark in {"", "=", "^", "~", "~>", ">=", ">", "<=", "<"} && version.Valid()
    }

    function Words(): seq<string>
      requires Valid()
    {
      if apart && mark != "" then [mark, version.Text()] else [mark + version.Text()]
    }
  }

  predicate ValidSet(set': seq<Bounded>) {
    forall b | b in set' :: b.Valid()
  }

  function SetWords(set': seq<Bounded>): seq<string>
    requires ValidSet(set')
  {
    if set' == [] then [] else SetWords(set'[..|set'| - 1]) + set'[|set'| - 1].Words()
  }

  /** The parts of a set one after the other, a space between them. */
  function SetText(set': seq<Bounded>): string
    requires ValidSet(set')
  {
    Join(SetWords(set'), " ")
  }

  /** One clause of a range, between its bars: bounds that must all hold, or everything from one version through
      another. */
  datatype Clause = Bounds(bounds: seq<Bounded>) | Hyphen(low: Written, high: Written)
  {
    predicate Valid() {
      match this
      case Bounds(bounds) => ValidSet(bounds)
      case Hyphen(low, high) => low.Valid() && high.Valid()
    }

    function Text(): string
      requires Valid()
    {
      match this
      case Bounds(bounds) => SetText(bounds)
      case Hyphen(low, high) => low.Text() + " - " + high.Text()
    }
  }

  predicate ValidRange(range: seq<Clause>) {
    forall p | p in range :: p.Valid()
  }

  function ClauseTexts(range: seq<Clause>): seq<string>
    requires ValidRange(range)
  {
    seq(|range|, i requires 0 <= i < |range| => range[i].Text())
  }

  // ---- what they take ----

  function NumbersOf(v: Version): seq<nat> {
    [v.major, v.minor, v.patch]
  }

  /** The first `k` numbers are the same. */
  predicate Agree(v: Version, w: Written, k: nat) {
    k <= 3 && k <= |w.numbers| && forall i | 0 <= i < k :: NumbersOf(v)[i] == w.numbers[i]
  }

  /** The first of the first `k` numbers that differs is greater. */
  predicate Past(v: Version, w: Written, k: nat) {
    exists i | 0 <= i < k && i < |w.numbers| && i < 3 :: Agree(v, w, i) && NumbersOf(v)[i] > w.numbers[i]
  }

  /** The lowest release past everything a partial version names. */
  function Next(w: Written): Version
    requires 1 <= |w.numbers| <= 2
  {
    if |w.numbers| == 1 then Version(w.numbers[0] + 1, 0, 0, []) else Version(w.numbers[0], w.numbers[1] + 1, 0, [])
  }

  predicate Takes(b: Bounded, v: Version)
    requires b.Valid()
  {
    var w, m := b.version, b.mark;
    var low, k := w.Lowest(), |w.numbers|;
    if k == 0 then m != "<" && m != ">"
    else if m == ">=" then !Before(v, low)
    else if m == "<" then Before(v, low)
    else if m == ">" then (if k == 3 then Before(low, v) else !Before(v, Next(w)))
    else if m == "<=" then (if k == 3 then !Before(low, v) else !Past(v, w, k))
    else if m == "^" then
      var keeps := if k == 1 || w.numbers[0] != 0 then 1 else if k == 2 || w.numbers[1] != 0 then 2 else 3;
      !Before(v, low) && Agree(v, w, keeps)
    else if m == "~" || m == "~>" then !Before(v, low) && Agree(v, w, if k == 1 then 1 else 2)
    else !Before(v, low) && (if k == 3 then !Before(low, v) else Agree(v, w, k))
  }

  /** The version behind the mark is a prerelease of the same three numbers. */
  predicate SamePre(b: Bounded, v: Version) {
    PreOf(b.version, v)
  }

  predicate PreOf(w: Written, v: Version) {
    w.pre != [] && w.numbers == NumbersOf(v)
  }

  /** Every bound takes the version, and a prerelease is named by one of them. */
  predicate SetTakes(set': seq<Bounded>, v: Version)
    requires ValidSet(set')
  {
    (forall b | b in set' :: Takes(b, v)) && (v.pre != [] ==> exists b | b in set' :: SamePre(b, v))
  }

  /** The same for a range from one version through another, which takes everything a partial high end names. */
  predicate ClauseTakes(p: Clause, v: Version)
    requires p.Valid()
  {
    match p
    case Bounds(bounds) => SetTakes(bounds, v)
    case Hyphen(low, high) =>
      && !Before(v, low.Lowest())
      && (if |high.numbers| == 3 then !Before(high.Lowest(), v) else !Past(v, high, |high.numbers|))
      && (v.pre != [] ==> PreOf(low, v) || PreOf(high, v))
  }

  // ---- one bound ----

  function MarkOf(mark: string): Mark {
    if mark == "=" then Exactly
    else if mark == "^" then Caret
    else if mark == "~" || mark == "~>" then Tilde
    else if mark == ">=" then AtLeast
    else if mark == ">" then Above
    else if mark == "<=" then AtMost
    else if mark == "<" then Below
    else Bare
  }

  lemma PrefixOne(token: string, c: char)
    ensures HasPrefix(token, [c]) <==> token != "" && token[0] == c
  {
  }

  lemma PrefixTwo(token: string, c: char, d: char)
    ensures HasPrefix(token, [c, d]) <==> |token| >= 2 && token[0] == c && token[1] == d
  {
    if |token| >= 2 && token[0] == c && token[1] == d {
      assert token[..2] == [c, d];
    }
  }

  lemma MarkReads(mark: string, text: string)
    requires mark in {"", "=", "^", "~", "~>", ">=", ">", "<=", "<"}
    requires text != "" && text[0] !in "<>=^~"
    ensures SplitMark(mark + text) == (MarkOf(mark), text)
  {
    hide HasPrefix;
    var token := mark + text;
    assert token[|mark|..] == text && token[|mark|] == text[0];
    assert |mark| == 2 ==> token[0] == mark[0] && token[1] == mark[1];
    assert |mark| == 1 ==> token[0] == mark[0];
    PrefixTwo(token, '<', '=');
    PrefixTwo(token, '>', '=');
    PrefixTwo(token, '~', '>');
    PrefixOne(token, '<');
    PrefixOne(token, '>');
    PrefixOne(token, '=');
    PrefixOne(token, '^');
    PrefixOne(token, '~');
  }

  /** The comparison of the first `k` numbers, told by where they part. */
  lemma FirstNumbers(v: Version, w: Written, k: nat)
    requires k <= |w.numbers| <= 3
    ensures CompareFirst(v, PartialOfWritten(w), k) == 0 <==> Agree(v, w, k)
    ensures CompareFirst(v, PartialOfWritten(w), k) > 0 <==> Past(v, w, k)
  {
    var ns := NumbersOf(v);
    assert k > 0 && ns[0] > w.numbers[0] ==> Agree(v, w, 0);
    assert k > 1 && ns[0] == w.numbers[0] && ns[1] > w.numbers[1] ==> Agree(v, w, 1);
    assert k > 2 && ns[0] == w.numbers[0] && ns[1] == w.numbers[1] && ns[2] > w.numbers[2] ==> Agree(v, w, 2);
  }

  lemma NotBelowLowest(v: Version, w: Written, k: nat)
    requires k <= |w.numbers| <= 3 && !Before(v, w.Lowest())
    ensures CompareFirst(v, PartialOfWritten(w), k) >= 0
  {
    hide CompareIdents;
  }

  lemma HoldsMeans(c: Comparator, v: Version)
    ensures Holds(c, v) <==>
      match c.op
      case Lt => Before(v, c.bound)
      case Le => !Before(c.bound, v)
      case Gt => Before(c.bound, v)
      case Ge => !Before(v, c.bound)
      case Eq => !Before(v, c.bound) && !Before(c.bound, v)
  {
    CompareVersionFlips(v, c.bound);
    hide CompareVersion;
  }

  predicate AllHold(cs: seq<Comparator>, v: Version) {
    forall i | 0 <= i < |cs| :: Holds(cs[i], v)
  }

  predicate SomePre(cs: seq<Comparator>, v: Version) {
    exists i :: 0 <= i < |cs| && SamePrerelease(cs[i].bound, v)
  }

  lemma OneHolds(x: Comparator, v: Version)
    ensures AllHold([x], v) <==> Holds(x, v)
    ensures SomePre([x], v) <==> SamePrerelease(x.bound, v)
  {
    assert [x][0] == x;
  }

  lemma TwoHold(x: Comparator, y: Comparator, v: Version)
    ensures AllHold([x, y], v) <==> Holds(x, v) && Holds(y, v)
    ensures SomePre([x, y], v) <==> SamePrerelease(x.bound, v) || SamePrerelease(y.bound, v)
  {
    assert [x, y][0] == x && [x, y][1] == y;
  }

  lemma LowestPre(b: Bounded, v: Version)
    requires b.Valid() && b.version.numbers != []
    ensures SamePrerelease(b.version.Lowest(), v) <==> SamePre(b, v)
  {
    assert |b.version.numbers| == 3 ==>
      b.version.numbers == [b.version.numbers[0], b.version.numbers[1], b.version.numbers[2]];
  }

  /** Nothing that stays before the end of what the first `k` numbers name shares its numbers with that end. */
  lemma UpTo(v: Version, w: Written, k: nat)
    requires 1 <= k <= |w.numbers| <= 3
    ensures var end := PartialOfWritten(w).After(k);
      && (Before(v, end) <==> !Past(v, w, k))
      && (Before(v, end) ==> !SamePrerelease(end, v))
  {
    AfterMeans(v, PartialOfWritten(w), k);
    FirstNumbers(v, w, k);
  }

  /** From the lowest version named through the first `k` numbers. */
  lemma FromThrough(b: Bounded, v: Version, k: nat)
    requires b.Valid() && 1 <= k <= |b.version.numbers|
    ensures var w := b.version;
      var cs := Between(w.Lowest(), PartialOfWritten(w).After(k));
      && (AllHold(cs, v) <==> !Before(v, w.Lowest()) && Agree(v, w, k))
      && (AllHold(cs, v) ==> (SomePre(cs, v) <==> SamePre(b, v)))
  {
    var w := b.version;
    var low, end := w.Lowest(), PartialOfWritten(w).After(k);
    UpTo(v, w, k);
    FirstNumbers(v, w, k);
    LowestPre(b, v);
    HoldsMeans(Comparator(Ge, low), v);
    HoldsMeans(Comparator(Lt, end), v);
    TwoHold(Comparator(Ge, low), Comparator(Lt, end), v);
    if !Before(v, low) {
      NotBelowLowest(v, w, k);
    }
    hide Before, Holds, CompareFirst, Agree, Past, SamePrerelease, SamePre, AllHold, SomePre;
  }

  lemma SingleBound(b: Bounded, v: Version, op: Op, bound: Version)
    requires b.Valid()
    requires (bound == b.version.Lowest() && |b.version.numbers| > 0)
             || (bound.pre == [] && |b.version.numbers| < 3)
             || (op == Lt && 1 <= |b.version.numbers| < 3
                 && bound == PartialOfWritten(b.version).After(|b.version.numbers|))
    ensures var x := Comparator(op, bound);
      && (AllHold([x], v) <==> Holds(x, v))
      && (Holds(x, v) ==> (SomePre([x], v) <==> SamePre(b, v)))
  {
    OneHolds(Comparator(op, bound), v);
    HoldsMeans(Comparator(op, bound), v);
    if |b.version.numbers| > 0 {
      LowestPre(b, v);
      UpTo(v, b.version, |b.version.numbers|);
    }
    hide Holds, Before;
  }

  lemma NoNumbers(mark: Mark, v: Version)
    ensures var cs := Desugar(mark, Partial(None, None, None, ""));
      && cs.Some?
      && (AllHold(cs.value, v) <==> mark != Above && mark != Below)
      && (AllHold(cs.value, v) ==> !SomePre(cs.value, v))
  {
    var nothing := Comparator(Lt, Version(0, 0, 0, LOWEST));
    OneHolds(nothing, v);
    HoldsMeans(nothing, v);
    if v.pre != [] {
      NothingBelowLowest(v.pre);
    }
    assert !Before(v, nothing.bound) by {
      assert LOWEST != [];
    }
    hide Holds, Before;
  }

  /** What the comparators of one bound take. */
  ghost predicate Faithful(b: Bounded, v: Version)
    requires b.Valid()
  {
    var cs := Desugar(MarkOf(b.mark), PartialOfWritten(b.version));
    && cs.Some?
    && (AllHold(cs.value, v) <==> Takes(b, v))
    && (Takes(b, v) ==> (SomePre(cs.value, v) <==> SamePre(b, v)))
  }

  lemma BetweenBounds(b: Bounded, v: Version)
    requires b.Valid() && b.version.numbers != [] && MarkOf(b.mark) in {Bare, Exactly, Caret, Tilde}
    requires PartialOfWritten(b.version).Floor() == Some(b.version.Lowest())
    ensures Faithful(b, v)
  {
    hide AllHold, SomePre, Holds, SamePre, SamePrerelease, Before, Agree, PrintPre, Partial.Floor, Partial.After;
    hide Written.Lowest;
    var w, p, mark := b.version, PartialOfWritten(b.version), MarkOf(b.mark);
    var low, k := w.Lowest(), |w.numbers|;
    assert p.Known() == k;
    if mark == Caret {
      FromThrough(b, v, CaretKeeps(p));
    } else if mark == Tilde {
      FromThrough(b, v, if k < 2 then k else 2);
    } else if k == 3 {
      SingleBound(b, v, Eq, low);
      HoldsMeans(Comparator(Eq, low), v);
    } else {
      FromThrough(b, v, k);
    }
  }

  lemma SideBounds(b: Bounded, v: Version)
    requires b.Valid() && b.version.numbers != [] && MarkOf(b.mark) in {AtLeast, Above, Below, AtMost}
    requires PartialOfWritten(b.version).Floor() == Some(b.version.Lowest())
    ensures Faithful(b, v)
  {
    hide AllHold, SomePre, Holds, SamePre, SamePrerelease, Before, Past, Agree, PrintPre, Partial.Floor, CaretKeeps;
    var w, p, mark := b.version, PartialOfWritten(b.version), MarkOf(b.mark);
    var low, k := w.Lowest(), |w.numbers|;
    assert p.Known() == k;
    var (op, bound) :=
      if mark == AtLeast then (Ge, low)
      else if mark == Below then (Lt, low)
      else if mark == Above then (if k == 3 then (Gt, low) else (Ge, p.After(k).(pre := [])))
      else if k == 3 then (Le, low) else (Lt, p.After(k));
    assert Desugar(mark, p) == Some([Comparator(op, bound)]);
    SingleBound(b, v, op, bound);
    HoldsMeans(Comparator(op, bound), v);
    UpTo(v, w, k);
  }

  lemma BoundTakes(b: Bounded, v: Version)
    requires b.Valid()
    ensures Faithful(b, v)
  {
    WrittenReadsBack(b.version);
    hide Written.Text, Written.Lowest, Partial.Floor, PartialOf, AllHold, SomePre, Holds, SamePrerelease, Before;
    hide Faithful;
    if b.version.numbers == [] {
      NothingNamed(b, v);
    } else if MarkOf(b.mark) in {Bare, Exactly, Caret, Tilde} {
      BetweenBounds(b, v);
    } else {
      SideBounds(b, v);
    }
  }

  lemma NothingNamed(b: Bounded, v: Version)
    requires b.Valid() && b.version.numbers == []
    ensures Faithful(b, v)
  {
    hide AllHold, SomePre, Desugar;
    assert PrintPre([]) == "";
    NoNumbers(MarkOf(b.mark), v);
  }

  // ---- a set of bounds ----

  function Token(b: Bounded): string
    requires b.Valid()
  {
    b.mark + b.version.Text()
  }

  function TokensOf(set': seq<Bounded>): seq<string>
    requires ValidSet(set')
  {
    if set' == [] then [] else TokensOf(set'[..|set'| - 1]) + [Token(set'[|set'| - 1])]
  }

  lemma TokenReads(b: Bounded)
    requires b.Valid()
    ensures ComparatorsOf(Token(b)) == Desugar(MarkOf(b.mark), PartialOfWritten(b.version))
  {
    WrittenReadsBack(b.version);
    hide Written.Text, PartialOf, Desugar;
    MarkReads(b.mark, b.version.Text());
  }

  lemma {:induction false} AllRead(set': seq<Bounded>, v: Version)
    requires ValidSet(set')
    ensures var cs := AllComparators(TokensOf(set'));
      && cs.Some?
      && (AllHold(cs.value, v) <==> forall b | b in set' :: Takes(b, v))
      && ((forall b | b in set' :: Takes(b, v)) ==> (SomePre(cs.value, v) <==> exists b | b in set' :: SamePre(b, v)))
  {
    hide ComparatorsOf, Token, Takes, SamePre, Holds, SamePrerelease, Bounded.Valid;
    if set' != [] {
      var init, last := set'[..|set'| - 1], set'[|set'| - 1];
      assert set' == init + [last];
      AllRead(init, v);
      TokenReads(last);
      BoundTakes(last, v);
      assert TokensOf(set') == TokensOf(init) + [Token(last)];
      assert (TokensOf(init) + [Token(last)])[..|TokensOf(init)|] == TokensOf(init);
      var xs, ys := AllComparators(TokensOf(init)).value, ComparatorsOf(Token(last)).value;
      JoinedHold(xs, ys, v);
      assert AllComparators(TokensOf(set')) == Some(xs + ys);
      hide AllHold, SomePre, AllComparators, TokensOf;
    }
  }

  lemma JoinedHold(xs: seq<Comparator>, ys: seq<Comparator>, v: Version)
    ensures AllHold(xs + ys, v) <==> AllHold(xs, v) && AllHold(ys, v)
    ensures SomePre(xs + ys, v) <==> SomePre(xs, v) || SomePre(ys, v)
  {
    hide Holds, SamePrerelease;
    var zs := xs + ys;
    assert forall i | 0 <= i < |xs| :: zs[i] == xs[i];
    assert forall i | 0 <= i < |ys| :: zs[|xs| + i] == ys[i];
    if SomePre(xs, v) {
      var i :| 0 <= i < |xs| && SamePrerelease(xs[i].bound, v);
      assert SamePrerelease(zs[i].bound, v);
    }
    if SomePre(ys, v) {
      var i :| 0 <= i < |ys| && SamePrerelease(ys[i].bound, v);
      assert SamePrerelease(zs[|xs| + i].bound, v);
    }
    if AllHold(zs, v) {
      forall i | 0 <= i < |xs|
        ensures Holds(xs[i], v)
      {
        assert Holds(zs[i], v);
      }
      forall i | 0 <= i < |ys|
        ensures Holds(ys[i], v)
      {
        assert Holds(zs[|xs| + i], v);
      }
    }
  }

  // ---- words ----

  /** A word of a set holds no space and no bar, and is no lone dash. */
  predicate PlainWord(word: string) {
    word != "" && word != "-" && NoSpace(word) && '|' !in word
  }

  predicate WordChar(c: char) {
    TextChar(c) || c in "<>=^~"
  }

  lemma WordCharsArePlain(s: string)
    requires s != "" && s[0] != '-' && forall i | 0 <= i < |s| :: WordChar(s[i])
    ensures PlainWord(s)
  {
    assert forall c | WordChar(c) :: !IsSpace(c) && c != '|';
    hide WordChar, IsSpace;
  }

  lemma TextChars(w: Written)
    requires w.Valid()
    ensures var t := w.Text();
      t != "" && t[0] !in "<>=^~-" && forall i | 0 <= i < |t| :: WordChar(t[i])
  {
    WrittenReadsBack(w);
    hide Written.Text, PartialOf, TextChar;
  }

  lemma MarkChars(mark: string)
    requires mark in {"", "=", "^", "~", "~>", ">=", ">", "<=", "<"}
    ensures OnlyMarks(mark) && forall i | 0 <= i < |mark| :: WordChar(mark[i]) && mark[i] != '-'
  {
  }

  lemma WordOfChars(m: string, t: string)
    requires t != "" && t[0] !in "<>=^~-" && forall i | 0 <= i < |t| :: WordChar(t[i])
    requires OnlyMarks(m) && forall i | 0 <= i < |m| :: WordChar(m[i]) && m[i] != '-'
    ensures PlainWord(t) && PlainWord(m + t) && (m != "" ==> PlainWord(m))
    ensures !OnlyMarks(t) && !OnlyMarks(m + t)
  {
    hide WordChar, PlainWord;
    var s := m + t;
    assert s[|m|] == t[0];
    assert forall i | 0 <= i < |s| :: s[i] == if i < |m| then m[i] else t[i - |m|];
    WordCharsArePlain(t);
    WordCharsArePlain(s);
    if m != "" {
      WordCharsArePlain(m);
    }
  }

  lemma VersionWord(b: Bounded)
    requires b.Valid()
    ensures PlainWord(b.version.Text()) && PlainWord(Token(b))
    ensures b.mark != "" ==> PlainWord(b.mark)
    ensures OnlyMarks(b.mark) && !OnlyMarks(b.version.Text()) && !OnlyMarks(Token(b))
  {
    hide Written.Text, WordChar, OnlyMarks, PlainWord;
    TextChars(b.version);
    MarkChars(b.mark);
    WordOfChars(b.mark, b.version.Text());
  }

  lemma {:induction false} SetWordsArePlain(set': seq<Bounded>)
    requires ValidSet(set')
    ensures forall w | w in SetWords(set') :: PlainWord(w)
    ensures Tokens(SetWords(set')) == (TokensOf(set'), "")
  {
    hide PlainWord, OnlyMarks, Token, Written.Text, Bounded.Valid, Bounded.Words;
    if set' != [] {
      var init, last := set'[..|set'| - 1], set'[|set'| - 1];
      assert last in set';
      SetWordsArePlain(init);
      WordsArePlain(last);
      WordsAreToken(SetWords(init), TokensOf(init), last);
      hide Tokens;
    }
  }

  lemma WordsArePlain(b: Bounded)
    requires b.Valid()
    ensures forall w | w in b.Words() :: PlainWord(w)
  {
    VersionWord(b);
    hide PlainWord, OnlyMarks, Written.Text;
  }

  lemma WordsAreToken(words: seq<string>, tokens: seq<string>, b: Bounded)
    requires b.Valid() && Tokens(words) == (tokens, "")
    ensures Tokens(words + b.Words()) == (tokens + [Token(b)], "")
  {
    VersionWord(b);
    var ws, m, t := b.Words(), b.mark, b.version.Text();
    assert ws == if b.apart && m != "" then [m, t] else [m + t];
    assert m + t == Token(b);
    hide Bounded.Valid, Token, PlainWord, OnlyMarks, Bounded.Words, Written.Text, Tokens;
    if |ws| == 1 {
      OneMoreWord(words, m + t, tokens, "");
      assert "" + (m + t) == m + t;
    } else {
      OneMoreWord(words, m, tokens, "");
      assert "" + m == m;
      OneMoreWord(words + [m], t, tokens, m);
      assert words + ws == words + [m] + [t];
    }
  }

  lemma OneMoreWord(words: seq<string>, word: string, tokens: seq<string>, pending: string)
    requires Tokens(words) == (tokens, pending)
    ensures Tokens(words + [word]) ==
      if OnlyMarks(word) then (tokens, pending + word) else (tokens + [pending + word], "")
  {
    hide OnlyMarks;
    assert (words + [word])[..|words|] == words;
  }

  lemma SpaceSkipped(s: string)
    ensures Words(" " + s) == Words(s)
  {
    assert (" " + s)[1..] == s;
    assert TrimStart(" " + s) == TrimStart(s);
  }

  lemma FirstWord(word: string, rest: string)
    requires word != "" && NoSpace(word)
    ensures Words(word + " " + rest) == [word] + Words(rest)
  {
    var s := word + " " + rest;
    assert s[0] == word[0] && TrimStart(s) == s;
    assert forall i | 0 <= i < |word| :: s[i] == word[i];
    assert s[|word|] == ' ' && WordRun(s) == |word|;
    assert s[..|word|] == word && s[|word|..] == " " + rest;
    SpaceSkipped(rest);
  }

  lemma {:induction false} WordsJoined(words: seq<string>)
    requires forall w | w in words :: PlainWord(w)
    ensures Words(Join(words, " ")) == words
  {
    hide Words;
    if words == [] {
      NoWords();
    } else {
      assert PlainWord(words[0]);
      if |words| == 1 {
        OneWord(words[0]);
      } else {
        WordsJoined(words[1..]);
        FirstWord(words[0], Join(words[1..], " "));
        assert words == [words[0]] + words[1..];
      }
    }
  }

  lemma NoWords()
    ensures Words("") == []
  {
  }

  lemma {:induction false} TrimStartIsSuffix(s: string) returns (o: nat)
    ensures o <= |s| && TrimStart(s) == s[o..] && forall i | 0 <= i < o :: IsSpace(s[i])
  {
    o := 0;
    if s != [] && IsSpace(s[0]) {
      var o' := TrimStartIsSuffix(s[1..]);
      o := o' + 1;
    }
  }

  /** The text " - " at `k`, a character at a time. */
  predicate DashAt(s: string, k: nat) {
    k + 3 <= |s| && s[k] == ' ' && s[k + 1] == '-' && s[k + 2] == ' '
  }

  lemma AtIsDashAt(s: string, k: nat)
    requires At(s, " - ", k)
    ensures DashAt(s, k)
  {
    var part := s[k..k + 3];
    assert part[0] == s[k] && part[1] == s[k + 1] && part[2] == s[k + 2];
  }

  lemma DashShifts(s: string, m: nat, k: nat)
    requires m <= k && DashAt(s, k)
    ensures DashAt(s[m..], k - m)
  {
  }

  /** A dash between spaces is a word. */
  lemma {:induction false} DashIsAWord(s: string, k: nat)
    requires DashAt(s, k)
    ensures "-" in Words(s)
    decreases |s|
  {
    hide TrimStart, WordRun, IsSpace, Words, DashAt;
    var o := TrimStartIsSuffix(s);
    DashPlaces(s, k);
    assert o <= k + 1;
    var t := s[o..];
    assert |t| == |s| - o;
    WordsUnfold(s, t);
    var n := WordRun(t);
    if o == k + 1 {
      assert t[0] == s[k + 1] && t[1] == s[k + 2];
      assert !IsSpace(t[0]) && IsSpace(t[1]) && n == 1;
      assert t[..1] == "-";
    } else {
      assert IsSpace(t[k - o]);
      assert n <= k - o && t[n..] == s[o + n..];
      DashShifts(s, o + n, k);
      DashIsAWord(s[o + n..], k - o - n);
    }
  }

  lemma DashPlaces(s: string, k: nat)
    requires DashAt(s, k)
    ensures k + 3 <= |s| && s[k + 1] == '-' && IsSpace(s[k]) && !IsSpace(s[k + 1]) && IsSpace(s[k + 2])
  {
  }

  lemma WordsUnfold(s: string, t: string)
    requires TrimStart(s) == t && t != ""
    ensures Words(s) == [t[..WordRun(t)]] + Words(t[WordRun(t)..])
    ensures WordRun(t) > 0
  {
  }

  lemma NoHyphen(s: string)
    requires "-" !in Words(s)
    ensures Find(s, " - ").None?
  {
    hide Words, DashAt;
    if Find(s, " - ").Some? {
      AtIsDashAt(s, Find(s, " - ").value);
      DashIsAWord(s, Find(s, " - ").value);
    }
  }

  lemma SetIsTokens(set': seq<Bounded>)
    requires ValidSet(set')
    ensures SetOf(SetText(set')) == AllComparators(TokensOf(set'))
  {
    var words := SetWords(set');
    SetWordsArePlain(set');
    hide SetWords, Words, Tokens, TokensOf, AllComparators, Join, IsSpace, NoSpace, Bounded.Valid, Find;
    assert "-" !in words;
    hide PlainWord;
    WordsJoined(words);
    NoHyphen(SetText(set'));
  }

  lemma FitsMeans(cs: seq<Comparator>, v: Version)
    ensures Fits(cs, v) <==> AllHold(cs, v) && (v.pre != [] ==> SomePre(cs, v))
  {
    hide Holds, SamePrerelease;
  }

  /** What the text of one set is read as, and takes. */
  lemma SetReads(set': seq<Bounded>, v: Version)
    requires ValidSet(set')
    ensures SetOf(SetText(set')).Some?
    ensures Fits(SetOf(SetText(set')).value, v) <==> SetTakes(set', v)
  {
    hide Takes, SamePre, SetOf, SetText, Fits, AllHold, SomePre, TokensOf, AllComparators, Bounded.Valid;
    SetIsTokens(set');
    AllRead(set', v);
    FitsMeans(SetOf(SetText(set')).value, v);
  }

  // ---- a whole range ----

  /** The parts of a range between its bars: each set's text, with the spaces left around it. */
  function Pieces(lead: string, texts: seq<string>): seq<string>
    requires texts != []
    decreases |texts|
  {
    if |texts| == 1 then [lead + texts[0]] else [lead + texts[0] + " "] + Pieces(" ", texts[1..])
  }

  lemma {:induction false} PiecesTrim(lead: string, texts: seq<string>)
    requires texts != [] && lead in {"", " "} && forall t | t in texts :: Tight(t)
    ensures |Pieces(lead, texts)| == |texts|
    ensures forall i | 0 <= i < |texts| :: Trim(Pieces(lead, texts)[i]) == texts[i]
    decreases |texts|
  {
    hide Trim, Tight;
    assert texts[0] in texts;
    if |texts| == 1 {
      assert lead + texts[0] == lead + texts[0] + "";
      TrimsTo(lead, texts[0], "");
    } else {
      TrimsTo(lead, texts[0], " ");
      PiecesTrim(" ", texts[1..]);
      assert forall i | 1 <= i < |texts| :: Pieces(lead, texts)[i] == Pieces(" ", texts[1..])[i - 1];
    }
  }

  lemma BarsAt(s: string, k: nat)
    ensures At(s, "||", k) ==> k < |s| && s[k] == '|'
  {
    if At(s, "||", k) {
      assert s[k..k + 2][0] == s[k];
    }
  }

  lemma FirstBars(first: string, rest: string)
    requires '|' !in first
    ensures Find(first + "||" + rest, "||") == Some(|first|)
  {
    hide Find;
    var s := first + "||" + rest;
    assert s[|first|..|first| + 2] == "||";
    assert At(s, "||", |first|);
    hide At;
    forall k | 0 <= k < |first|
      ensures !At(s, "||", k)
    {
      BarsAt(s, k);
      assert s[k] == first[k] && first[k] in first;
    }
  }

  lemma {:induction false} BarsSplit(lead: string, texts: seq<string>)
    requires texts != [] && lead in {"", " "} && forall t | t in texts :: '|' !in t
    decreases |texts|
    ensures SplitText(lead + Join(texts, " || "), "||") == Pieces(lead, texts)
  {
    hide Find;
    var first := lead + texts[0];
    assert texts[0] in texts;
    if |texts| == 1 {
      assert '|' !in first;
      NotInside(first, "||");
    } else {
      var rest := Join(texts[1..], " || ");
      var s := lead + Join(texts, " || ");
      assert s == (first + " ") + "||" + (" " + rest);
      FirstBars(first + " ", " " + rest);
      assert s[..|first| + 1] == first + " " && s[|first| + 3..] == " " + rest;
      BarsSplit(" ", texts[1..]);
    }
  }

  /** A text with no space at either end. */
  predicate Tight(s: string) {
    s == "" || (!IsSpace(s[0]) && !IsSpace(s[|s| - 1]))
  }

  lemma TrimStartOf(t: string)
    requires t == "" || !IsSpace(t[0])
    ensures TrimStart(t) == t && TrimStart(" " + t) == t
  {
    assert (" " + t)[1..] == t;
  }

  lemma TrimEndOf(t: string)
    requires t == "" || !IsSpace(t[|t| - 1])
    ensures TrimEnd(t) == t && TrimEnd(t + " ") == t
  {
    assert (t + " ")[..|t|] == t;
  }

  lemma TrimsTo(before: string, s: string, after: string)
    requires Tight(s) && before in {"", " "} && after in {"", " "}
    ensures Trim(before + s + after) == s
  {
    hide TrimStart, TrimEnd, IsSpace;
    assert before + s + after == before + (s + after);
    if s == "" {
      OnlySpaces();
      assert before + s + after == before + after;
      assert " " + " " == "  " && "" + " " == " " && " " + "" == " " && "" + "" == "";
    } else {
      var t := s + after;
      assert t[0] == s[0];
      TrimStartOf(t);
      TrimEndOf(s);
      assert "" + t == t && s + "" == s;
    }
  }

  lemma OnlySpaces()
    ensures Trim("") == "" && Trim(" ") == "" && Trim("  ") == ""
  {
    assert " "[1..] == "" && "  "[1..] == " ";
    assert TrimStart("") == "" && TrimStart(" ") == "" && TrimStart("  ") == "";
  }

  lemma {:induction false} JoinedWords(words: seq<string>)
    requires forall w | w in words :: PlainWord(w)
    ensures Tight(Join(words, " ")) && '|' !in Join(words, " ")
    ensures words != [] ==> Join(words, " ") != ""
  {
    hide IsSpace;
    if words != [] {
      assert PlainWord(words[0]);
      if |words| > 1 {
        JoinedWords(words[1..]);
        var s, rest := Join(words, " "), Join(words[1..], " ");
        assert s == words[0] + " " + rest;
        assert s[0] == words[0][0] && s[|s| - 1] == rest[|rest| - 1];
      }
    }
  }

  lemma SetTextIsTight(set': seq<Bounded>)
    requires ValidSet(set')
    ensures Tight(SetText(set')) && '|' !in SetText(set')
  {
    SetWordsArePlain(set');
    JoinedWords(SetWords(set'));
    hide Join, SetWords, Tight, PlainWord;
  }

  // ---- from one version through another ----

  lemma WrittenIsPlain(w: Written)
    requires w.Valid()
    ensures PlainWord(w.Text())
  {
    TextChars(w);
    hide Written.Text, WordChar, PlainWord;
    WordCharsArePlain(w.Text());
  }

  lemma DashFound(first: string, rest: string)
    requires NoSpace(first)
    ensures Find(first + " - " + rest, " - ") == Some(|first|)
  {
    hide Find;
    var s := first + " - " + rest;
    assert s[|first|..|first| + 3] == " - ";
    assert At(s, " - ", |first|);
    forall k | 0 <= k < |first|
      ensures !At(s, " - ", k)
    {
      assert s[k] == first[k];
      SpaceAt(s, k);
      SpaceIsSpace();
    }
    hide At;
  }

  lemma SpaceAt(s: string, k: nat)
    ensures At(s, " - ", k) ==> k < |s| && s[k] == ' '
  {
    if At(s, " - ", k) {
      assert s[k..k + 3][0] == s[k];
    }
  }

  lemma SpaceIsSpace()
    ensures IsSpace(' ')
  {
  }

  lemma HyphenText(x: string, y: string)
    requires PlainWord(x) && PlainWord(y)
    ensures var text := x + " - " + y;
      && Find(text, " - ") == Some(|x|) && text[..|x|] == x && text[|x| + 3..] == y
      && Tight(text) && '|' !in text
  {
    var text := x + " - " + y;
    DashFound(x, y);
    assert text[0] == x[0] && text[|text| - 1] == y[|y| - 1];
    hide Find, IsSpace;
  }

  lemma ThreeAtMost(w: Written)
    requires w.Valid()
    ensures |w.numbers| <= 3
  {
  }

  /** What a hyphen range is read as, and takes. */
  lemma HyphenReads(low: Written, high: Written, v: Version)
    requires low.Valid() && high.Valid()
    ensures var text := low.Text() + " - " + high.Text();
      && SetOf(text).Some?
      && (Fits(SetOf(text).value, v) <==> ClauseTakes(Hyphen(low, high), v))
      && Tight(text) && '|' !in text
  {
    hide Written.Text, Written.Lowest, PartialOf, HyphenSet, Fits, ClauseTakes, PartialOfWritten, Written.Valid;
    hide Partial.Floor, TextChar, PlainWord, Find, Tight, AllComparators, Tokens, Words;
    WrittenReadsBack(low);
    WrittenReadsBack(high);
    WrittenIsPlain(low);
    WrittenIsPlain(high);
    assert |low.numbers| <= 3 && |high.numbers| <= 3 by {
      ThreeAtMost(low);
      ThreeAtMost(high);
    }
    HyphenText(low.Text(), high.Text());
    HyphenTakes(low, high, v);
  }

  lemma LowestPreOf(w: Written, v: Version)
    requires w.Valid() && (|w.numbers| == 3 || w.pre == [])
    ensures SamePrerelease(w.Lowest(), v) <==> PreOf(w, v)
  {
    assert |w.numbers| == 3 ==> w.numbers == [w.numbers[0], w.numbers[1], w.numbers[2]];
  }

  lemma HyphenTakes(low: Written, high: Written, v: Version)
    requires low.Valid() && high.Valid()
    ensures var cs := HyphenSet(PartialOfWritten(low), PartialOfWritten(high));
      cs.Some? && (Fits(cs.value, v) <==> ClauseTakes(Hyphen(low, high), v))
  {
    WrittenReadsBack(low);
    WrittenReadsBack(high);
    hide Written.Text, PartialOf, AllHold, SomePre, Holds, SamePrerelease, Before, Written.Lowest, Partial.Floor, Fits;
    hide Past, PreOf, Partial.After, PrintPre;
    var floor, k := low.Lowest(), |high.numbers|;
    var ge := Comparator(Ge, floor);
    LowestPreOf(low, v);
    HoldsMeans(ge, v);
    NothingPast(v, high);
    if k == 0 {
      OneHolds(ge, v);
      FitsMeans([ge], v);
      LowestPreOf(high, v);
      NoPreOf(high, v);
    } else if k == 3 {
      var le := Comparator(Le, high.Lowest());
      HoldsMeans(le, v);
      LowestPreOf(high, v);
      TwoHold(ge, le, v);
      FitsMeans([ge, le], v);
    } else {
      var lt := Comparator(Lt, PartialOfWritten(high).After(k));
      HoldsMeans(lt, v);
      UpTo(v, high, k);
      NoPreOf(high, v);
      TwoHold(ge, lt, v);
      FitsMeans([ge, lt], v);
    }
  }

  lemma NothingPast(v: Version, w: Written)
    ensures !Past(v, w, 0)
  {
  }

  lemma NoPreOf(w: Written, v: Version)
    requires w.Valid() && |w.numbers| < 3
    ensures !PreOf(w, v)
  {
  }

  lemma ClauseReads(p: Clause, v: Version)
    requires p.Valid()
    ensures SetOf(p.Text()).Some?
    ensures Fits(SetOf(p.Text()).value, v) <==> ClauseTakes(p, v)
    ensures Tight(p.Text()) && '|' !in p.Text()
  {
    hide SetOf, Fits, Tight, SetText, SetTakes, Written.Text;
    match p {
      case Bounds(bounds) =>
        SetReads(bounds, v);
        SetTextIsTight(bounds);
      case Hyphen(low, high) =>
        HyphenReads(low, high, v);
    }
  }

  /** A range as it is written takes a version exactly when one of its clauses has every bound take it and, for a
      prerelease, one of those bounds on a prerelease of the same three numbers. */
  lemma WrittenRangeTakes(range: seq<Clause>, v: Version, answer: Option<bool>)
    requires range != [] && ValidRange(range) && RangeSays(Join(ClauseTexts(range), " || "), v, answer)
    ensures answer == Some(exists p | p in range :: ClauseTakes(p, v))
  {
    hide ClauseTakes, Clause.Text, Clause.Valid, Tight, Join, SetOf, Fits, Trim, SplitText, Pieces;
    var texts := ClauseTexts(range);
    forall i | 0 <= i < |range|
      ensures Tight(texts[i]) && '|' !in texts[i]
      ensures SetOf(texts[i]).Some? && (Fits(SetOf(texts[i]).value, v) <==> ClauseTakes(range[i], v))
    {
      assert range[i] in range;
      ClauseReads(range[i], v);
    }
    BarsSplit("", texts);
    assert "" + Join(texts, " || ") == Join(texts, " || ");
    PiecesTrim("", texts);
    var parts := SplitText(Join(texts, " || "), "||");
    assert forall i | 0 <= i < |parts| :: Trim(parts[i]) == texts[i];
    if p :| p in range && ClauseTakes(p, v) {
      var i :| 0 <= i < |range| && range[i] == p;
      assert SetOf(Trim(parts[i])).Some? && Fits(SetOf(Trim(parts[i])).value, v);
    }
  }

  // ---- one mark before a whole version, among releases ----

  /** The three numbers of `v`, as one, are below those of `w`. */
  predicate Lower(v: Version, w: Version) {
    v.major < w.major
    || (v.major == w.major && (v.minor < w.minor || (v.minor == w.minor && v.patch < w.patch)))
  }

  /** What a mark before `w` is for, among releases. */
  predicate TakesRelease(mark: string, w: Version, v: Version) {
    if mark == ">=" then !Lower(v, w)
    else if mark == "<" then Lower(v, w)
    else if mark == ">" then Lower(w, v) || (!Lower(v, w) && w.pre != [])
    else if mark == "<=" then Lower(v, w) || (!Lower(w, v) && w.pre == [])
    else if mark == "~" || mark == "~>" then !Lower(v, w) && v.major == w.major && v.minor == w.minor
    else if mark == "^" then
      && !Lower(v, w) && v.major == w.major
      && (w.major == 0 ==> v.minor == w.minor && (w.minor == 0 ==> v.patch == w.patch))
    else v == w
  }

  lemma ReleasesByNumbers(v: Version, w: Version)
    requires v.pre == []
    ensures Before(v, w) <==> Lower(v, w)
    ensures Before(w, v) <==> Lower(w, v) || (!Lower(v, w) && w.pre != [])
  {
    hide CompareIdents;
  }

  function Whole(w: Version): (written: Written)
    requires Allowed(w)
    ensures written.Valid() && written.Lowest() == w && written.Text() == PrintVersion(w)
  {
    Written(false, [w.major, w.minor, w.patch], "", w.pre, "")
  }

  lemma OneBoundText(b: Bounded, w: Version)
    requires b.Valid() && (b.apart ==> b.mark != "") && Allowed(w) && b.version == Whole(w)
    ensures ValidRange([Bounds([b])])
    ensures Join(ClauseTexts([Bounds([b])]), " || ") == b.mark + (if b.apart then " " else "") + PrintVersion(w)
  {
    var t := PrintVersion(w);
    hide PrintVersion;
    assert [b][..0] == [] && SetWords([b]) == [] + b.Words() == b.Words();
    if b.apart {
      assert [b.mark, t][1..] == [t];
      assert Join([b.mark, t], " ") == b.mark + " " + t;
    } else {
      assert Join([b.mark + t], " ") == b.mark + t;
    }
    assert ClauseTexts([Bounds([b])]) == [SetText([b])];
  }

  lemma OneBoundTakes(b: Bounded, w: Version, v: Version)
    requires b.Valid() && Allowed(w) && b.version == Whole(w) && v.pre == []
    ensures ValidRange([Bounds([b])])
    ensures (exists p | p in [Bounds([b])] :: ClauseTakes(p, v)) <==> TakesRelease(b.mark, w, v)
  {
    ReleasesByNumbers(v, w);
    assert ValidSet([b]);
    assert SetTakes([b], v) <==> Takes(b, v) by {
      hide Takes;
    }
    assert (exists p | p in [Bounds([b])] :: ClauseTakes(p, v)) <==> SetTakes([b], v) by {
      hide SetTakes;
      assert Bounds([b]) in [Bounds([b])];
    }
    hide Before, SetTakes, ClauseTakes, Whole;
  }

  /** Each mark before a version, with or without a space: what it takes of the releases, by their numbers. */
  lemma EachMarkTakes(mark: string, apart: bool, w: Version, v: Version, answer: Option<bool>)
    requires mark in {"", "=", "^", "~", "~>", ">=", ">", "<=", "<"} && Allowed(w) && v.pre == []
    requires apart ==> mark != ""
    requires RangeSays(mark + (if apart then " " else "") + PrintVersion(w), v, answer)
    ensures answer == Some(TakesRelease(mark, w, v))
  {
    var b := Bounded(mark, apart, Whole(w));
    OneBoundText(b, w);
    hide PrintVersion, RangeSays, Join, ClauseTexts, Whole;
    WrittenRangeTakes([Bounds([b])], v, answer);
    OneBoundTakes(b, w, v);
  }
}
