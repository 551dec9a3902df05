/** rpm's version order as scripts/update-centos.py compares it: the two-index comparator, the
    lexicographic order on tokens it refines, and the highest build per package. */
module RpmOrder {
  import opened Wrappers
  import opened Decimal
  import opened Text

  // ---- characters ----

  predicate IsLetter(c: char) {
    'a' <= c <= 'z' || 'A' <= c <= 'Z'
  }

  predicate IsSeparator(c: char) {
    !IsDigit(c) && !IsLetter(c) && c != '~' && c != '^'
  }

  /** The length of the longest run of digits (or of letters) `s` starts with. */
  function DigitRun(s: string): (n: nat)
    ensures n <= |s| && forall i | 0 <= i < n :: IsDigit(s[i])
    ensures n < |s| ==> !IsDigit(s[n])
  {
    if s == [] || !IsDigit(s[0]) then 0 else 1 + DigitRun(s[1..])
  }

  function LetterRun(s: string): (n: nat)
    ensures n <= |s| && forall i | 0 <= i < n :: IsLetter(s[i])
    ensures n < |s| ==> !IsLetter(s[n])
  {
    if s == [] || !IsLetter(s[0]) then 0 else 1 + LetterRun(s[1..])
  }

  function StripZeros(s: string): string {
    if s != [] && s[0] == '0' then StripZeros(s[1..]) else s
  }

  // ---- tokens ----

  /** What a version is made of once separators are dropped; a number keeps no leading zeros. */
  datatype Token = Tilde | Caret | Letters(text: string) | Digits(text: string)

  function Tokens(s: string): seq<Token>
    decreases |s|
  {
    if s == [] then []
    else if IsSeparator(s[0]) then Tokens(s[1..])
    else if s[0] == '~' then [Tilde] + Tokens(s[1..])
    else if s[0] == '^' then [Caret] + Tokens(s[1..])
    else if IsDigit(s[0]) then [Digits(StripZeros(s[..DigitRun(s)]))] + Tokens(s[DigitRun(s)..])
    else [Letters(s[..LetterRun(s)])] + Tokens(s[LetterRun(s)..])
  }

  /** A token's class: `~` < the end < `^` < letters < digits. */
  function Class(t: Option<Token>): nat {
    match t
    case Some(Tilde) => 0
    case None => 1
    case Some(Caret) => 2
    case Some(Letters(_)) => 3
    case Some(Digits(_)) => 4
  }

  function CompareToken(a: Option<Token>, b: Option<Token>): int {
    if Class(a) != Class(b) then (if Class(a) > Class(b) then 1 else -1)
    else match a
      case Some(Letters(x)) => CompareText(x, b.value.text)
      case Some(Digits(x)) =>
        var y := b.value.text;
        if |x| != |y| then (if |x| > |y| then 1 else -1) else CompareText(x, y)
      case _ => 0
  }

  function Head(s: seq<Token>): Option<Token> {
    if s == [] then None else Some(s[0])
  }

  /** The simple order: the first tokens that differ decide. */
  function CompareTokens(a: seq<Token>, b: seq<Token>): int
    decreases |a|
  {
    var here := CompareToken(Head(a), Head(b));
    if here != 0 then here
    else if a == [] || b == [] then 0
    else CompareTokens(a[1..], b[1..])
  }

  // ---- the comparator ----

  function SkipSeparators(s: string, i: nat): (j: nat)
    requires i <= |s|
    ensures i <= j <= |s| && Tokens(s[j..]) == Tokens(s[i..])
    ensures j < |s| ==> !IsSeparator(s[j])
    decreases |s| - i
  {
    if i < |s| && IsSeparator(s[i]) then
      assert s[i..][1..] == s[i + 1..];
      SkipSeparators(s, i + 1)
    else i
  }

  /** The token at `i`, and where the next one starts. */
  function TokenAt(s: string, i: nat): Option<Token>
    requires i <= |s| && (i < |s| ==> !IsSeparator(s[i]))
  {
    if i == |s| then None
    else if s[i] == '~' then Some(Tilde)
    else if s[i] == '^' then Some(Caret)
    else Some(TokenOf(Segment(s[i..])))
  }

  function TokenOf(segment: string): Token
    requires segment != []
  {
    if IsDigit(segment[0]) then Digits(StripZeros(segment)) else Letters(segment)
  }

  function NextAt(s: string, i: nat): (n: nat)
    requires i <= |s| && (i < |s| ==> !IsSeparator(s[i]))
    ensures n <= |s|
  {
    if i == |s| then i
    else if s[i] == '~' || s[i] == '^' then i + 1
    else i + |Segment(s[i..])|
  }

  /** The run of digits or of letters at the front: what the pattern matches there. */
  function Segment(s: string): (x: string)
    requires s != [] && (IsDigit(s[0]) || IsLetter(s[0]))
    ensures x != [] && x[0] == s[0] && |x| <= |s|
    ensures x == s[..if IsDigit(s[0]) then DigitRun(s) else LetterRun(s)]
  {
    if IsDigit(s[0]) then s[..DigitRun(s)] else s[..LetterRun(s)]
  }

  lemma TokensStep(s: string, i: nat)
    requires i <= |s| && (i < |s| ==> !IsSeparator(s[i]))
    ensures var t := TokenAt(s, i);
      Tokens(s[i..]) == if t.Some? then [t.value] + Tokens(s[NextAt(s, i)..]) else []
  {
    if i < |s| {
      var t := s[i..];
      assert t[0] == s[i] && t[1..] == s[i + 1..];
      if s[i] != '~' && s[i] != '^' {
        var x := Segment(t);
        assert t[|x|..] == s[i + |x|..];
      }
    }
  }

  /** One step of the comparator: equal tokens are passed over, anything else decides. */
  lemma CompareStep(a: string, i: nat, b: string, j: nat)
    requires i <= |a| && (i < |a| ==> !IsSeparator(a[i]))
    requires j <= |b| && (j < |b| ==> !IsSeparator(b[j]))
    ensures var here := CompareToken(TokenAt(a, i), TokenAt(b, j));
      CompareTokens(Tokens(a[i..]), Tokens(b[j..])) ==
      if here != 0 then here
      else if i == |a| || j == |b| then 0
      else CompareTokens(Tokens(a[NextAt(a, i)..]), Tokens(b[NextAt(b, j)..]))
  {
    TokensStep(a, i);
    TokensStep(b, j);
    hide Tokens, CompareToken, NextAt;
    var s, t := Tokens(a[i..]), Tokens(b[j..]);
    assert Head(s) == TokenAt(a, i) && Head(t) == TokenAt(b, j);
    assert i < |a| ==> s[1..] == Tokens(a[NextAt(a, i)..]);
    assert j < |b| ==> t[1..] == Tokens(b[NextAt(b, j)..]);
  }

  /** The part of `rpmvercmp` that compares two segments: digits above letters, more digits above
      fewer, then as text. */
  method CompareSegments(segment: string, segment': string) returns (r: int)
    requires segment != [] && segment' != []
    ensures r == CompareToken(Some(TokenOf(segment)), Some(TokenOf(segment')))
  {
    var x, y := segment, segment';
    if IsDigit(x[0]) != IsDigit(y[0]) {
      return if IsDigit(x[0]) then 1 else -1;
    }
    if IsDigit(x[0]) {
      x, y := StripZeros(x), StripZeros(y);
      if |x| != |y| {
        return if |x| > |y| then 1 else -1;
      }
    }
    CompareTextEqual(x, y);
    CompareTextSign(x, y);
    if x != y {
      return if CompareText(x, y) > 0 then 1 else -1;
    }
    return 0;
  }

  /** `rpmvercmp`: one pass over both texts with an index in each. */
  method RpmVerCmp(a: string, b: string) returns (r: int)
    ensures r == CompareTokens(Tokens(a), Tokens(b))
  {
    hide Tokens, CompareText, StripZeros, CompareTokens, SkipSeparators, DigitRun, LetterRun;
    if a == b {
      CompareTokensReflexive(Tokens(a));
      return 0;
    }
    var i: nat, j: nat := 0, 0;
    assert a[0..] == a && b[0..] == b;
    while true
      invariant i <= |a| && j <= |b|
      invariant CompareTokens(Tokens(a[i..]), Tokens(b[j..])) == CompareTokens(Tokens(a), Tokens(b))
      decreases |a| - i + |b| - j
    {
      i, j := SkipSeparators(a, i), SkipSeparators(b, j);
      CompareStep(a, i, b, j);
      if (i < |a| && a[i] == '~') || (j < |b| && b[j] == '~') {
        if i >= |a| || a[i] != '~' {
          return 1;
        }
        if j >= |b| || b[j] != '~' {
          return -1;
        }
        i, j := i + 1, j + 1;
        continue;
      }
      if (i < |a| && a[i] == '^') || (j < |b| && b[j] == '^') {
        if i >= |a| {
          return -1;
        }
        if j >= |b| {
          return 1;
        }
        if a[i] != '^' {
          return 1;
        }
        if b[j] != '^' {
          return -1;
        }
        i, j := i + 1, j + 1;
        continue;
      }
      if i >= |a| || j >= |b| {
        break;
      }
      var x, y := Segment(a[i..]), Segment(b[j..]);
      var order := CompareSegments(x, y);
      if order != 0 {
        return order;
      }
      i, j := i + |x|, j + |y|;
    }
    if i >= |a| && j >= |b| {
      return 0;
    }
    return if i >= |a| then -1 else 1;
  }

  // ---- it is an order ----

  lemma CompareTokenFlip(a: Option<Token>, b: Option<Token>)
    ensures CompareToken(b, a) == -CompareToken(a, b)
  {
    if Class(a) == Class(b) && a.Some? && a.value.Letters? {
      CompareTextFlip(a.value.text, b.value.text);
    } else if Class(a) == Class(b) && a.Some? && a.value.Digits? {
      CompareTextFlip(a.value.text, b.value.text);
    }
  }

  lemma CompareTokenTransitive(a: Option<Token>, b: Option<Token>, c: Option<Token>)
    requires CompareToken(a, b) <= 0 && CompareToken(b, c) <= 0
    ensures CompareToken(a, c) <= 0
    ensures CompareToken(a, c) == 0 ==> CompareToken(a, b) == 0 && CompareToken(b, c) == 0
  {
    if Class(a) == Class(b) == Class(c) && a.Some? && (a.value.Letters? || a.value.Digits?) {
      var x, y, z := a.value.text, b.value.text, c.value.text;
      if a.value.Letters? || |x| == |y| == |z| {
        CompareTextTransitive(x, y, z);
      }
    }
  }

  lemma CompareTokenEqual(a: Option<Token>, b: Option<Token>)
    ensures CompareToken(a, b) == 0 <==> a == b
  {
    if Class(a) == Class(b) && a.Some? && (a.value.Letters? || a.value.Digits?) {
      CompareTextEqual(a.value.text, b.value.text);
    }
  }

  lemma {:induction false} CompareTokensReflexive(a: seq<Token>)
    ensures CompareTokens(a, a) == 0
  {
    CompareTokenEqual(Head(a), Head(a));
    if a != [] {
      CompareTokensReflexive(a[1..]);
    }
  }

  lemma {:induction false} CompareTokensEqual(a: seq<Token>, b: seq<Token>)
    ensures CompareTokens(a, b) == 0 <==> a == b
  {
    CompareTokenEqual(Head(a), Head(b));
    if a != [] && b != [] {
      CompareTokensEqual(a[1..], b[1..]);
      assert a == [a[0]] + a[1..] && b == [b[0]] + b[1..];
    }
  }

  lemma {:induction false} CompareTokensFlip(a: seq<Token>, b: seq<Token>)
    ensures CompareTokens(b, a) == -CompareTokens(a, b)
    decreases |a|
  {
    CompareTokenFlip(Head(a), Head(b));
    if a != [] && b != [] {
      CompareTokensFlip(a[1..], b[1..]);
    }
  }

  lemma {:induction false} CompareTokensTransitive(a: seq<Token>, b: seq<Token>, c: seq<Token>)
    requires CompareTokens(a, b) <= 0 && CompareTokens(b, c) <= 0
    ensures CompareTokens(a, c) <= 0
    ensures CompareTokens(a, c) == 0 ==> CompareTokens(a, b) == 0 && CompareTokens(b, c) == 0
    decreases |a|
  {
    CompareTokenEqual(Head(a), Head(b));
    CompareTokenEqual(Head(b), Head(c));
    CompareTokenTransitive(Head(a), Head(b), Head(c));
    if a != [] && b != [] && c != [] && a[0] == b[0] == c[0] {
      CompareTokensTransitive(a[1..], b[1..], c[1..]);
    }
  }

  /** rpm's comparison of two fields, as the order it refines. */
  function Rpm(a: string, b: string): int {
    CompareTokens(Tokens(a), Tokens(b))
  }

  /** A total preorder on all texts, whose equal texts are those with the same tokens. */
  lemma RpmIsATotalPreorder(a: string, b: string, c: string)
    ensures Rpm(a, a) == 0
    ensures Rpm(b, a) == -Rpm(a, b)
    ensures Rpm(a, b) == 0 <==> Tokens(a) == Tokens(b)
    ensures Rpm(a, b) <= 0 && Rpm(b, c) <= 0 ==> Rpm(a, c) <= 0 && (Rpm(a, c) == 0 ==> Rpm(a, b) == Rpm(b, c) == 0)
  {
    CompareTokensReflexive(Tokens(a));
    CompareTokensFlip(Tokens(a), Tokens(b));
    CompareTokensEqual(Tokens(a), Tokens(b));
    if Rpm(a, b) <= 0 && Rpm(b, c) <= 0 {
      CompareTokensTransitive(Tokens(a), Tokens(b), Tokens(c));
    }
  }

  // ---- digits compare by value ----

  lemma {:induction false} StripZerosKeepsValue(s: string)
    requires AllDigits(s)
    ensures AllDigits(StripZeros(s)) && Value(StripZeros(s)) == Value(s)
    ensures StripZeros(s) != [] ==> StripZeros(s)[0] != '0'
  {
    if s != [] && s[0] == '0' {
      ValueFromFront(s);
      StripZerosKeepsValue(s[1..]);
    }
  }

  lemma TimesMonotone(d: nat, e: nat, p: nat)
    requires d < e
    ensures d * p + p <= e * p
  {
    assert e * p == (d + 1) * p + (e - d - 1) * p;
  }

  lemma {:induction false} EqualLengthByValue(x: string, y: string)
    requires AllDigits(x) && AllDigits(y) && |x| == |y|
    ensures CompareText(x, y) < 0 <==> Value(x) < Value(y)
    ensures CompareText(x, y) > 0 <==> Value(x) > Value(y)
  {
    if x != [] {
      EqualLengthByValue(x[1..], y[1..]);
      ValueFromFront(x);
      ValueFromFront(y);
      ValueBound(x[1..]);
      ValueBound(y[1..]);
      hide Value, Pow10, CompareText;
      var p := Pow10(|x| - 1);
      var d, e := DigitOf(x[0]), DigitOf(y[0]);
      if d < e {
        TimesMonotone(d, e, p);
      } else if e < d {
        TimesMonotone(e, d, p);
      }
      FirstDiffers(x, y);
    }
  }

  lemma FirstDiffers(x: string, y: string)
    requires x != [] && y != [] && IsDigit(x[0]) && IsDigit(y[0])
    ensures DigitOf(x[0]) < DigitOf(y[0]) ==> CompareText(x, y) == -1
    ensures DigitOf(x[0]) > DigitOf(y[0]) ==> CompareText(x, y) == 1
    ensures DigitOf(x[0]) == DigitOf(y[0]) ==> CompareText(x, y) == CompareText(x[1..], y[1..])
  {
  }

  lemma LongerIsGreater(x: string, y: string)
    requires AllDigits(x) && AllDigits(y) && |x| < |y| && y[0] != '0'
    ensures Value(x) < Value(y)
  {
    ValueBound(x);
    Pow10Grows(|x|, |y| - 1);
    ValueFromFront(y);
    hide Value, Pow10;
    TimesMonotone(0, DigitOf(y[0]), Pow10(|y| - 1));
  }

  lemma {:induction false} Pow10Grows(m: nat, n: nat)
    requires m <= n
    ensures Pow10(m) <= Pow10(n)
  {
    if m < n {
      Pow10Grows(m, n - 1);
    }
  }

  /** Leading zeros dropped, number segments are ordered by what they are worth. */
  lemma DigitsCompareByValue(s: string, t: string)
    requires AllDigits(s) && AllDigits(t)
    ensures var c := CompareToken(Some(Digits(StripZeros(s))), Some(Digits(StripZeros(t))));
      && (c < 0 <==> Value(s) < Value(t))
      && (c > 0 <==> Value(s) > Value(t))
  {
    var x, y := StripZeros(s), StripZeros(t);
    StripZerosKeepsValue(s);
    StripZerosKeepsValue(t);
    if |x| < |y| {
      LongerIsGreater(x, y);
    } else if |y| < |x| {
      LongerIsGreater(y, x);
    } else {
      EqualLengthByValue(x, y);
    }
  }

  // ---- epoch, version and release ----

  datatype Evr = Evr(epoch: nat, version: string, release: string)

  /** One past the last `c`; 0 when there is none. */
  function AfterLast(s: string, c: char): (n: nat)
    ensures n <= |s| && forall i | n <= i < |s| :: s[i] != c
    ensures n > 0 ==> s[n - 1] == c
  {
    if s == [] then 0 else if s[|s| - 1] == c then |s| else AfterLast(s[..|s| - 1], c)
  }

  /** `evr`: the epoch before the last colon (none reads as 0), then version and release around the
      first dash. `None` is the `ValueError` of an epoch that is no number. */
  function ReadEvr(s: string): Option<Evr> {
    var n := AfterLast(s, ':');
    var e := if n == 0 then [] else s[..n - 1];
    var vr := s[n..];
    var d := FirstIndex(vr, '-');
    if !AllDigits(e) then None
    else Some(Evr(Value(e), vr[..d], if d == |vr| then [] else vr[d + 1..]))
  }

  function PrintBuild(epoch: nat, version: string, release: string): string {
    Print(epoch) + ":" + version + "-" + release
  }

  /** A build as the script prints it reads back, when the version holds no dash and neither part a colon. */
  lemma BuildReadsBack(epoch: nat, version: string, release: string)
    requires ':' !in version && ':' !in release && '-' !in version
    ensures ReadEvr(PrintBuild(epoch, version, release)) == Some(Evr(epoch, version, release))
  {
    hide Print, Value;
    var e := Print(epoch);
    var vr := version + "-" + release;
    var s := PrintBuild(epoch, version, release);
    assert s == e + ":" + vr;
    NoColon(version, release);
    hide PrintBuild;
    SplitAt(e, vr);
    SplitDash(version, release);
  }

  lemma NoColon(version: string, release: string)
    requires ':' !in version && ':' !in release
    ensures ':' !in version + "-" + release
  {
  }

  lemma SplitAt(e: string, vr: string)
    requires ':' !in vr
    ensures var s := e + ":" + vr;
      AfterLast(s, ':') == |e| + 1 && s[..|e|] == e && s[|e| + 1..] == vr
  {
    hide AfterLast;
    var s := e + ":" + vr;
    assert s[|e|] == ':';
    assert forall i | |e| < i < |s| :: s[i] == vr[i - |e| - 1] && s[i] in vr;
    assert s[|e| + 1..] == vr && s[..|e|] == e;
  }

  lemma SplitDash(version: string, release: string)
    requires '-' !in version
    ensures var vr := version + "-" + release;
      FirstIndex(vr, '-') == |version| < |vr| && vr[..|version|] == version && vr[|version| + 1..] == release
  {
    hide FirstIndex;
    var vr := version + "-" + release;
    assert vr[|version|] == '-';
    assert forall i | 0 <= i < |version| :: vr[i] == version[i] && vr[i] in version;
    assert vr[..|version|] == version && vr[|version| + 1..] == release;
  }

  function CompareEvr(a: Evr, b: Evr): int {
    if a.epoch != b.epoch then (if a.epoch > b.epoch then 1 else -1)
    else if Rpm(a.version, b.version) != 0 then Rpm(a.version, b.version)
    else if a.release != [] && b.release != [] then Rpm(a.release, b.release)
    else 0
  }

  /** `compare`. */
  method Compare(a: string, b: string) returns (r: Option<int>)
    ensures r.None? <==> ReadEvr(a).None? || ReadEvr(b).None?
    ensures r.Some? ==> r.value == CompareEvr(ReadEvr(a).value, ReadEvr(b).value)
  {
    var x, y := ReadEvr(a), ReadEvr(b);
    if x.None? || y.None? {
      return None;
    }
    if x.value.epoch != y.value.epoch {
      return Some(if x.value.epoch > y.value.epoch then 1 else -1);
    }
    var v := RpmVerCmp(x.value.version, y.value.version);
    if v != 0 {
      return Some(v);
    }
    if x.value.release != [] && y.value.release != [] {
      var rel := RpmVerCmp(x.value.release, y.value.release);
      return Some(rel);
    }
    return Some(0);
  }

  /** Where transitivity breaks: a build with no release equals every release of its version. */
  predicate ReleaseGap(a: Evr, b: Evr, c: Evr) {
    && a.epoch == b.epoch == c.epoch
    && Rpm(a.version, b.version) == 0 && Rpm(b.version, c.version) == 0
    && b.release == [] && a.release != [] && c.release != []
    && Rpm(a.release, c.release) > 0
  }

  lemma CompareEvrFlips(a: Evr, b: Evr)
    ensures CompareEvr(a, a) == 0
    ensures CompareEvr(b, a) == -CompareEvr(a, b)
  {
    RpmIsATotalPreorder(a.version, b.version, a.version);
    RpmIsATotalPreorder(a.release, b.release, a.release);
  }

  /** `compare` is transitive exactly when no build in the middle lacks the release the others have. */
  lemma CompareEvrTransitive(a: Evr, b: Evr, c: Evr)
    requires CompareEvr(a, b) <= 0 && CompareEvr(b, c) <= 0
    ensures CompareEvr(a, c) <= 0 <==> !ReleaseGap(a, b, c)
  {
    RpmIsATotalPreorder(a.version, b.version, c.version);
    RpmIsATotalPreorder(a.release, b.release, c.release);
    if a.epoch == b.epoch == c.epoch && Rpm(a.version, b.version) == 0 {
      RpmIsATotalPreorder(c.version, b.version, a.version);
      RpmIsATotalPreorder(b.version, c.version, a.version);
      RpmIsATotalPreorder(b.version, a.version, c.version);
    }
  }

  /** The gap is real: `1-2` equals `1`, `1` equals `1-1`, and `1-2` is above `1-1`. */
  lemma ReleaseGapHappens()
    ensures var a, b, c := Evr(0, "1", "2"), Evr(0, "1", ""), Evr(0, "1", "1");
      CompareEvr(a, b) <= 0 && CompareEvr(b, c) <= 0 && CompareEvr(a, c) > 0 && ReleaseGap(a, b, c)
  {
    CompareTokensReflexive(Tokens("1"));
    assert "1"[1..] == "" && "2"[1..] == "" && "1"[..1] == "1" && "2"[..1] == "2";
    assert DigitRun("1") == 1 && DigitRun("2") == 1;
    assert Tokens("1") == [Digits("1")] && Tokens("2") == [Digits("2")];
    assert CompareText("2", "1") == 1;
  }

  // ---- the highest build per package ----

  type BuildKey = (string, string)

  datatype Package = Package(name: string, arch: string, epoch: Option<nat>, version: string, release: string)

  datatype Repository = Repository(packages: seq<Package>, streams: map<string, string>)

  function BuildOf(p: Package): string {
    PrintBuild(if p.epoch.Some? then p.epoch.value else 0, p.version, p.release)
  }

  function KeyOf(p: Package, streams: map<string, string>): BuildKey {
    var nevra := p.name + "-" + BuildOf(p) + "." + p.arch;
    (p.name, if nevra in streams then streams[nevra] else "-")
  }

  type Row = (BuildKey, string)

  function PackageRows(packages: seq<Package>, streams: map<string, string>): seq<Row> {
    if packages == [] then []
    else
      var p := packages[|packages| - 1];
      PackageRows(packages[..|packages| - 1], streams)
      + if p.arch == "src" then [] else [(KeyOf(p, streams), BuildOf(p))]
  }

  /** Every build offered, in reading order, source packages left out. */
  function Rows(repos: seq<Repository>): seq<Row> {
    if repos == [] then []
    else
      var repo := repos[|repos| - 1];
      Rows(repos[..|repos| - 1]) + PackageRows(repo.packages, repo.streams)
  }

  predicate Readable(build: string) {
    ReadEvr(build).Some? && ReadEvr(build).value.release != []
  }

  ghost predicate AllReadable(rows: seq<Row>) {
    forall row | row in rows :: Readable(row.1)
  }

  function CompareBuilds(a: string, b: string): int
    requires Readable(a) && Readable(b)
  {
    CompareEvr(ReadEvr(a).value, ReadEvr(b).value)
  }

  /** `best` holds, for each key offered, an offered build at or above every other one. */
  ghost predicate Highest(best: map<BuildKey, string>, rows: seq<Row>)
    requires AllReadable(rows)
  {
    && (forall key | key in best :: (key, best[key]) in rows)
    && (forall row | row in rows ::
         row.0 in best && Readable(best[row.0]) && CompareBuilds(row.1, best[row.0]) <= 0)
  }

  lemma HighestStep(best: map<BuildKey, string>, rows: seq<Row>, row: Row)
    requires AllReadable(rows + [row]) && AllReadable(rows) && Highest(best, rows)
    ensures row.0 in best ==> (row.0, best[row.0]) in rows && Readable(best[row.0])
    ensures Highest(
      if row.0 !in best || CompareBuilds(row.1, best[row.0]) > 0 then best[row.0 := row.1] else best, rows + [row])
  {
    hide ReadEvr, CompareEvr;
    assert row in rows + [row] && Readable(row.1);
    if row.0 in best {
      assert (row.0, best[row.0]) in rows;
    }
    CompareEvrFlips(ReadEvr(row.1).value, ReadEvr(row.1).value);
    if row.0 in best && CompareBuilds(row.1, best[row.0]) > 0 {
      var was := best[row.0];
      CompareEvrFlips(ReadEvr(row.1).value, ReadEvr(was).value);
      forall r | r in rows && r.0 == row.0
        ensures CompareBuilds(r.1, row.1) <= 0
      {
        CompareEvrTransitive(ReadEvr(r.1).value, ReadEvr(was).value, ReadEvr(row.1).value);
      }
    }
  }

  lemma {:induction false} PackageRowsPrefix(packages: seq<Package>, streams: map<string, string>, j: nat)
    requires j <= |packages|
    ensures PackageRows(packages[..j], streams) <= PackageRows(packages, streams)
    decreases |packages| - j
  {
    if j == |packages| {
      assert packages[..j] == packages;
    } else {
      assert packages[..j + 1][..j] == packages[..j];
      PackageRowsPrefix(packages, streams, j + 1);
    }
  }

  lemma {:induction false} RowsPrefix(repos: seq<Repository>, i: nat)
    requires i <= |repos|
    ensures Rows(repos[..i]) <= Rows(repos)
    decreases |repos| - i
  {
    if i == |repos| {
      assert repos[..i] == repos;
    } else {
      assert repos[..i + 1][..i] == repos[..i];
      RowsPrefix(repos, i + 1);
    }
  }

  lemma PrefixReadable(a: seq<Row>, b: seq<Row>)
    requires AllReadable(b) && a <= b
    ensures AllReadable(a)
  {
    assert forall row | row in a :: row in b;
  }

  /** The body of the `best` loop: a build replaces a lower one. */
  method Consider(best: map<BuildKey, string>, row: Row, ghost read: seq<Row>)
    returns (r: Option<map<BuildKey, string>>)
    ensures AllReadable(read + [row]) && AllReadable(read) && Highest(best, read) ==>
      r.Some? && Highest(r.value, read + [row])
  {
    hide ReadEvr, CompareEvr;
    if AllReadable(read + [row]) && AllReadable(read) && Highest(best, read) {
      HighestStep(best, read, row);
      assert row in read + [row];
    }
    if row.0 in best {
      var order := Compare(row.1, best[row.0]);
      if order.None? {
        return None;
      }
      if order.value <= 0 {
        return Some(best);
      }
    }
    return Some(best[row.0 := row.1]);
  }

  lemma RowOfPackage(packages: seq<Package>, streams: map<string, string>, j: nat)
    requires j < |packages|
    ensures PackageRows(packages[..j + 1], streams) ==
      PackageRows(packages[..j], streams)
      + if packages[j].arch == "src" then [] else [(KeyOf(packages[j], streams), BuildOf(packages[j]))]
  {
    hide KeyOf, BuildOf;
    assert packages[..j + 1][..j] == packages[..j];
  }

  ghost predicate HighestOf(best: map<BuildKey, string>, rows: seq<Row>) {
    AllReadable(rows) && Highest(best, rows)
  }

  /** The builds of one repository, considered in turn after those `before`. */
  method ConsiderAll(start: map<BuildKey, string>, repo: Repository, ghost before: seq<Row>)
    returns (r: Option<map<BuildKey, string>>)
    ensures
      var rows := before + PackageRows(repo.packages, repo.streams);
      AllReadable(rows) && HighestOf(start, before) ==> r.Some? && HighestOf(r.value, rows)
  {
    hide ReadEvr, BuildOf, KeyOf, AllReadable, Highest, PackageRows;
    var best := start;
    ghost var all := before + PackageRows(repo.packages, repo.streams);
    ghost var ok := AllReadable(all) && HighestOf(start, before);
    assert before + [] == before;
    NoRows(repo);
    for j := 0 to |repo.packages|
      invariant ok ==> HighestOf(best, before + PackageRows(repo.packages[..j], repo.streams))
    {
      var p := repo.packages[j];
      ghost var read := before + PackageRows(repo.packages[..j], repo.streams);
      RowOfPackage(repo.packages, repo.streams, j);
      if p.arch != "src" {
        var row := (KeyOf(p, repo.streams), BuildOf(p));
        assert before + (PackageRows(repo.packages[..j], repo.streams) + [row]) == read + [row];
        if ok {
          PackageRowsPrefix(repo.packages, repo.streams, j + 1);
          PrefixReadable(read + [row], all);
        }
        var considered := Consider(best, row, read);
        if considered.None? {
          return None;
        }
        best := considered.value;
      } else {
        assert before + (PackageRows(repo.packages[..j], repo.streams) + []) == read;
      }
    }
    assert repo.packages[..|repo.packages|] == repo.packages;
    return Some(best);
  }

  lemma NoRows(repo: Repository)
    ensures PackageRows(repo.packages[..0], repo.streams) == []
  {
  }

  /** The `best` loop of `release`; `None` is the error of an epoch that cannot be read. */
  method Release(repos: seq<Repository>) returns (r: Option<map<BuildKey, string>>)
    ensures AllReadable(Rows(repos)) ==> r.Some? && Highest(r.value, Rows(repos))
  {
    hide ReadEvr, BuildOf, KeyOf, AllReadable, Highest, PackageRows;
    var best: map<BuildKey, string> := map[];
    ghost var ok := AllReadable(Rows(repos));
    NoneHighest();
    for i := 0 to |repos|
      invariant ok ==> HighestOf(best, Rows(repos[..i]))
    {
      var repo := repos[i];
      assert repos[..i + 1][..i] == repos[..i];
      if ok {
        RowsPrefix(repos, i + 1);
        PrefixReadable(Rows(repos[..i + 1]), Rows(repos));
      }
      var considered := ConsiderAll(best, repo, Rows(repos[..i]));
      if considered.None? {
        return None;
      }
      best := considered.value;
    }
    assert repos[..|repos|] == repos;
    return Some(best);
  }

  lemma NoneHighest()
    ensures HighestOf(map[], [])
  {
  }

  /** In any reading order the highest builds are the same, up to builds that compare equal. */
  lemma HighestInAnyOrder(best: map<BuildKey, string>, rows: seq<Row>, best': map<BuildKey, string>, rows': seq<Row>)
    requires forall row :: row in rows <==> row in rows'
    requires AllReadable(rows) && AllReadable(rows') && Highest(best, rows) && Highest(best', rows')
    ensures best.Keys == best'.Keys
    ensures forall key | key in best ::
      Readable(best[key]) && Readable(best'[key]) && CompareBuilds(best[key], best'[key]) == 0
  {
    hide ReadEvr, CompareEvr;
    forall key
      ensures key in best <==> key in best'
      ensures key in best ==> Readable(best[key]) && Readable(best'[key]) && CompareBuilds(best[key], best'[key]) == 0
    {
      assert key in best' ==> (key, best'[key]) in rows;
      if key in best {
        assert (key, best[key]) in rows';
        assert (key, best'[key]) in rows;
        CompareEvrFlips(ReadEvr(best[key]).value, ReadEvr(best'[key]).value);
      }
    }
  }
}
