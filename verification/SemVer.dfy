/** Versions and their precedence (section 11 of Semantic Versioning 2.0.0), as text and as values.
    Build metadata is not part of a version here. */
module SemVer {
  import opened Decimal
  import opened Text
  import opened Wrappers

  /** `pre` are the dot-separated identifiers of the prerelease; none for a release. */
  datatype Version = Version(major: nat, minor: nat, patch: nat, pre: seq<string>)

  predicate IdentChar(c: char) {
    'a' <= c <= 'z' || 'A' <= c <= 'Z' || '0' <= c <= '9' || c == '-'
  }

  predicate ValidIdent(s: string) {
    && s != ""
    && (forall i | 0 <= i < |s| :: IdentChar(s[i]))
    && (AllDigits(s) && |s| > 1 ==> s[0] != '0')
  }

  predicate ValidPre(pre: seq<string>) {
    forall i | 0 <= i < |pre| :: ValidIdent(pre[i])
  }

  // ---- precedence ----

  function CompareNat(a: nat, b: nat): int {
    if a < b then -1 else if a > b then 1 else 0
  }

  /** Numbers by value, below text; text by code point. */
  function CompareIdent(a: string, b: string): int {
    if AllDigits(a) && AllDigits(b) then CompareNat(Value(a), Value(b))
    else if AllDigits(a) then -1
    else if AllDigits(b) then 1
    else CompareText(a, b)
  }

  /** Identifier by identifier, fewer first. */
  function CompareIdents(a: seq<string>, b: seq<string>): int {
    if a == [] && b == [] then 0
    else if a == [] then -1
    else if b == [] then 1
    else if CompareIdent(a[0], b[0]) != 0 then CompareIdent(a[0], b[0])
    else CompareIdents(a[1..], b[1..])
  }

  /** A release is above each of its prereleases. */
  function ComparePre(a: seq<string>, b: seq<string>): int {
    if a == [] && b == [] then 0
    else if a == [] then 1
    else if b == [] then -1
    else CompareIdents(a, b)
  }

  function CompareVersion(a: Version, b: Version): int {
    if a.major != b.major then CompareNat(a.major, b.major)
    else if a.minor != b.minor then CompareNat(a.minor, b.minor)
    else if a.patch != b.patch then CompareNat(a.patch, b.patch)
    else ComparePre(a.pre, b.pre)
  }

  predicate Before(a: Version, b: Version) {
    CompareVersion(a, b) < 0
  }

  lemma {:induction false} ComparePreReflexive(pre: seq<string>)
    ensures CompareIdents(pre, pre) == 0
  {
    if pre != [] {
      CompareTextEqual(pre[0], pre[0]);
      ComparePreReflexive(pre[1..]);
    }
  }

  lemma {:induction false} CompareIdentsFlips(a: seq<string>, b: seq<string>)
    ensures CompareIdents(b, a) == -CompareIdents(a, b)
  {
    if a != [] && b != [] {
      CompareTextFlip(a[0], b[0]);
      CompareIdentsFlips(a[1..], b[1..]);
    }
  }

  lemma CompareVersionFlips(a: Version, b: Version)
    ensures CompareVersion(b, a) == -CompareVersion(a, b)
  {
    CompareIdentsFlips(a.pre, b.pre);
    hide CompareIdents;
  }

  lemma {:induction false} CommonIdents(common: seq<string>, a: seq<string>, b: seq<string>)
    ensures CompareIdents(common + a, common + b) == CompareIdents(a, b)
  {
    if common == [] {
      assert common + a == a && common + b == b;
    } else {
      CompareTextEqual(common[0], common[0]);
      assert (common + a)[1..] == common[1..] + a && (common + b)[1..] == common[1..] + b;
      CommonIdents(common[1..], a, b);
    }
  }

  /** The first identifier `x` comes before `y`: a smaller number, a number before a word, or a word before one that
      is greater at the first character that differs, or longer. */
  ghost predicate IdentBefore(x: string, y: string) {
    if AllDigits(x) then (if AllDigits(y) then Value(x) < Value(y) else true)
    else !AllDigits(y) && exists i :: 0 <= i <= |x| && i < |y| && x[..i] == y[..i] && (i < |x| ==> x[i] < y[i])
  }

  /** Section 11 of Semantic Versioning 2.0.0: the numbers decide first; with the same numbers a prerelease comes
      before the release, and of two prereleases the first identifier that differs decides, or else the shorter is
      before. */
  lemma PrecedenceIs(a: Version, b: Version, common: seq<string>)
    ensures a.major < b.major ==> Before(a, b)
    ensures a.major == b.major && a.minor < b.minor ==> Before(a, b)
    ensures a.major == b.major && a.minor == b.minor && a.patch < b.patch ==> Before(a, b)
    ensures a.major == b.major && a.minor == b.minor && a.patch == b.patch ==>
      && (a.pre != [] && b.pre == [] ==> Before(a, b))
      && (common != [] && a.pre == common && common < b.pre ==> Before(a, b))
      && (common < a.pre && common < b.pre && IdentBefore(a.pre[|common|], b.pre[|common|]) ==> Before(a, b))
    ensures Before(a, b) ==> !Before(b, a)
  {
    CompareVersionFlips(a, b);
    if common <= a.pre && common < b.pre {
      assert a.pre == common + a.pre[|common|..] && b.pre == common + b.pre[|common|..];
      CommonIdents(common, a.pre[|common|..], b.pre[|common|..]);
      if common < a.pre {
        var x, y := a.pre[|common|], b.pre[|common|];
        if !AllDigits(x) && IdentBefore(x, y) {
          var i :| 0 <= i <= |x| && i < |y| && x[..i] == y[..i] && (i < |x| ==> x[i] < y[i]);
          CompareTextParts(x, y, i);
        }
        assert IdentBefore(x, y) ==> CompareIdent(x, y) == -1;
      }
    }
    hide CompareIdent, IdentBefore;
  }

  const LOWEST: seq<string> := ["0"]

  /** `-0` is the lowest prerelease there is. */
  lemma NothingBelowLowest(pre: seq<string>)
    requires pre != []
    ensures CompareIdents(pre, LOWEST) >= 0
  {
    assert LOWEST[0] == "0" && LOWEST[1..] == [];
    assert Value("0") == 0;
  }

  // ---- text ----

  /** A prerelease as the version parser reads it; `None` for an identifier it refuses. */
  function ParsePre(text: string): Option<seq<string>> {
    var parts := SplitChar(text, '.');
    if ValidPre(parts) then Some(parts) else None
  }

  function PrintPre(pre: seq<string>): string {
    Join(pre, ".")
  }

  function PrintVersion(v: Version): string {
    Print(v.major) + "." + Print(v.minor) + "." + Print(v.patch) + if v.pre == [] then "" else "-" + PrintPre(v.pre)
  }

  lemma PreReadsBack(pre: seq<string>)
    requires pre != [] && ValidPre(pre)
    ensures ParsePre(PrintPre(pre)) == Some(pre)
  {
    forall i | 0 <= i < |pre|
      ensures '.' !in pre[i]
    {
      assert ValidIdent(pre[i]);
    }
    SplitJoined(pre, '.');
  }

  /** Section 9 of Semantic Versioning 2.0.0: an identifier is one or more ASCII letters, digits and hyphens, and one of
      digits alone has no leading zero. */
  ghost predicate IsIdentifier(s: string) {
    && s != ""
    && (forall i | 0 <= i < |s| ::
         var code := s[i] as int;
         48 <= code <= 57 || 65 <= code <= 90 || 97 <= code <= 122 || code == 45)
    && (|s| > 1 && s[0] == '0' ==> exists i :: 0 <= i < |s| && !(48 <= s[i] as int <= 57))
  }

  lemma IdentifiersAre(s: string)
    ensures ValidIdent(s) <==> IsIdentifier(s)
  {
  }

  /** A prerelease parses as its identifiers, and nothing parses that is not identifiers joined by dots. */
  lemma PrereleaseParsesIff(text: string, pre: seq<string>)
    ensures ParsePre(text) == Some(pre) <==>
      pre != [] && text == Join(pre, ".") && forall i | 0 <= i < |pre| :: IsIdentifier(pre[i])
  {
    hide SplitChar, Join, ValidIdent, IsIdentifier;
    forall s
      ensures ValidIdent(s) <==> IsIdentifier(s)
    {
      IdentifiersAre(s);
    }
    JoinSplit(text, '.');
    if pre != [] && text == Join(pre, ".") && ValidPre(pre) {
      forall i | 0 <= i < |pre|
        ensures '.' !in pre[i]
      {
        NoDotInside(pre[i]);
      }
      SplitJoined(pre, '.');
    }
  }

  lemma NoDotInside(s: string)
    requires ValidIdent(s)
    ensures '.' !in s
  {
  }

  predicate VersionChar(c: char) {
    IdentChar(c) || c == '.'
  }

  predicate VersionText(s: string) {
    forall i | 0 <= i < |s| :: VersionChar(s[i])
  }

  lemma {:induction false} PreIsVersionText(pre: seq<string>)
    requires ValidPre(pre)
    ensures VersionText(PrintPre(pre))
    ensures pre != [] ==> PrintPre(pre) != ""
  {
    if |pre| > 0 {
      assert ValidIdent(pre[0]);
      if |pre| > 1 {
        assert ValidPre(pre[1..]);
        PreIsVersionText(pre[1..]);
      }
    }
  }

  lemma PrintIsVersionText(v: Version)
    requires ValidPre(v.pre)
    ensures VersionText(PrintVersion(v)) && PrintVersion(v) != "" && IsDigit(PrintVersion(v)[0])
  {
    PreIsVersionText(v.pre);
    hide Print, PrintPre, Value;
  }
}
