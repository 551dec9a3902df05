/** Text as the program cuts it: searching, splitting, trimming, and the order of code points. */
module Text {
  import opened Wrappers

  // ---- searching ----

  predicate At(text: string, part: string, i: nat) {
    i + |part| <= |text| && text[i..i + |part|] == part
  }

  predicate Contains(text: string, part: string) {
    exists i | 0 <= i <= |text| :: At(text, part, i)
  }

  lemma ContainsMiddle(a: string, part: string, b: string)
    ensures Contains(a + part + b, part)
  {
    var text := a + part + b;
    assert text[|a|..|a| + |part|] == part;
    assert At(text, part, |a|);
  }

  /** The first place `part` occurs from `i` on. */
  function FindFrom(text: string, part: string, i: nat): (r: Option<nat>)
    requires i <= |text|
    ensures r.Some? ==> i <= r.value <= |text| && At(text, part, r.value)
    ensures forall k | i <= k <= |text| && (r.None? || k < r.value) :: !At(text, part, k)
    decreases |text| - i
  {
    if At(text, part, i) then Some(i)
    else if i == |text| then None
    else FindFrom(text, part, i + 1)
  }

  function Find(text: string, part: string): (r: Option<nat>)
    ensures r.Some? ==> r.value + |part| <= |text| && At(text, part, r.value)
    ensures forall k | 0 <= k <= |text| && (r.None? || k < r.value) :: !At(text, part, k)
  {
    FindFrom(text, part, 0)
  }

  function FirstIndex(s: string, c: char): (n: nat)
    ensures n <= |s| && forall i | 0 <= i < n :: s[i] != c
    ensures n < |s| ==> s[n] == c
  {
    if s == [] || s[0] == c then 0 else 1 + FirstIndex(s[1..], c)
  }

  // ---- splitting ----

  function SplitChar(s: string, c: char): (parts: seq<string>)
    ensures parts != []
    decreases |s|
  {
    var n := FirstIndex(s, c);
    if n == |s| then [s] else [s[..n]] + SplitChar(s[n + 1..], c)
  }

  function SplitText(s: string, sep: string): (parts: seq<string>)
    requires sep != ""
    ensures parts != []
    decreases |s|
  {
    var n := Find(s, sep);
    if n.None? then [s] else [s[..n.value]] + SplitText(s[n.value + |sep|..], sep)
  }

  function Join(parts: seq<string>, sep: string): string {
    if parts == [] then ""
    else if |parts| == 1 then parts[0]
    else parts[0] + sep + Join(parts[1..], sep)
  }

  /** Joining parts that hold no separator and splitting again gives the parts back. */
  lemma {:induction false} SplitJoined(parts: seq<string>, c: char)
    requires parts != [] && forall i | 0 <= i < |parts| :: c !in parts[i]
    ensures SplitChar(Join(parts, [c]), c) == parts
  {
    var s := Join(parts, [c]);
    var first := parts[0];
    if |parts| == 1 {
      assert s == first;
      assert FirstIndex(s, c) == |s| by {
        assert forall i | 0 <= i < |s| :: s[i] in first;
      }
    } else {
      var rest := Join(parts[1..], [c]);
      assert s == first + [c] + rest;
      SplitJoined(parts[1..], c);
      assert FirstIndex(s, c) == |first| by {
        assert s[|first|] == c;
        assert forall i | 0 <= i < |first| :: s[i] == first[i] && s[i] in first;
      }
      assert s[..|first|] == first && s[|first| + 1..] == rest;
    }
  }

  /** Splitting a text gives parts that hold no separator and join to it again. */
  lemma {:induction false} JoinSplit(s: string, c: char)
    ensures forall i | 0 <= i < |SplitChar(s, c)| :: c !in SplitChar(s, c)[i]
    ensures Join(SplitChar(s, c), [c]) == s
    decreases |s|
  {
    var n := FirstIndex(s, c);
    assert c !in s[..n];
    if n < |s| {
      var rest := s[n + 1..];
      JoinSplit(rest, c);
      var parts := [s[..n]] + SplitChar(rest, c);
      assert SplitChar(s, c) == parts && parts[1..] == SplitChar(rest, c);
      assert s == s[..n] + [c] + rest;
    } else {
      assert s[..n] == s;
    }
  }

  // ---- white space ----

  /** Unicode white space, as Rust's `trim` and `split_whitespace` take it. */
  predicate IsSpace(c: char) {
    '\t' <= c <= '\r' || c == ' ' || c == '\U{0085}' || c == '\U{00A0}' || c == '\U{1680}'
    || '\U{2000}' <= c <= '\U{200A}' || c == '\U{2028}' || c == '\U{2029}' || c == '\U{202F}'
    || c == '\U{205F}' || c == '\U{3000}'
  }

  function TrimStart(s: string): (t: string)
    ensures t != "" ==> !IsSpace(t[0])
    ensures |t| <= |s|
    ensures s != "" && !IsSpace(s[0]) ==> t == s
  {
    if s != [] && IsSpace(s[0]) then TrimStart(s[1..]) else s
  }

  function TrimEnd(s: string): (t: string)
    ensures |t| <= |s| && t <= s
    ensures t != "" ==> !IsSpace(t[|t| - 1])
    ensures s != "" && !IsSpace(s[|s| - 1]) ==> t == s
  {
    if s != [] && IsSpace(s[|s| - 1]) then TrimEnd(s[..|s| - 1]) else s
  }

  function Trim(s: string): string {
    TrimEnd(TrimStart(s))
  }

  predicate NoSpace(s: string) {
    forall i | 0 <= i < |s| :: !IsSpace(s[i])
  }

  lemma TrimNothing(s: string)
    requires NoSpace(s)
    ensures Trim(s) == s
  {
    if s != "" {
      assert !IsSpace(s[0]) && !IsSpace(s[|s| - 1]);
    }
  }

  /** The length of the run of characters that are not white space. */
  function WordRun(s: string): (n: nat)
    ensures n <= |s| && forall i | 0 <= i < n :: !IsSpace(s[i])
    ensures n < |s| ==> IsSpace(s[n])
  {
    if s == [] || IsSpace(s[0]) then 0 else 1 + WordRun(s[1..])
  }

  /** `split_whitespace`. */
  function Words(s: string): (words: seq<string>)
    ensures forall i | 0 <= i < |words| :: words[i] != "" && NoSpace(words[i])
    decreases |s|
  {
    var t := TrimStart(s);
    if t == "" then []
    else
      var n := WordRun(t);
      [t[..n]] + Words(t[n..])
  }

  lemma OneWord(s: string)
    requires s != "" && NoSpace(s)
    ensures Words(s) == [s]
  {
    assert !IsSpace(s[0]);
    assert WordRun(s) == |s|;
    assert s[..|s|] == s && s[|s|..] == "";
  }

  // ---- the order of code points, a prefix first ----

  function CompareText(a: string, b: string): int {
    if a == [] && b == [] then 0
    else if a == [] then -1
    else if b == [] then 1
    else if a[0] != b[0] then (if a[0] > b[0] then 1 else -1)
    else CompareText(a[1..], b[1..])
  }

  lemma {:induction false} CompareTextEqual(a: string, b: string)
    ensures CompareText(a, b) == 0 <==> a == b
  {
    if a != [] && b != [] {
      CompareTextEqual(a[1..], b[1..]);
      assert a == [a[0]] + a[1..] && b == [b[0]] + b[1..];
    }
  }

  lemma {:induction false} CompareTextSign(a: string, b: string)
    ensures CompareText(a, b) in {-1, 0, 1}
  {
    if a != [] && b != [] {
      CompareTextSign(a[1..], b[1..]);
    }
  }

  lemma {:induction false} CompareTextFlip(a: string, b: string)
    ensures CompareText(b, a) == -CompareText(a, b)
  {
    if a != [] && b != [] {
      CompareTextFlip(a[1..], b[1..]);
    }
  }

  lemma {:induction false} CompareTextTransitive(a: string, b: string, c: string)
    requires CompareText(a, b) <= 0 && CompareText(b, c) <= 0
    ensures CompareText(a, c) <= 0
    ensures CompareText(a, c) == 0 ==> CompareText(a, b) == 0 && CompareText(b, c) == 0
  {
    if a != [] && b != [] && c != [] && a[0] == b[0] == c[0] {
      CompareTextTransitive(a[1..], b[1..], c[1..]);
    }
  }

  /** Two texts compare at the first character that differs; of two that agree, the shorter is before. */
  lemma {:induction false} CompareTextParts(x: string, y: string, i: nat)
    requires i <= |x| && i < |y| && x[..i] == y[..i] && (i < |x| ==> x[i] < y[i])
    ensures CompareText(x, y) == -1
  {
    if i > 0 {
      assert x[0] == x[..i][0] && y[0] == y[..i][0];
      assert x[1..][..i - 1] == x[..i][1..] && y[1..][..i - 1] == y[..i][1..];
      CompareTextParts(x[1..], y[1..], i - 1);
    }
  }
}
