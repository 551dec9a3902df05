/** Reading the added lines of a zero-context diff (`parse_added` in crates/cli/src/attribute.rs), against
    the diff `git diff --unified=0` prints for a change to one file. */
module DiffText {
  import opened Decimal
  import opened Text
  import opened Wrappers

  const U32_LIMIT := 0x1_0000_0000

  // ---- lines, as Rust's `str::lines` cuts them ----

  /** A line feed ends a line, and takes one carriage return before it along. */
  function Chomp(line: string): string {
    if line != "" && line[|line| - 1] == '\r' then line[..|line| - 1] else line
  }

  function Lines(text: string): seq<string>
    decreases |text|
  {
    var n := FirstIndex(text, '\n');
    if text == "" then []
    else if n == |text| then [text]
    else [Chomp(text[..n])] + Lines(text[n + 1..])
  }

  function Unlines(lines: seq<string>): string {
    if lines == [] then "" else lines[0] + "\n" + Unlines(lines[1..])
  }

  predicate OneLine(s: string) {
    '\n' !in s
  }

  predicate OneLines(lines: seq<string>) {
    forall i | 0 <= i < |lines| :: OneLine(lines[i])
  }

  function Chomped(lines: seq<string>): (r: seq<string>)
    ensures |r| == |lines| && forall i | 0 <= i < |lines| :: r[i] == Chomp(lines[i])
  {
    seq(|lines|, i requires 0 <= i < |lines| => Chomp(lines[i]))
  }

  lemma FirstBreak(first: string, rest: string)
    requires OneLine(first)
    ensures FirstIndex(first + ("\n" + rest), '\n') == |first|
  {
    var text := first + ("\n" + rest);
    assert text[|first|] == '\n';
    assert forall i | 0 <= i < |first| :: text[i] == first[i] && text[i] in first;
  }

  lemma LinesOfOneMore(first: string, rest: string)
    requires OneLine(first)
    ensures Lines(first + ("\n" + rest)) == [Chomp(first)] + Lines(rest)
  {
    hide FirstIndex, OneLine, Chomp;
    var text := first + ("\n" + rest);
    FirstBreak(first, rest);
    assert text[..|first|] == first && text[|first| + 1..] == rest;
  }

  lemma {:induction false} LinesOfUnlines(lines: seq<string>)
    requires OneLines(lines)
    ensures Lines(Unlines(lines)) == Chomped(lines)
  {
    hide Lines, Chomp, OneLine;
    if lines == [] {
      NoLines();
    } else {
      var first, rest := lines[0], lines[1..];
      LinesOfUnlines(rest);
      LinesOfOneMore(first, Unlines(rest));
      assert Unlines(lines) == first + ("\n" + Unlines(rest));
      assert Chomped(lines) == [Chomp(first)] + Chomped(rest);
    }
  }

  lemma NoLines()
    ensures Lines("") == []
  {
  }

  // ---- reading ----

  const HUNK := "@@ "

  function WithoutPlus(s: string): string {
    if s != "" && s[0] == '+' then s[1..] else s
  }

  /** `str::parse` to `u32`: digits after at most one plus sign, within range. */
  function ParseU32(s: string): Option<nat> {
    var digits := WithoutPlus(s);
    if digits != "" && AllDigits(digits) && Value(digits) < U32_LIMIT then Some(Value(digits)) else None
  }

  /** The first word that starts with a plus sign, without it. */
  function FirstPlus(words: seq<string>): Option<string> {
    if words == [] then None
    else if words[0] != "" && words[0][0] == '+' then Some(words[0][1..])
    else FirstPlus(words[1..])
  }

  /** The first new line number a hunk header gives; 0 when it gives none. */
  function HunkStart(header: string): nat {
    var range := FirstPlus(Words(header));
    if range.None? then 0
    else
      var n := ParseU32(range.value[..FirstIndex(range.value, ',')]);
      if n.Some? then n.value else 0
  }

  type Added = (nat, string)

  /** What the lines from some point on add, `next` being the next new line number; numbers wrap. */
  function AddedFrom(lines: seq<string>, next: nat): seq<Added> {
    if lines == [] then []
    else if HUNK <= lines[0] then AddedFrom(lines[1..], HunkStart(lines[0][|HUNK|..]))
    else if next > 0 && "+" <= lines[0] then [(next, lines[0][1..])] + AddedFrom(lines[1..], (next + 1) % U32_LIMIT)
    else AddedFrom(lines[1..], next)
  }

  method ParseAdded(diff: string) returns (out: seq<Added>)
    ensures out == AddedFrom(Lines(diff), 0)
  {
    hide HunkStart, Lines;
    var lines := Lines(diff);
    var next: nat := 0;
    out := [];
    for i := 0 to |lines|
      invariant out + AddedFrom(lines[i..], next) == AddedFrom(lines, 0)
    {
      var line := lines[i];
      assert lines[i..][0] == line && lines[i..][1..] == lines[i + 1..];
      if HUNK <= line {
        next := HunkStart(line[|HUNK|..]);
      } else if next > 0 {
        if "+" <= line {
          var after := (next + 1) % U32_LIMIT;
          assert out + ([(next, line[1..])] + AddedFrom(lines[i + 1..], after))
            == out + [(next, line[1..])] + AddedFrom(lines[i + 1..], after);
          out := out + [(next, line[1..])];
          next := after;
        }
      }
    }
    assert lines[|lines|..] == [] && out + [] == out;
  }

  // ---- printing ----

  /** A place where a file changed: the lines kept since the last one, the lines taken out and put in,
      whether each of those ends the file without a line feed, and the section the header names. */
  datatype Edit = Edit(kept: seq<string>, removed: seq<string>, added: seq<string>,
                       removedBare: bool, addedBare: bool, section: string)

  /** The file after. */
  function After(edits: seq<Edit>, rest: seq<string>): seq<string> {
    if edits == [] then rest else edits[0].kept + edits[0].added + After(edits[1..], rest)
  }

  /** A hunk range: the first line and, unless it is one, the count; an empty range names the line before. */
  function Range(at: nat, count: nat): string {
    if count == 1 then Print(at + 1)
    else if count == 0 then Print(at) + ",0"
    else Print(at + 1) + "," + Print(count)
  }

  const BARE := "\\ No newline at end of file"

  function Marked(mark: char, lines: seq<string>): (r: seq<string>)
    ensures |r| == |lines| && forall i | 0 <= i < |lines| :: r[i] == [mark] + lines[i]
  {
    seq(|lines|, i requires 0 <= i < |lines| => [mark] + lines[i])
  }

  function Header(e: Edit, oldAt: nat, newAt: nat): string {
    HUNK + "-" + Range(oldAt, |e.removed|) + " +" + Range(newAt, |e.added|) + " @@" + e.section
  }

  function Body(e: Edit): seq<string> {
    Marked('-', e.removed) + (if e.removedBare then [BARE] else [])
    + Marked('+', e.added) + (if e.addedBare then [BARE] else [])
  }

  /** The hunks, `oldAt` and `newAt` lines into the two files. */
  function Hunks(edits: seq<Edit>, oldAt: nat, newAt: nat): seq<string> {
    if edits == [] then []
    else
      var e := edits[0];
      var o, n := oldAt + |e.kept|, newAt + |e.kept|;
      [Header(e, o, n)] + Body(e) + Hunks(edits[1..], o + |e.removed|, n + |e.added|)
  }

  function PrintDiff(preamble: seq<string>, edits: seq<Edit>): string {
    Unlines(preamble + Hunks(edits, 0, 0))
  }

  /** The added lines with their numbers in the new file. */
  function Numbered(edits: seq<Edit>, newAt: nat): seq<Added> {
    if edits == [] then []
    else
      var n := newAt + |edits[0].kept|;
      NumberLines(edits[0].added, n) + Numbered(edits[1..], n + |edits[0].added|)
  }

  function NumberLines(lines: seq<string>, at: nat): (r: seq<Added>)
    ensures |r| == |lines| && forall i | 0 <= i < |lines| :: r[i] == (at + i + 1, lines[i])
  {
    seq(|lines|, i requires 0 <= i < |lines| => (at + i + 1, lines[i]))
  }

  /** The same with each text as a line reader gives it. */
  function ChompedTexts(added: seq<Added>): (r: seq<Added>)
    ensures |r| == |added| && forall i | 0 <= i < |added| :: r[i] == (added[i].0, Chomp(added[i].1))
  {
    seq(|added|, i requires 0 <= i < |added| => (added[i].0, Chomp(added[i].1)))
  }

  predicate Printable(edits: seq<Edit>) {
    forall i | 0 <= i < |edits| ::
      OneLines(edits[i].removed) && OneLines(edits[i].added) && OneLine(edits[i].section)
  }

  predicate Preamble(lines: seq<string>) {
    OneLines(lines) && forall i | 0 <= i < |lines| :: !(HUNK <= lines[i])
  }

  // ---- a printed header reads back ----

  lemma WordThen(word: string, rest: string)
    requires word != "" && NoSpace(word) && (rest == "" || IsSpace(rest[0]))
    ensures Words(word + rest) == [word] + Words(rest)
  {
    var s := word + rest;
    assert !IsSpace(s[0]) && TrimStart(s) == s;
    var n := WordRun(s);
    assert forall i | 0 <= i < |word| :: s[i] == word[i];
    assert rest != "" ==> s[|word|] == rest[0];
    assert n == |word|;
    assert s[..n] == word && s[n..] == rest;
  }

  lemma SpaceThen(s: string)
    ensures Words(" " + s) == Words(s)
  {
    assert (" " + s)[1..] == s;
    assert TrimStart(" " + s) == TrimStart(s);
  }

  lemma CommaCuts(first: string, more: string)
    requires ',' !in first && (more == "" || more[0] == ',')
    ensures (first + more)[..FirstIndex(first + more, ',')] == first
  {
    var s := first + more;
    var n := FirstIndex(s, ',');
    assert forall i | 0 <= i < |first| :: s[i] == first[i] && s[i] in first;
    assert more != "" ==> s[|first|] == more[0];
    assert n == |first|;
  }

  lemma RangeIsAWord(at: nat, count: nat)
    ensures Range(at, count) != "" && NoSpace(Range(at, count))
    ensures var first := Print(if count == 0 then at else at + 1);
      Range(at, count)[..FirstIndex(Range(at, count), ',')] == first
  {
    hide Print, FirstIndex;
    var first := Print(if count == 0 then at else at + 1);
    DigitsAreText(first);
    DigitsAreText(Print(count));
    var more := if count == 1 then "" else if count == 0 then ",0" else "," + Print(count);
    assert Range(at, count) == first + more;
    CommaCuts(first, more);
    assert forall i | 0 <= i < |more| :: more[i] == ',' || !IsSpace(more[i]);
  }

  lemma DigitsAreText(s: string)
    requires AllDigits(s)
    ensures NoSpace(s) && ',' !in s
  {
  }

  /** The words of a header: the two ranges come first. */
  lemma HeaderWords(o: string, n: string, tail: string)
    requires NoSpace(o) && NoSpace(n)
    ensures Words("-" + o + " +" + n + " " + tail) == ["-" + o, "+" + n] + Words(tail)
  {
    hide Words;
    var second := ("+" + n) + (" " + tail);
    assert "-" + o + " +" + n + " " + tail == ("-" + o) + (" " + second);
    WordThen("-" + o, " " + second);
    SpaceThen(second);
    WordThen("+" + n, " " + tail);
    SpaceThen(tail);
  }

  lemma HeaderReadsBack(e: Edit, oldAt: nat, newAt: nat)
    requires newAt + 1 < U32_LIMIT
    ensures HUNK <= Header(e, oldAt, newAt)
    ensures HunkStart(Header(e, oldAt, newAt)[|HUNK|..]) == if |e.added| == 0 then newAt else newAt + 1
  {
    hide Words, Range, Print, FirstIndex, NoSpace, ParseU32;
    var o, n := Range(oldAt, |e.removed|), Range(newAt, |e.added|);
    RangeIsAWord(oldAt, |e.removed|);
    RangeIsAWord(newAt, |e.added|);
    var tail := "@@" + e.section;
    var rest := "-" + o + " +" + n + " " + tail;
    assert Header(e, oldAt, newAt) == HUNK + rest;
    assert Header(e, oldAt, newAt)[|HUNK|..] == rest;
    HeaderWords(o, n, tail);
    PlusRead("-" + o, n, Words(tail));
    PlainNumber(if |e.added| == 0 then newAt else newAt + 1);
  }

  lemma PlusRead(first: string, n: string, more: seq<string>)
    requires first != "" && first[0] != '+'
    ensures FirstPlus([first, "+" + n] + more) == Some(n)
  {
    var words := [first, "+" + n] + more;
    assert words[1..][0] == "+" + n && ("+" + n)[1..] == n;
    assert FirstPlus(words[1..]) == Some(n);
  }

  /** A printed number reads back while it fits in 32 bits. */
  lemma PlainNumber(k: nat)
    ensures ParseU32(Print(k)) == if k < 4294967296 then Some(k) else None
  {
    assert IsDigit(Print(k)[0]);
  }

  // ---- a printed diff reads back ----

  /** Lines that add nothing and start no hunk. */
  predicate Inert(line: string) {
    !(HUNK <= line) && !("+" <= line)
  }

  lemma {:induction false} InertSkipped(lines: seq<string>, more: seq<string>, next: nat)
    requires forall i | 0 <= i < |lines| :: Inert(lines[i])
    ensures AddedFrom(lines + more, next) == AddedFrom(more, next)
  {
    hide HunkStart;
    if lines == [] {
      assert lines + more == more;
    } else {
      assert (lines + more)[0] == lines[0] && (lines + more)[1..] == lines[1..] + more;
      InertSkipped(lines[1..], more, next);
    }
  }

  /** Before the first hunk nothing is added, whatever the lines start with. */
  lemma {:induction false} PreambleSkipped(lines: seq<string>, more: seq<string>)
    requires forall i | 0 <= i < |lines| :: !(HUNK <= lines[i])
    ensures AddedFrom(lines + more, 0) == AddedFrom(more, 0)
  {
    hide HunkStart;
    if lines == [] {
      assert lines + more == more;
    } else {
      assert (lines + more)[0] == lines[0] && (lines + more)[1..] == lines[1..] + more;
      PreambleSkipped(lines[1..], more);
    }
  }

  lemma {:induction false} AddedRead(lines: seq<string>, more: seq<string>, at: nat)
    requires at + |lines| + 1 < U32_LIMIT
    ensures AddedFrom(Marked('+', lines) + more, at + 1) == NumberLines(lines, at) + AddedFrom(more, at + |lines| + 1)
  {
    hide HunkStart, AddedFrom;
    if lines == [] {
      assert Marked('+', lines) + more == more;
      assert NumberLines(lines, at) + AddedFrom(more, at + 1) == AddedFrom(more, at + 1);
    } else {
      var rest := Marked('+', lines[1..]) + more;
      MarkedCons(lines, more, at);
      AddedOne(lines[0], rest, at + 1);
      AddedRead(lines[1..], more, at + 1);
      assert [(at + 1, lines[0])] + (NumberLines(lines[1..], at + 1) + AddedFrom(more, at + |lines| + 1))
        == NumberLines(lines, at) + AddedFrom(more, at + |lines| + 1);
    }
  }

  lemma MarkedCons(lines: seq<string>, more: seq<string>, at: nat)
    requires lines != []
    ensures Marked('+', lines) + more == ["+" + lines[0]] + (Marked('+', lines[1..]) + more)
    ensures NumberLines(lines, at) == [(at + 1, lines[0])] + NumberLines(lines[1..], at + 1)
  {
  }

  lemma AddedOne(text: string, more: seq<string>, next: nat)
    requires 0 < next < U32_LIMIT - 1
    ensures AddedFrom(["+" + text] + more, next) == [(next, text)] + AddedFrom(more, next + 1)
  {
    hide HunkStart;
    var lines := ["+" + text] + more;
    assert lines[1..] == more && lines[0][1..] == text && "+" <= lines[0];
    assert lines[0][0] == '+' && HUNK[0] == '@';
  }

  lemma ChompedParts(a: seq<string>, b: seq<string>)
    ensures Chomped(a + b) == Chomped(a) + Chomped(b)
  {
  }

  lemma ChompedMarked(mark: char, lines: seq<string>)
    requires mark != '\r'
    ensures Chomped(Marked(mark, lines)) == Marked(mark, Chomped(lines))
  {
    forall i | 0 <= i < |lines|
      ensures Chomp([mark] + lines[i]) == [mark] + Chomp(lines[i])
    {
    }
  }

  /** A carriage return at the end of a header touches only its section. */
  lemma ChompedHeader(e: Edit, oldAt: nat, newAt: nat)
    ensures Chomp(Header(e, oldAt, newAt)) == Header(e.(section := Chomp(e.section)), oldAt, newAt)
  {
    hide Range;
    var head := HUNK + "-" + Range(oldAt, |e.removed|) + " +" + Range(newAt, |e.added|) + " @@";
    var line := head + e.section;
    assert Header(e, oldAt, newAt) == line;
    if e.section == "" {
      assert line == head && head[|head| - 1] == '@';
    } else {
      assert line[|line| - 1] == e.section[|e.section| - 1];
      assert line[..|line| - 1] == head + e.section[..|e.section| - 1];
    }
  }

  function Minus(e: Edit): seq<string> {
    Marked('-', e.removed) + if e.removedBare then [BARE] else []
  }

  function Tail(e: Edit): seq<string> {
    if e.addedBare then [BARE] else []
  }

  /** The number after a hunk. */
  function NextAfter(e: Edit, newAt: nat): nat {
    if |e.added| == 0 then newAt else newAt + |e.added| + 1
  }

  lemma HunkInParts(e: Edit, oldAt: nat, newAt: nat, more: seq<string>)
    ensures Chomped([Header(e, oldAt, newAt)] + Body(e)) + more ==
      [Chomp(Header(e, oldAt, newAt))]
      + (Chomped(Minus(e)) + (Marked('+', Chomped(e.added)) + (Chomped(Tail(e)) + more)))
  {
    hide Header, Chomp, Marked, Chomped;
    var head, plus := [Header(e, oldAt, newAt)], Marked('+', e.added);
    Regroup(Minus(e), plus, Tail(e), []);
    assert Body(e) == Minus(e) + plus + Tail(e);
    ChompedParts(head, Body(e));
    ChompedParts(Minus(e) + plus, Tail(e));
    ChompedParts(Minus(e), plus);
    ChompedMarked('+', e.added);
    ChompedOne(Header(e, oldAt, newAt));
    Regroup(Chomped(head), Chomped(Minus(e)) + Chomped(plus) + Chomped(Tail(e)), more, []);
    Regroup(Chomped(Minus(e)), Chomped(plus), Chomped(Tail(e)), more);
  }

  lemma Regroup(a: seq<string>, b: seq<string>, c: seq<string>, d: seq<string>)
    ensures a + b + c == a + (b + c)
    ensures (a + b + c) + d == a + (b + (c + d))
  {
  }

  lemma ChompedOne(line: string)
    ensures Chomped([line]) == [Chomp(line)]
  {
  }

  /** One hunk, read by lines: its header gives the number, the rest of it the added lines. */
  lemma HunkReads(e: Edit, oldAt: nat, newAt: nat, more: seq<string>, next: nat)
    requires newAt + |e.added| + 1 < U32_LIMIT
    ensures AddedFrom(Chomped([Header(e, oldAt, newAt)] + Body(e)) + more, next)
      == NumberLines(Chomped(e.added), newAt) + AddedFrom(more, NextAfter(e, newAt))
  {
    hide HunkStart, Header, AddedFrom, Body, Chomp, Minus, Tail, Inert;
    var head := Chomp(Header(e, oldAt, newAt));
    var start := if |e.added| == 0 then newAt else newAt + 1;
    var bare := Chomped(Tail(e)) + more;
    var plus := Marked('+', Chomped(e.added)) + bare;
    HunkInParts(e, oldAt, newAt, more);
    ChompedHeader(e, oldAt, newAt);
    HeaderReadsBack(e.(section := Chomp(e.section)), oldAt, newAt);
    HeadSets(head, Chomped(Minus(e)) + plus, next);
    MinusIsInert(e);
    InertSkipped(Chomped(Minus(e)), plus, start);
    InertSkipped(Chomped(Tail(e)), more, NextAfter(e, newAt));
    if e.added == [] {
      assert plus == bare;
      assert NumberLines(Chomped(e.added), newAt) + AddedFrom(more, newAt) == AddedFrom(more, newAt);
    } else {
      AddedRead(Chomped(e.added), bare, newAt);
    }
  }

  lemma HeadSets(head: string, more: seq<string>, next: nat)
    requires HUNK <= head
    ensures AddedFrom([head] + more, next) == AddedFrom(more, HunkStart(head[|HUNK|..]))
  {
    hide HunkStart;
    assert ([head] + more)[1..] == more;
  }

  lemma MinusIsInert(e: Edit)
    ensures forall i | 0 <= i < |Minus(e)| :: Inert(Chomped(Minus(e))[i])
    ensures forall i | 0 <= i < |Tail(e)| :: Inert(Chomped(Tail(e))[i])
  {
    BareIsInert();
    hide Chomp, Inert;
    forall i | 0 <= i < |Minus(e)|
      ensures Inert(Chomped(Minus(e))[i])
    {
      if i < |e.removed| {
        RemovedIsInert(e.removed[i]);
      }
    }
  }

  lemma BareIsInert()
    ensures Inert(Chomp(BARE))
  {
    assert BARE[|BARE| - 1] == 'e' && BARE[0] == '\\' && HUNK[0] == '@';
  }

  lemma RemovedIsInert(text: string)
    ensures Inert(Chomp(['-'] + text))
  {
    var line := Chomp(['-'] + text);
    assert line[0] == '-' && HUNK[0] == '@';
  }

  lemma {:induction false} HunksRead(edits: seq<Edit>, oldAt: nat, newAt: nat, next: nat)
    requires Printable(edits) && newAt + |After(edits, [])| + 1 < U32_LIMIT
    ensures AddedFrom(Chomped(Hunks(edits, oldAt, newAt)), next) == ChompedTexts(Numbered(edits, newAt))
  {
    hide AddedFrom, Header, Body;
    if edits == [] {
      NothingAdded(next);
    } else {
      var e, rest := edits[0], edits[1..];
      var o, n := oldAt + |e.kept|, newAt + |e.kept|;
      var more := Hunks(rest, o + |e.removed|, n + |e.added|);
      ChompedParts([Header(e, o, n)] + Body(e), more);
      HunkReads(e, o, n, Chomped(more), next);
      HunksRead(rest, o + |e.removed|, n + |e.added|, NextAfter(e, n));
    }
  }

  lemma NothingAdded(next: nat)
    ensures AddedFrom([], next) == []
  {
  }

  lemma {:induction false} HunksAreLines(edits: seq<Edit>, oldAt: nat, newAt: nat)
    requires Printable(edits)
    ensures OneLines(Hunks(edits, oldAt, newAt))
  {
    hide Header, Body, OneLines, OneLine;
    if edits == [] {
      NoLineIsOneLines();
    } else {
      var e := edits[0];
      var o, n := oldAt + |e.kept|, newAt + |e.kept|;
      HunksAreLines(edits[1..], o + |e.removed|, n + |e.added|);
      HeaderIsALine(e, o, n);
      BodyIsLines(e);
      OneLinesTogether([Header(e, o, n)], Body(e));
      OneLinesTogether([Header(e, o, n)] + Body(e), Hunks(edits[1..], o + |e.removed|, n + |e.added|));
    }
  }

  lemma NoLineIsOneLines()
    ensures OneLines([])
  {
  }

  lemma OneLineTogether(a: string, b: string)
    requires OneLine(a) && OneLine(b)
    ensures OneLine(a + b)
  {
  }

  lemma NoSpaceIsOneLine(s: string)
    requires NoSpace(s)
    ensures OneLine(s)
  {
    assert IsSpace('\n');
  }

  lemma HeaderIsALine(e: Edit, oldAt: nat, newAt: nat)
    requires OneLine(e.section)
    ensures OneLines([Header(e, oldAt, newAt)])
  {
    hide Range, NoSpace, IsSpace;
    var o, n := Range(oldAt, |e.removed|), Range(newAt, |e.added|);
    RangeIsAWord(oldAt, |e.removed|);
    RangeIsAWord(newAt, |e.added|);
    NoSpaceIsOneLine(o);
    NoSpaceIsOneLine(n);
    OneLineTogether(HUNK + "-", o);
    OneLineTogether(HUNK + "-" + o, " +");
    OneLineTogether(HUNK + "-" + o + " +", n);
    OneLineTogether(HUNK + "-" + o + " +" + n, " @@");
    OneLineTogether(HUNK + "-" + o + " +" + n + " @@", e.section);
  }

  lemma BodyIsLines(e: Edit)
    requires OneLines(e.removed) && OneLines(e.added)
    ensures OneLines(Body(e))
  {
    MarkedIsLines('-', e.removed);
    MarkedIsLines('+', e.added);
    hide Marked, OneLine;
    BareIsALine();
    OneLinesTogether(Marked('-', e.removed), if e.removedBare then [BARE] else []);
    OneLinesTogether(Minus(e), Marked('+', e.added));
    OneLinesTogether(Minus(e) + Marked('+', e.added), if e.addedBare then [BARE] else []);
  }

  lemma BareIsALine()
    ensures OneLine(BARE)
  {
  }

  lemma MarkedIsLines(mark: char, lines: seq<string>)
    requires mark != '\n' && OneLines(lines)
    ensures OneLines(Marked(mark, lines))
  {
    forall i | 0 <= i < |lines|
      ensures OneLine([mark] + lines[i])
    {
      assert OneLine(lines[i]);
    }
  }

  /** Reading a printed diff recovers the change: exactly the added lines, in order, each with its number
      in the new file, whatever the texts start with; and each text as it was unless it ends in a
      carriage return. */
  lemma ReadingAPrintedDiff(preamble: seq<string>, edits: seq<Edit>)
    requires Preamble(preamble) && Printable(edits) && |After(edits, [])| + 1 < U32_LIMIT
    ensures AddedFrom(Lines(PrintDiff(preamble, edits)), 0) == ChompedTexts(Numbered(edits, 0))
  {
    hide AddedFrom, Hunks, Lines, Printable, OneLines, After;
    var hunks := Hunks(edits, 0, 0);
    HunksAreLines(edits, 0, 0);
    OneLinesTogether(preamble, hunks);
    LinesOfUnlines(preamble + hunks);
    ChompedParts(preamble, hunks);
    PreambleStaysOut(preamble);
    PreambleSkipped(Chomped(preamble), Chomped(hunks));
    HunksRead(edits, 0, 0, 0);
  }

  lemma OneLinesTogether(a: seq<string>, b: seq<string>)
    requires OneLines(a) && OneLines(b)
    ensures OneLines(a + b)
  {
  }

  lemma PreambleStaysOut(preamble: seq<string>)
    requires Preamble(preamble)
    ensures forall i | 0 <= i < |preamble| :: !(HUNK <= Chomped(preamble)[i])
  {
  }

  /** The texts come back exactly when none of them ends in a carriage return. */
  lemma ReadingIsExactIff(preamble: seq<string>, edits: seq<Edit>)
    requires Preamble(preamble) && Printable(edits) && |After(edits, [])| + 1 < U32_LIMIT
    ensures AddedFrom(Lines(PrintDiff(preamble, edits)), 0) == Numbered(edits, 0) <==>
      forall i, j | 0 <= i < |edits| && 0 <= j < |edits[i].added| :: !EndsInReturn(edits[i].added[j])
  {
    ReadingAPrintedDiff(preamble, edits);
    hide AddedFrom, Hunks, Lines, Printable, OneLines, After, Numbered, Preamble;
    var numbered := Numbered(edits, 0);
    assert ChompedTexts(numbered) == numbered <==>
      forall i | 0 <= i < |numbered| :: Chomp(numbered[i].1) == numbered[i].1;
    if ChompedTexts(numbered) == numbered {
      forall i, j | 0 <= i < |edits| && 0 <= j < |edits[i].added|
        ensures !EndsInReturn(edits[i].added[j])
      {
        NumberedTexts(edits, 0, edits[i].added[j]);
        var k :| 0 <= k < |numbered| && numbered[k].1 == edits[i].added[j];
      }
    } else {
      var k :| 0 <= k < |numbered| && Chomp(numbered[k].1) != numbered[k].1;
      NumberedTexts(edits, 0, numbered[k].1);
    }
  }

  predicate EndsInReturn(s: string) {
    s != "" && s[|s| - 1] == '\r'
  }

  predicate AddsText(edits: seq<Edit>, text: string) {
    exists i, j | 0 <= i < |edits| && 0 <= j < |edits[i].added| :: edits[i].added[j] == text
  }

  predicate HoldsText(added: seq<Added>, text: string) {
    exists k | 0 <= k < |added| :: added[k].1 == text
  }

  lemma HoldsTextTogether(a: seq<Added>, b: seq<Added>, text: string)
    ensures HoldsText(a + b, text) <==> HoldsText(a, text) || HoldsText(b, text)
  {
    if k :| 0 <= k < |a| && a[k].1 == text {
      assert (a + b)[k].1 == text;
    }
    if k :| 0 <= k < |b| && b[k].1 == text {
      assert (a + b)[|a| + k].1 == text;
    }
  }

  lemma AddsTextTogether(e: Edit, rest: seq<Edit>, text: string)
    ensures AddsText([e] + rest, text) <==> text in e.added || AddsText(rest, text)
  {
    var edits := [e] + rest;
    if AddsText(rest, text) {
      var i, j :| 0 <= i < |rest| && 0 <= j < |rest[i].added| && rest[i].added[j] == text;
      assert edits[i + 1].added[j] == text;
    }
    if j :| 0 <= j < |e.added| && e.added[j] == text {
      assert edits[0].added[j] == text;
    }
  }

  lemma {:induction false} NumberedTexts(edits: seq<Edit>, newAt: nat, text: string)
    ensures AddsText(edits, text) <==> HoldsText(Numbered(edits, newAt), text)
  {
    hide AddsText;
    if edits == [] {
      NothingAddsText(text);
    } else {
      var e, rest := edits[0], edits[1..];
      var n := newAt + |e.kept|;
      var first, more := NumberLines(e.added, n), Numbered(rest, n + |e.added|);
      NumberedTexts(rest, n + |e.added|, text);
      HoldsTextTogether(first, more, text);
      AddsTextTogether(e, rest, text);
      assert edits == [e] + rest;
      assert HoldsText(first, text) <==> text in e.added by {
        if j :| 0 <= j < |e.added| && e.added[j] == text {
          assert first[j].1 == text;
        }
      }
    }
  }

  lemma NothingAddsText(text: string)
    ensures !AddsText([], text)
  {
  }

  // ---- the numbers are the lines of the new file ----

  /** Each numbered line stands at its number in the new file, and the numbers ascend. */
  lemma {:induction false} NumbersAreLinesOfTheNewFile(edits: seq<Edit>, rest: seq<string>, newAt: nat, k: nat)
    requires k < |Numbered(edits, newAt)|
    ensures var (number, text) := Numbered(edits, newAt)[k];
      newAt < number <= newAt + |After(edits, rest)| && After(edits, rest)[number - newAt - 1] == text
    ensures k > 0 ==> Numbered(edits, newAt)[k - 1].0 < Numbered(edits, newAt)[k].0
  {
    var e := edits[0];
    var n, m := newAt + |e.kept|, |e.kept| + |e.added|;
    var tail, more := After(edits[1..], rest), Numbered(edits[1..], n + |e.added|);
    assert After(edits, rest) == e.kept + e.added + tail;
    assert Numbered(edits, newAt) == NumberLines(e.added, n) + more;
    if k >= |e.added| {
      NumbersAreLinesOfTheNewFile(edits[1..], rest, n + |e.added|, k - |e.added|);
      hide After, Numbered;
      var at := more[k - |e.added|].0 - (n + |e.added|) - 1;
      assert (e.kept + e.added + tail)[m + at] == tail[at];
    } else {
      hide After, Numbered;
      assert (e.kept + e.added + tail)[|e.kept| + k] == e.added[k];
    }
  }
}
