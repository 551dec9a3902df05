/** A classic yarn.lock as yarn writes it, and what dropping a package's entries leaves of it. */
module YarnTexts {
  import opened Splice
  import opened Text
  import opened Wrappers

  // ---- a lockfile as written ----

  /** One `name@range` of a key, in quotes or not. */
  datatype Spec = Spec(name: string, range: string, quoted: bool)
  {
    function Bare(): string {
      name + "@" + range
    }

    function Written(): string {
      if quoted then "\"" + Bare() + "\"" else Bare()
    }

    /** A name has no `@` but at its front, neither part a quote, and nothing reads as the key's own punctuation. */
    predicate Valid() {
      && name != "" && name[0] !in " #\"" && !IsSpace(name[0]) && (forall i | 0 < i < |name| :: name[i] != '@')
      && range != "" && range[|range| - 1] !in ":\"" && !IsSpace(range[|range| - 1])
      && Find(Bare(), ", ").None?
    }
  }

  /** An entry, with its indented lines; or a line between entries, blank or a comment. */
  datatype Block = Entry(specs: seq<Spec>, body: seq<string>) | Between(line: string)
  {
    predicate Valid() {
      match this
      case Entry(specs, body) =>
        && specs != [] && (forall s | s in specs :: s.Valid())
        && forall line | line in body :: line != "" && line[0] == ' '
      case Between(line) => line == "\n" || (line != "" && line[0] == '#')
    }

    function Lines(): seq<string> {
      match this
      case Entry(specs, body) => [KeyText(specs)] + body
      case Between(line) => [line]
    }
  }

  function Texts(specs: seq<Spec>): seq<string> {
    seq(|specs|, i requires 0 <= i < |specs| => specs[i].Written())
  }

  function KeyText(specs: seq<Spec>): string {
    Join(Texts(specs), ", ") + ":\n"
  }

  predicate ValidFile(blocks: seq<Block>) {
    forall b | b in blocks :: b.Valid()
  }

  function FileLines(blocks: seq<Block>): seq<string> {
    if blocks == [] then [] else FileLines(blocks[..|blocks| - 1]) + blocks[|blocks| - 1].Lines()
  }

  /** The entry is the package's: one of its keys asks for it. */
  predicate EntryOf(b: Block, package: string) {
    b.Entry? && exists s | s in b.specs :: s.name == package
  }

  function Others(blocks: seq<Block>, package: string): seq<Block> {
    if blocks == [] then []
    else
      var last := blocks[|blocks| - 1];
      Others(blocks[..|blocks| - 1], package) + if EntryOf(last, package) then [] else [last]
  }

  // ---- reading a key line ----

  lemma SpecAsks(s: Spec, package: string)
    requires s.Valid() && (forall i | 0 < i < |package| :: package[i] != '@') && package != ""
    ensures Asks(s.Written(), package) <==> s.name == package
  {
    UnquotedSpec(s);
    var bare := s.Bare();
    assert bare[|s.name|] == '@';
    assert forall i | 0 <= i < |s.name| :: bare[i] == s.name[i];
    if package <= bare && |package| < |bare| && bare[|package|] == '@' {
      assert forall i | 0 <= i < |package| :: package[i] == bare[i];
      assert |package| == |s.name|;
      assert package == s.name;
    }
  }

  lemma UnquotedSpec(s: Spec)
    requires s.Valid()
    ensures TrimQuotes(s.Written()) == s.Bare()
  {
    var bare := s.Bare();
    assert bare[0] == s.name[0] && bare[|bare| - 1] == s.range[|s.range| - 1];
    assert TrimQuotes(bare) == bare;
    if s.quoted {
      var w := s.Written();
      assert w[0] == '"' && w[1..] == bare + "\"";
      var t := bare + "\"";
      assert t[0] == bare[0] && t[|t| - 1] == '"' && t[..|t| - 1] == bare;
    }
  }

  lemma FirstComma(first: string, rest: string)
    requires Find(first, ", ").None?
    ensures Find(first + ", " + rest, ", ") == Some(|first|)
  {
    hide Find;
    var s := first + ", " + rest;
    assert s[|first|..|first| + 2] == ", ";
    assert At(s, ", ", |first|);
    forall k | 0 <= k < |first|
      ensures !At(s, ", ", k)
    {
      CommaAt(s, k);
      CommaAt(first, k);
    }
    hide At;
  }

  lemma CommaAt(s: string, k: nat)
    ensures At(s, ", ", k) <==> k + 2 <= |s| && s[k] == ',' && s[k + 1] == ' '
  {
    if k + 2 <= |s| {
      assert s[k..k + 2] == [s[k], s[k + 1]];
    }
  }

  lemma {:induction false} CommasSplit(parts: seq<string>)
    requires parts != [] && forall p | p in parts :: Find(p, ", ").None?
    ensures SplitText(Join(parts, ", "), ", ") == parts
  {
    hide Find;
    assert parts[0] in parts;
    if |parts| > 1 {
      var s, rest := Join(parts, ", "), Join(parts[1..], ", ");
      FirstComma(parts[0], rest);
      assert s[..|parts[0]|] == parts[0] && s[|parts[0]| + 2..] == rest;
      CommasSplit(parts[1..]);
      assert parts == [parts[0]] + parts[1..];
    }
  }

  lemma SpecHasNoComma(s: Spec)
    requires s.Valid()
    ensures Find(s.Written(), ", ").None?
  {
    if s.quoted {
      var w, bare := s.Written(), s.Bare();
      forall k: nat
        ensures !At(w, ", ", k)
      {
        CommaAt(w, k);
        if 0 < k {
          CommaAt(bare, k - 1);
        }
        assert forall i | 0 < i < |w| - 1 :: w[i] == bare[i - 1];
      }
    }
  }

  lemma {:induction false} JoinEnds(parts: seq<string>)
    requires parts != [] && forall i | 0 <= i < |parts| :: parts[i] != ""
    ensures var s := Join(parts, ", ");
      s != "" && s[0] == parts[0][0] && s[|s| - 1] == parts[|parts| - 1][|parts[|parts| - 1]| - 1]
  {
    if |parts| > 1 {
      JoinEnds(parts[1..]);
    }
  }

  /** A written key line opens an entry, and names exactly the packages of its keys. */
  lemma KeyLineReads(specs: seq<Spec>, package: string)
    requires specs != [] && (forall s | s in specs :: s.Valid())
    requires package != "" && forall i | 0 < i < |package| :: package[i] != '@'
    ensures Opens(KeyText(specs), package) <==> exists s | s in specs :: s.name == package
    ensures KindOf(KeyText(specs)).KeyLine?
  {
    var texts := Texts(specs);
    forall i | 0 <= i < |specs|
      ensures Find(texts[i], ", ").None? && texts[i] != ""
      ensures Asks(texts[i], package) <==> specs[i].name == package
      ensures texts[i][0] !in " #" && !IsSpace(texts[i][0]) && !IsSpace(texts[i][|texts[i]| - 1])
      ensures texts[i][|texts[i]| - 1] != ':'
    {
      assert specs[i] in specs;
      SpecHasNoComma(specs[i]);
      SpecAsks(specs[i], package);
      SpecEnds(specs[i]);
    }
    hide Asks, Find, SplitText, TrimColons, TrimEnd, Spec.Written, Spec.Valid, IsSpace;
    CommasSplit(texts);
    JoinEnds(texts);
    var s := Join(texts, ", ");
    KeyEnds(s);
    hide Join, KeyText;
    NamesMeans(KeyText(specs), texts, package);
    assert (exists i :: 0 <= i < |texts| && Asks(texts[i], package)) <==> exists s | s in specs :: s.name == package;
  }

  lemma NamesMeans(line: string, texts: seq<string>, package: string)
    requires SplitText(TrimColons(TrimEnd(line)), ", ") == texts
    ensures Names(line, package) <==> exists i :: 0 <= i < |texts| && Asks(texts[i], package)
  {
  }

  lemma SpecEnds(s: Spec)
    requires s.Valid()
    ensures var w := s.Written();
      w != "" && w[0] !in " #" && !IsSpace(w[0]) && !IsSpace(w[|w| - 1]) && w[|w| - 1] != ':'
  {
    var bare, w := s.Bare(), s.Written();
    assert bare[0] == s.name[0] && bare[|bare| - 1] == s.range[|s.range| - 1];
    assert s.quoted ==> w[0] == '"' && w[|w| - 1] == '"';
  }

  /** The colon and line end go, and the line is no comment, not blank and not indented. */
  lemma KeyEnds(s: string)
    requires s != "" && s[0] !in " #" && !IsSpace(s[0]) && s[|s| - 1] != ':'
    ensures TrimColons(TrimEnd(s + ":\n")) == s
    ensures KindOf(s + ":\n") == Kind.KeyLine
  {
    var line, colon := s + ":\n", s + ":";
    assert line[|line| - 1] == '\n' && line[..|line| - 1] == colon;
    assert colon[|colon| - 1] == ':' && colon[..|colon| - 1] == s;
    assert IsSpace('\n') && !IsSpace(':');
    assert TrimEnd(line) == colon;
    assert line[0] == s[0] && TrimStart(line) == line;
  }

  // ---- dropping ----

  lemma EntryDropped(lines: seq<string>, key: string, body: seq<string>, package: string)
    requires KindOf(key).KeyLine? && forall line | line in body :: KindOf(line).Indented?
    ensures var all := lines + [key] + body;
      && Kept(all, package) == Kept(lines, package) + (if Opens(key, package) then [] else [key] + body)
      && (InEntry(all, package, |all| - 1) <==> Opens(key, package))
    decreases |body|
  {
    hide KindOf, Names, Opens, InEntry;
    var all := lines + [key] + body;
    InEntryLast(all, package, |all| - 1);
    if body == [] {
      assert all == lines + [key] && all[..|lines|] == lines && all[|lines|] == key;
      assert [key] + body == [key];
    } else {
      var init, last := body[..|body| - 1], body[|body| - 1];
      assert last in body && all[|all| - 1] == last && all[..|all| - 1] == lines + [key] + init;
      EntryDropped(lines, key, init, package);
      assert [key] + init + [last] == [key] + body;
    }
  }

  lemma BetweenStays(lines: seq<string>, line: string, package: string)
    requires KindOf(line).Other?
    ensures Kept(lines + [line], package) == Kept(lines, package) + [line]
  {
    hide KindOf, Names, InEntry;
    var all := lines + [line];
    InEntryLast(all, package, |lines|);
    assert all[..|lines|] == lines && all[|lines|] == line;
  }

  lemma BetweenIsOther(line: string)
    requires line == "\n" || (line != "" && line[0] == '#')
    ensures KindOf(line).Other?
  {
    assert "\n"[1..] == "";
    assert TrimStart("\n") == "";
  }

  lemma IndentedIs(line: string)
    requires line != "" && line[0] == ' '
    ensures KindOf(line).Indented?
  {
  }

  /** One more block: an entry of the package goes, and anything else stays. */
  lemma OneMoreBlock(before: seq<string>, b: Block, package: string)
    requires b.Valid() && package != "" && forall i | 0 < i < |package| :: package[i] != '@'
    ensures Kept(before + b.Lines(), package) == Kept(before, package) + if EntryOf(b, package) then [] else b.Lines()
  {
    hide Kept, Opens, KindOf, KeyText, Spec.Valid, InEntry;
    match b {
      case Entry(specs, body) =>
        KeyLineReads(specs, package);
        forall line | line in body
          ensures KindOf(line).Indented?
        {
          IndentedIs(line);
        }
        EntryDropped(before, KeyText(specs), body, package);
        assert before + ([KeyText(specs)] + body) == before + [KeyText(specs)] + body;
      case Between(line) =>
        BetweenIsOther(line);
        BetweenStays(before, line, package);
    }
  }

  /** Dropping a package's entries from a lockfile leaves exactly the other entries, whole, and every line between:
      an entry goes when one of its keys is for the package, whatever the range and whether quoted or not. */
  lemma {:induction false} WholeEntriesGo(blocks: seq<Block>, package: string)
    requires ValidFile(blocks) && package != "" && forall i | 0 < i < |package| :: package[i] != '@'
    ensures Kept(FileLines(blocks), package) == FileLines(Others(blocks, package))
  {
    if blocks == [] {
      NothingKept(package);
    } else {
      hide Kept, EntryOf, Block.Valid, Block.Lines, Others;
      var init, last := blocks[..|blocks| - 1], blocks[|blocks| - 1];
      assert last in blocks && blocks == init + [last];
      WholeEntriesGo(init, package);
      OneMoreBlock(FileLines(init), last, package);
      KeptBlock(init, last, package);
    }
  }

  lemma NothingKept(package: string)
    ensures Kept([], package) == []
  {
  }

  lemma KeptBlock(init: seq<Block>, last: Block, package: string)
    ensures FileLines(Others(init + [last], package)) ==
      FileLines(Others(init, package)) + if EntryOf(last, package) then [] else last.Lines()
  {
    hide EntryOf, Block.Lines;
    var others := Others(init, package);
    assert (init + [last])[..|init|] == init && (init + [last])[|init|] == last;
    if EntryOf(last, package) {
      assert Others(init + [last], package) == others + [] == others;
      assert FileLines(others) + [] == FileLines(others);
    } else {
      assert (others + [last])[..|others|] == others && (others + [last])[|others|] == last;
      assert Others(init + [last], package) == others + [last];
    }
  }
}
