/** What a repo's own npm ranges allow, and raising those that leave the target out
    (crates/cli/src/fix_constraints.rs). Which ranges reach a vulnerable copy is an input. */
module NpmRaise {
  import opened FixPlan
  import opened NpmRange
  import opened SemVer
  import opened Splice
  import opened Text
  import opened Wrappers

  /** A range in a lockfile on the package: whether the repo's own manifest holds it, and whether it
      reaches a vulnerable copy. */
  datatype Asking = Asking(own: bool, range: string, vulnerable: bool)

  ghost predicate LeavesOut(range: string, v: Version) {
    RangeSays(range, v, Some(false))
  }

  ghost predicate Excludes(a: Asking, v: Version) {
    a.vulnerable && LeavesOut(a.range, v)
  }

  ghost predicate Blocks(asking: seq<Asking>, v: Version) {
    exists i :: 0 <= i < |asking| && !asking[i].own && Excludes(asking[i], v)
  }

  ghost predicate NeedsRaise(asking: seq<Asking>, v: Version) {
    exists i :: 0 <= i < |asking| && asking[i].own && Excludes(asking[i], v)
  }

  lemma OneAnswer(range: string, v: Version, a: Option<bool>, b: Option<bool>)
    requires RangeSays(range, v, a) && RangeSays(range, v, b)
    ensures a == b
  {
    hide SetOf, Fits, SplitText, Trim;
  }

  method IsExcluding(a: Asking, v: Version) returns (excludes: bool)
    ensures excludes <==> Excludes(a, v)
  {
    hide RangeSays;
    if !a.vulnerable {
      return false;
    }
    var answer := NpmSatisfies(a.range, v);
    if LeavesOut(a.range, v) {
      OneAnswer(a.range, v, answer, Some(false));
    }
    return answer == Some(false);
  }

  /** `constrain`: a published package that leaves the target out blocks the edit; only the repo's own
      ranges doing so makes it a manifest bump. */
  method Constrain(edit: Edit, asking: seq<Asking>, to: Version) returns (strategy: Strategy)
    ensures edit.strategy != LockBump ==> strategy == edit.strategy
    ensures edit.strategy == LockBump ==>
      && (strategy == Blocked <==> Blocks(asking, to))
      && (strategy == ManifestBump <==> !Blocks(asking, to) && NeedsRaise(asking, to))
  {
    hide Excludes;
    if edit.strategy != LockBump {
      return edit.strategy;
    }
    var found: seq<Asking> := [];
    for i := 0 to |asking|
      invariant forall a :: a in found <==> exists k :: 0 <= k < i && asking[k] == a && Excludes(a, to)
    {
      var excludes := IsExcluding(asking[i], to);
      if excludes {
        found := found + [asking[i]];
      }
    }
    if a :| a in found && !a.own {
      return Blocked;
    }
    assert found != [] ==> found[0] in found;
    assert forall i | 0 <= i < |asking| && Excludes(asking[i], to) :: asking[i] in found;
    return if found != [] then ManifestBump else LockBump;
  }

  // ---- raising ----

  ghost function RaisedAsking(a: Asking, to: Version): Asking {
    if a.own && Excludes(a, to) then a.(range := Raised(a.range, PrintVersion(to))) else a
  }

  /** Raising settles the repo's own ranges: none of them leaves the target out any more, and what
      published packages ask is as it was. */
  lemma RaisingSettlesOwnRanges(asking: seq<Asking>, to: Version, raised: seq<Asking>)
    requires Allowed(to) && |raised| == |asking|
    requires forall i | 0 <= i < |asking| :: raised[i] == RaisedAsking(asking[i], to)
    ensures !NeedsRaise(raised, to)
    ensures Blocks(raised, to) <==> Blocks(asking, to)
  {
    hide RangeSays, Raised;
    forall i | 0 <= i < |raised|
      ensures raised[i].own == asking[i].own
      ensures raised[i].own ==> !Excludes(raised[i], to)
      ensures !raised[i].own ==> raised[i] == asking[i]
    {
      if asking[i].own && Excludes(asking[i], to) && Excludes(raised[i], to) {
        RaisedRangeTakesTheTarget(asking[i].range, to, Some(false));
      }
    }
  }

  /** One manifest's section ranges, raised one after another in the file's text. */
  ghost function RaisedText(text: string, package: string, sections: seq<Asking>, to: Version): string {
    if sections == [] then text
    else
      var z := |sections| - 1;
      var before := RaisedText(text, package, sections[..z], to);
      if Excludes(sections[z], to) then
        Spliced(before, 0, Sites(before, 0, Quoted(package), Quoted(sections[z].range)),
                Quoted(Raised(sections[z].range, PrintVersion(to))))
      else before
  }

  /** The inner loop of `raise_npm`: the text of one `package.json` after its sections, and whether to
      write it. */
  method RaiseManifest(text: string, package: string, sections: seq<Asking>, to: Version)
    returns (out: string, changed: bool)
    ensures out == RaisedText(text, package, sections, to) && (changed <==> out != text)
  {
    hide Excludes, Spliced, Sites, Quoted, Raised;
    out := text;
    for i := 0 to |sections|
      invariant out == RaisedText(text, package, sections[..i], to)
    {
      assert sections[..i + 1][..i] == sections[..i];
      var excludes := IsExcluding(sections[i], to);
      if excludes {
        out := WithNpmRange(out, package, sections[i].range, Raised(sections[i].range, PrintVersion(to)));
      }
    }
    assert sections[..|sections|] == sections;
    changed := out != text;
  }
}
