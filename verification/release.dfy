/** The newest release a testnet may run as `latest`
    (test/e2e/generator/generate.go, lines 369-414): among the repository's
    tags, the highest release version within the caret range of the version
    under test. Parsing a semantic version and checking the caret range are
    the semver library's business and enter as parameters. */
module Releases {
  import opened Results
  import opened Text

  /** A parsed semantic version. */
  datatype SemVer = SemVer(major: nat, minor: nat, patch: nat, prerelease: string, metadata: string)

  /** `semver.NewVersion`: `None` when the text is not a semantic version. */
  type Parser = string -> Option<SemVer>

  /** `Check` of the constraint `^ major.minor`, given that major and minor. */
  type Caret = (nat, nat, SemVer) -> bool

  /** `Version.String()`: the canonical rendering, which never carries a "v". */
  function Render(v: SemVer): string
  {
    Decimal(v.major) + "." + Decimal(v.minor) + "." + Decimal(v.patch)
    + (if v.prerelease != "" then "-" + v.prerelease else "")
    + (if v.metadata != "" then "+" + v.metadata else "")
  }

  /** A rendered version starts with a digit, so the "v" is always added. */
  lemma RenderStartsWithDigit(v: SemVer)
    ensures |Render(v)| > 0 && IsDigit(Render(v)[0])
    ensures !HasPrefix(Render(v), "v")
  {
    var d := Decimal(v.major);
    assert Render(v) == d + Render(v)[|d|..];
    assert Render(v)[0] == d[0];
  }

  /** `GreaterThan` on releases: a higher (major, minor, patch) triple. The
      library also orders pre-releases, but none reach the comparison. */
  predicate Newer(a: SemVer, b: SemVer)
  {
    || a.major > b.major
    || (a.major == b.major && a.minor > b.minor)
    || (a.major == b.major && a.minor == b.minor && a.patch > b.patch)
  }

  /** The part of the version under test before its first '-'. */
  function BaseOf(baseVer: string): string
  {
    Split(baseVer, '-')[0]
  }

  function BaseError(baseVer: string): string
  {
    "failed to parse base version \"" + baseVer + "\""
  }

  function TagError(tag: string): string
  {
    "failed to parse tag \"" + tag + "\" as semantic version"
  }

  /** What one tag contributes to the search. */
  datatype Seen = Skipped | Unparsable(tag: string) | Release(version: SemVer)

  /** A tag that looks like a version but does not parse: it fails the search. */
  predicate BadTag(tag: string, parse: Parser)
  {
    HasPrefix(tag, "v") && parse(tag).None?
  }

  /** A tag the search can return: a release in the caret range of `base`. */
  predicate Candidate(tag: string, parse: Parser, caret: Caret, base: SemVer)
  {
    && HasPrefix(tag, "v") && parse(tag).Some?
    && parse(tag).value.prerelease == ""
    && caret(base.major, base.minor, parse(tag).value)
  }

  /** One iteration of the tag loop: tags without a "v" are passed over, a
      "v" tag must parse, and pre-releases and releases outside the caret
      range are passed over. */
  function Classify(tag: string, parse: Parser, caret: Caret, base: SemVer): (r: Seen)
    ensures r.Unparsable? <==> BadTag(tag, parse)
    ensures r.Unparsable? ==> r.tag == tag
    ensures r.Release? <==> Candidate(tag, parse, caret, base)
    ensures r.Release? ==> r.version == parse(tag).value
  {
    if !HasPrefix(tag, "v") then Skipped
    else
      match parse(tag)
      case None => Unparsable(tag)
      case Some(v) =>
        if v.prerelease != "" || !caret(base.major, base.minor, v) then Skipped
        else Release(v)
  }

  function ClassifyAll(tags: seq<string>, parse: Parser, caret: Caret, base: SemVer): (ss: seq<Seen>)
    ensures |ss| == |tags|
    ensures forall i :: 0 <= i < |tags| ==> ss[i] == Classify(tags[i], parse, caret, base)
  {
    seq(|tags|, (i: nat) requires i < |tags| => Classify(tags[i], parse, caret, base))
  }

  predicate NoneUnparsable(ss: seq<Seen>)
  {
    forall i :: 0 <= i < |ss| ==> !ss[i].Unparsable?
  }

  predicate FirstUnparsable(ss: seq<Seen>, i: nat)
  {
    && i < |ss| && ss[i].Unparsable?
    && forall j :: 0 <= j < i ==> !ss[j].Unparsable?
  }

  /** `ss[i]` is the first release with the highest version: no release is
      newer, and every earlier release is older. */
  predicate FirstNewest(ss: seq<Seen>, i: nat)
  {
    && i < |ss| && ss[i].Release?
    && (forall j :: 0 <= j < |ss| && ss[j].Release? ==> !Newer(ss[j].version, ss[i].version))
    && (forall j :: 0 <= j < i && ss[j].Release? ==> Newer(ss[i].version, ss[j].version))
  }

  /** The tag loop: the first unparsable tag ends it with an error; otherwise
      a release replaces the one found so far when it is newer. */
  function Scan(ss: seq<Seen>): (r: Result<Option<SemVer>, string>)
    ensures r.Err? <==> !NoneUnparsable(ss)
    ensures r.Err? ==> exists i: nat :: FirstUnparsable(ss, i) && r.error == TagError(ss[i].tag)
  {
    if |ss| == 0 then Ok(None)
    else
      var init := ss[..|ss| - 1];
      var last := ss[|ss| - 1];
      var prev := Scan(init);
      UnparsableExtends(ss);
      if prev.Err? then prev
      else
        match last
        case Skipped => prev
        case Unparsable(t) => Err(TagError(t))
        case Release(v) =>
          if prev.value.None? || Newer(v, prev.value.value) then Ok(Some(v)) else prev
  }

  /** The first unparsable entry of a prefix is the first of the whole list;
      when the prefix has none, the last entry is the only candidate. */
  lemma UnparsableExtends(ss: seq<Seen>)
    requires |ss| > 0
    ensures var init := ss[..|ss| - 1];
            && (forall i: nat :: FirstUnparsable(init, i) ==> FirstUnparsable(ss, i))
            && (NoneUnparsable(init) && ss[|ss| - 1].Unparsable? ==> FirstUnparsable(ss, |ss| - 1))
            && (NoneUnparsable(ss) <==> NoneUnparsable(init) && !ss[|ss| - 1].Unparsable?)
  {
    var init := ss[..|ss| - 1];
    assert forall i :: 0 <= i < |init| ==> init[i] == ss[i];
  }

  /** Without unparsable tags the loop finds nothing exactly when there is no
      release, and otherwise the first release with the highest version. */
  lemma {:induction false} ScanNewest(ss: seq<Seen>)
    requires NoneUnparsable(ss)
    ensures Scan(ss).Ok?
    ensures Scan(ss).value.None? <==> forall i :: 0 <= i < |ss| ==> !ss[i].Release?
    ensures Scan(ss).value.Some? ==> exists i: nat :: FirstNewest(ss, i) && Scan(ss).value.value == ss[i].version
  {
    if |ss| > 0 {
      var init := ss[..|ss| - 1];
      var last := ss[|ss| - 1];
      assert forall i :: 0 <= i < |init| ==> init[i] == ss[i];
      ScanNewest(init);
      var prev := Scan(init).value;
      if prev.Some? {
        var k: nat :| FirstNewest(init, k) && prev.value == init[k].version;
        if last.Release? && Newer(last.version, prev.value) {
          NewestAtEnd(ss, k);
        } else {
          NewestKept(ss, k);
        }
      } else if last.Release? {
        assert FirstNewest(ss, |ss| - 1);
      }
    }
  }

  /** A last release newer than the prefix's newest is the newest overall. */
  lemma NewestAtEnd(ss: seq<Seen>, k: nat)
    requires |ss| > 0 && FirstNewest(ss[..|ss| - 1], k)
    requires ss[|ss| - 1].Release? && Newer(ss[|ss| - 1].version, ss[k].version)
    ensures FirstNewest(ss, |ss| - 1)
  {
    var init := ss[..|ss| - 1];
    assert forall i :: 0 <= i < |init| ==> init[i] == ss[i];
  }

  /** A last entry that is not newer leaves the prefix's newest in place. */
  lemma NewestKept(ss: seq<Seen>, k: nat)
    requires |ss| > 0 && FirstNewest(ss[..|ss| - 1], k)
    requires ss[|ss| - 1].Release? ==> !Newer(ss[|ss| - 1].version, ss[k].version)
    ensures FirstNewest(ss, k)
  {
    var init := ss[..|ss| - 1];
    assert forall i :: 0 <= i < |init| ==> init[i] == ss[i];
  }

  /** A passed-over entry anywhere in the list does not change the outcome. */
  lemma {:induction false} ScanSkips(x: seq<Seen>, y: seq<Seen>)
    ensures Scan(x + [Skipped] + y) == Scan(x + y)
  {
    if |y| == 0 {
      assert x + [Skipped] + y == x + [Skipped];
      assert (x + [Skipped])[..|x|] == x;
      assert x + y == x;
    } else {
      var y' := y[..|y| - 1];
      ScanSkips(x, y');
      var a := x + [Skipped] + y;
      var b := x + y;
      assert a[..|a| - 1] == x + [Skipped] + y';
      assert b[..|b| - 1] == x + y';
      assert a[|a| - 1] == b[|b| - 1] == y[|y| - 1];
    }
  }

  /** `findLatestReleaseTag`: the highest release tag within the caret range
      of the version under test, with a "v" prefix; the empty string when
      there is none. */
  function FindLatestReleaseTag(baseVer: string, tags: seq<string>, parse: Parser, caret: Caret): (r: Result<string, string>)
    ensures parse(BaseOf(baseVer)).None? ==> r == Err(BaseError(baseVer))
    ensures r.Ok? ==> r.value == "" || HasPrefix(r.value, "v")
    ensures r.Ok? && r.value != "" ==> exists v :: r.value == "v" + Render(v)
  {
    match parse(BaseOf(baseVer))
    case None => Err(BaseError(baseVer))
    case Some(base) =>
      var found := Scan(ClassifyAll(tags, parse, caret, base));
      if found.Err? then Err(found.error)
      else if found.value.None? then Ok("")
      else
        var vs := Render(found.value.value);
        RenderStartsWithDigit(found.value.value);
        Ok(if HasPrefix(vs, "v") then vs else "v" + vs)
  }

  /** With a parsable base version, the search fails exactly when a "v" tag
      does not parse, and names the first such tag. */
  lemma FindLatestFails(baseVer: string, tags: seq<string>, parse: Parser, caret: Caret)
    requires parse(BaseOf(baseVer)).Some?
    ensures FindLatestReleaseTag(baseVer, tags, parse, caret).Err? <==>
              exists i :: 0 <= i < |tags| && BadTag(tags[i], parse)
    ensures FindLatestReleaseTag(baseVer, tags, parse, caret).Err? ==>
              exists i :: 0 <= i < |tags| && BadTag(tags[i], parse)
                && (forall j :: 0 <= j < i ==> !BadTag(tags[j], parse))
                && FindLatestReleaseTag(baseVer, tags, parse, caret).error == TagError(tags[i])
  {
    var base := parse(BaseOf(baseVer)).value;
    var ss := ClassifyAll(tags, parse, caret, base);
    if Scan(ss).Err? {
      var i: nat :| FirstUnparsable(ss, i) && Scan(ss).error == TagError(ss[i].tag);
      assert BadTag(tags[i], parse);
    } else {
      assert forall i :: 0 <= i < |tags| ==> !ss[i].Unparsable?;
    }
  }

  /** With a parsable base version and no unparsable "v" tag, the search
      returns the empty string exactly when no tag is a candidate, and
      otherwise the first candidate with the highest version, "v"-prefixed. */
  lemma FindLatestNewest(baseVer: string, tags: seq<string>, parse: Parser, caret: Caret)
    requires parse(BaseOf(baseVer)).Some?
    requires forall i :: 0 <= i < |tags| ==> !BadTag(tags[i], parse)
    ensures var base := parse(BaseOf(baseVer)).value;
            var r := FindLatestReleaseTag(baseVer, tags, parse, caret);
            && r.Ok?
            && (r.value == "" <==> forall i :: 0 <= i < |tags| ==> !Candidate(tags[i], parse, caret, base))
            && (r.value != "" ==> exists i :: (
                  && 0 <= i < |tags| && Candidate(tags[i], parse, caret, base)
                  && r.value == "v" + Render(parse(tags[i]).value)
                  && (forall j :: 0 <= j < |tags| && Candidate(tags[j], parse, caret, base) ==>
                        !Newer(parse(tags[j]).value, parse(tags[i]).value))
                  && (forall j :: 0 <= j < i && Candidate(tags[j], parse, caret, base) ==>
                        Newer(parse(tags[i]).value, parse(tags[j]).value))))
  {
    var base := parse(BaseOf(baseVer)).value;
    var ss := ClassifyAll(tags, parse, caret, base);
    ScanNewest(ss);
    if Scan(ss).value.Some? {
      var v := Scan(ss).value.value;
      RenderStartsWithDigit(v);
      var i: nat :| FirstNewest(ss, i) && v == ss[i].version;
      assert "v" + Render(v) != "";
      assert Candidate(tags[i], parse, caret, base);
    }
  }

  /** A tag the loop passes over — one without a "v", a pre-release, or a
      release outside the caret range — can be removed without changing the
      outcome. */
  lemma FindLatestIgnores(baseVer: string, a: seq<string>, t: string, b: seq<string>, parse: Parser, caret: Caret)
    requires parse(BaseOf(baseVer)).Some?
    requires Classify(t, parse, caret, parse(BaseOf(baseVer)).value) == Skipped
    ensures FindLatestReleaseTag(baseVer, a + [t] + b, parse, caret) == FindLatestReleaseTag(baseVer, a + b, parse, caret)
  {
    var base := parse(BaseOf(baseVer)).value;
    var x := ClassifyAll(a, parse, caret, base);
    var y := ClassifyAll(b, parse, caret, base);
    var all := ClassifyAll(a + [t] + b, parse, caret, base);
    assert all == x + [Skipped] + y;
    assert ClassifyAll(a + b, parse, caret, base) == x + y;
    ScanSkips(x, y);
  }
}
