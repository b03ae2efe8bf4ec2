/** `Generate` (test/e2e/generator/generate.go, lines 19-33 and 66-104): the
    node-version table, then one testnet per combination of the global
    options. The repository's tag listing and the version under test enter
    as parameters, and so does the list of option combinations. */
module Generation {
  import opened Results
  import opened Text
  import opened Lists
  import opened Draws
  import opened Manifests
  import opened Versions
  import opened Releases
  import opened Testnet

  const Topologies: seq<string> := ["single", "quad", "large"]
  const InitialHeights: seq<nat> := [0, 1000]
  const InitialStates: seq<map<string, string>> := [map[], map["initial01" := "a", "initial02" := "b", "initial03" := "c"]]
  const ValidatorOptions: seq<string> := ["genesis", "initchain"]

  /** `testnetCombinations`, as the Cartesian product of its four option lists. */
  function TestnetCombinations(): (r: seq<Options>)
    ensures |r| == |Topologies| * |InitialHeights| * |InitialStates| * |ValidatorOptions|
  {
    seq(24, (i: nat) requires i < 24 =>
      Options(Topologies[i / 8], InitialHeights[i / 4 % 2], InitialStates[i / 2 % 2], ValidatorOptions[i % 2]))
  }

  /** The options `generateTestnet` accepts. */
  predicate ValidOptions(opt: Options)
  {
    opt.topology in {"single", "quad", "large"} && opt.validators in {"genesis", "initchain"}
  }

  /** Every global combination is one `generateTestnet` accepts. */
  lemma CombinationsValid()
    ensures forall o :: o in TestnetCombinations() ==> ValidOptions(o)
  {
    var c := TestnetCombinations();
    forall o | o in c ensures ValidOptions(o) {
      var i :| 0 <= i < 24 && c[i] == o;
      assert Topologies[i / 8] in Topologies && ValidatorOptions[i % 2] in ValidatorOptions;
    }
  }

  /** Every value of every option list occurs in some global combination. */
  lemma CombinationsCover(t: string, h: nat, st: map<string, string>, v: string)
    requires t in Topologies && h in InitialHeights && st in InitialStates && v in ValidatorOptions
    ensures Options(t, h, st, v) in TestnetCombinations()
  {
    var c := TestnetCombinations();
    var a :| 0 <= a < 3 && Topologies[a] == t;
    var b :| 0 <= b < 2 && InitialHeights[b] == h;
    var d :| 0 <= d < 2 && InitialStates[d] == st;
    var e :| 0 <= e < 2 && ValidatorOptions[e] == v;
    var i := 8 * a + 4 * b + 2 * d + e;
    assert i / 8 == a && i / 4 % 2 == b && i / 2 % 2 == d && i % 2 == e;
    assert c[i] == Options(t, h, st, v);
  }

  /** `gitRepoLatestReleaseVersion`: listing the repository's tags may fail;
      otherwise the newest release within the caret range of `coreVersion`. */
  function LatestRelease(tags: Result<seq<string>, string>, coreVersion: string, parse: Parser, caret: Caret): (r: Result<string, string>)
    ensures tags.Err? ==> r == Err(tags.error)
    ensures r.Ok? ==> r.value == "" || HasPrefix(r.value, "v")
  {
    if tags.Err? then Err(tags.error) else FindLatestReleaseTag(coreVersion, tags.value, parse, caret)
  }

  /** The version table of one run: the default table without `-m`; with it,
      the parsed table with both aliases resolved. The tag listing is
      consulted only when the table names `latest`. */
  function VersionTable(multiVersion: string, tags: Result<seq<string>, string>, coreVersion: string,
                        parse: Parser, caret: Caret): (r: Result<map<string, nat>, string>)
    ensures multiVersion == "" ==> r == Ok(DefaultVersions)
    ensures multiVersion != "" && ParseWeightedVersions(multiVersion).Err? ==> r == Err(ParseWeightedVersions(multiVersion).error)
    ensures multiVersion != "" && ParseWeightedVersions(multiVersion).Ok? ==>
              r == ResolveAliases(ParseWeightedVersions(multiVersion).value, LatestRelease(tags, coreVersion, parse, caret))
    ensures multiVersion != "" && ParseWeightedVersions(multiVersion).Ok? ==>
              (r.Err? <==> "latest" in ParseWeightedVersions(multiVersion).value && LatestRelease(tags, coreVersion, parse, caret).Err?)
    ensures r.Ok? ==> |r.value| >= 1 && "local" !in r.value && "latest" !in r.value
    ensures r.Ok? ==> forall v :: v in r.value ==> r.value[v] >= 1
  {
    if multiVersion == "" then Ok(DefaultVersions)
    else
      var parsed := ParseWeightedVersions(multiVersion);
      if parsed.Err? then Err(parsed.error)
      else
        var latest := LatestRelease(tags, coreVersion, parse, caret);
        var r := ResolveAliases(parsed.value, latest);
        if r.Err? then r
        else
          AliasesGone(parsed.value, latest);
          r
  }

  /** Resolving against a release name leaves a table that is non-empty,
      free of both aliases, and weighted by positive weights only. */
  lemma AliasesGone(table: map<string, nat>, latest: Result<string, string>)
    requires |table| >= 1 && forall v :: v in table ==> table[v] >= 1
    requires latest.Ok? ==> latest.value == "" || HasPrefix(latest.value, "v")
    requires ResolveAliases(table, latest).Ok?
    ensures var r := ResolveAliases(table, latest).value;
            && |r| >= 1 && "local" !in r && "latest" !in r
            && forall v :: v in r ==> r[v] >= 1
  {
    assert latest.Ok? ==> latest.value != "latest" && latest.value != "local" by {
      NotReleaseName("latest");
      NotReleaseName("local");
    }
    ResolveAliasesNonEmpty(table, latest);
    var r := ResolveAliases(table, latest).value;
    forall v | v in r ensures r[v] >= 1 {
      ResolveAliasesOrigin(table, latest);
      var u :| u in table && table[u] == r[v];
    }
  }

  /** A name starting with anything but 'v' is not a release name. */
  lemma NotReleaseName(s: string)
    requires |s| > 0 && s[0] != 'v'
    ensures !HasPrefix(s, "v")
  {
  }

  /** The versions of a table in some order: Go's map iteration order is
      unspecified, so any order will do. */
  method KeyList(table: map<string, nat>) returns (versions: seq<string>)
    ensures Distinct(versions)
    ensures forall v :: v in versions <==> v in table
    ensures |versions| == |table|
  {
    versions := [];
    var left := table.Keys;
    while left != {}
      invariant left !! set v | v in versions
      invariant forall v :: v in table <==> v in left || v in versions
      invariant Distinct(versions)
      invariant |versions| + |left| == |table|
      decreases |left|
    {
      var v :| v in left;
      versions := versions + [v];
      left := left - {v};
    }
  }

  /** What one generated testnet promises about its combination. */
  ghost predicate Produced(m: Manifest, z: Sizes, opt: Options, versions: seq<string>)
  {
    && ValidOptions(opt)
    && m.initialHeight == opt.initialHeight
    && m.initialState == opt.initialState
    && SizesFor(opt.topology, z)
    && TableOk(m.nodes, versions, opt.initialHeight, z)
  }

  ghost predicate AllProduced(ms: seq<Manifest>, zs: seq<Sizes>, combos: seq<Options>, versions: seq<string>)
  {
    && |ms| == |zs| <= |combos|
    && forall j :: 0 <= j < |ms| ==> Produced(ms[j], zs[j], combos[j], versions)
  }

  /** One more testnet extends the generated list. */
  lemma ProducedAppend(ms: seq<Manifest>, zs: seq<Sizes>, combos: seq<Options>, versions: seq<string>, m: Manifest, z: Sizes)
    requires AllProduced(ms, zs, combos, versions) && |ms| < |combos|
    requires Produced(m, z, combos[|ms|], versions)
    ensures AllProduced(ms + [m], zs + [z], combos, versions)
  {
    var ms', zs' := ms + [m], zs + [z];
    forall j | 0 <= j < |ms'| ensures Produced(ms'[j], zs'[j], combos[j], versions) {
      if j < |ms| {
        assert ms'[j] == ms[j] && zs'[j] == zs[j];
      }
    }
  }

  /** One call of `generateTestnet`, seen from the loop of `Generate`. */
  method OneTestnet(s: Stream, versions: seq<string>, opt: Options) returns (r: Result<Manifest, string>, z: Sizes, rest: Stream)
    requires |versions| > 0
    ensures r.Ok? <==> ValidOptions(opt)
    ensures r.Ok? ==> Produced(r.value, z, opt, versions)
  {
    r, z, rest := GenerateTestnet(s, versions, opt);
  }

  /** The loop of `Generate`: `generateTestnet` for each option combination
      in turn, stopping at the first failure. */
  method GenerateAll(versions: seq<string>, combos: seq<Options>, s: Stream)
    returns (r: Result<seq<Manifest>, string>, sizes: seq<Sizes>, rest: Stream)
    requires |versions| > 0
    ensures r.Ok? <==> forall i :: 0 <= i < |combos| ==> ValidOptions(combos[i])
    ensures r.Ok? ==> |r.value| == |combos| && AllProduced(r.value, sizes, combos, versions)
  {
    sizes, rest := [], s;
    var manifests: seq<Manifest> := [];
    for i := 0 to |combos|
      invariant |manifests| == i
      invariant AllProduced(manifests, sizes, combos, versions)
    {
      var m, z;
      m, z, rest := OneTestnet(rest, versions, combos[i]);
      if m.Err? {
        return Err(m.error), sizes, rest;
      }
      ProducedAppend(manifests, sizes, combos, versions, m.value, z);
      manifests, sizes := manifests + [m.value], sizes + [z];
    }
    r := Ok(manifests);
  }

  /** `Generate`: the version table, then one testnet per option combination. */
  method Generate(multiVersion: string, tags: Result<seq<string>, string>, coreVersion: string,
                  parse: Parser, caret: Caret, combos: seq<Options>, s: Stream)
    returns (r: Result<seq<Manifest>, string>, versions: seq<string>, sizes: seq<Sizes>, rest: Stream)
    ensures var table := VersionTable(multiVersion, tags, coreVersion, parse, caret);
            && (table.Err? ==> r == Err(table.error))
            && (table.Ok? ==> Distinct(versions) && forall v :: v in versions <==> v in table.value)
            && (r.Ok? <==> table.Ok? && forall i :: 0 <= i < |combos| ==> ValidOptions(combos[i]))
    ensures r.Ok? ==> |r.value| == |combos| && AllProduced(r.value, sizes, combos, versions)
  {
    var table := VersionTable(multiVersion, tags, coreVersion, parse, caret);
    if table.Err? {
      return Err(table.error), [], [], s;
    }
    versions := KeyList(table.value);
    r, sizes, rest := GenerateAll(versions, combos, s);
  }

  /** `Generate` over the global combinations, in any order: it fails exactly
      when the version table does, and otherwise yields one testnet per
      combination. */
  method GenerateGlobal(multiVersion: string, tags: Result<seq<string>, string>, coreVersion: string,
                        parse: Parser, caret: Caret, combos: seq<Options>, s: Stream)
    returns (r: Result<seq<Manifest>, string>, versions: seq<string>, sizes: seq<Sizes>, rest: Stream)
    requires forall i :: 0 <= i < |combos| ==> combos[i] in TestnetCombinations()
    ensures r.Ok? <==> VersionTable(multiVersion, tags, coreVersion, parse, caret).Ok?
    ensures r.Err? ==> r == Err(VersionTable(multiVersion, tags, coreVersion, parse, caret).error)
    ensures r.Ok? ==> |r.value| == |combos|
  {
    CombinationsValid();
    r, versions, sizes, rest := Generate(multiVersion, tags, coreVersion, parse, caret, combos, s);
  }
}
