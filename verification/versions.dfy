/** The node-version table (test/e2e/generator/generate.go, lines 66-85 and
    320-341): the `-m` option `"v0.34.21:1,v0.34.22:2"` parsed into a map from
    versions to weights, and the aliases `local` (the version under test,
    the empty string) and `latest` (the newest release) resolved. */
module Versions {
  import opened Results
  import opened Text

  /** One parsed `version:weight` entry. */
  datatype Weighted = Weighted(version: string, weight: nat)

  /** `wc[ver] = uint(wt)`, entry after entry: a later entry for the same
      version overrides an earlier one. */
  function TableOf(ws: seq<Weighted>): map<string, nat>
  {
    if |ws| == 0 then map[]
    else TableOf(ws[..|ws| - 1])[ws[|ws| - 1].version := ws[|ws| - 1].weight]
  }

  /** The table holds every listed version, with the weight of its last entry. */
  lemma {:induction false} TableOfLastWins(ws: seq<Weighted>)
    ensures TableOf(ws).Keys == set i | 0 <= i < |ws| :: ws[i].version
    ensures forall i :: 0 <= i < |ws| && (forall j :: i < j < |ws| ==> ws[j].version != ws[i].version) ==>
              TableOf(ws)[ws[i].version] == ws[i].weight
  {
    if |ws| > 0 {
      var init := ws[..|ws| - 1];
      TableOfLastWins(init);
      assert forall i :: 0 <= i < |init| ==> init[i] == ws[i];
      var keys := set i | 0 <= i < |ws| :: ws[i].version;
      forall x | x in keys ensures x in TableOf(ws) {
        var i :| 0 <= i < |ws| && ws[i].version == x;
        if i < |init| {
          assert init[i].version == x;
        }
      }
    }
  }

  /** The error for an entry that is not exactly one `version:weight` pair. */
  function CombinationError(wv: string): string
  {
    "unexpected weight:version combination: " + wv
  }

  /** The error for a weight that is not a decimal integer (the wrapped
      `strconv` error is left out). */
  function WeightError(raw: string): string
  {
    "unexpected weight \"" + raw + "\""
  }

  const WeightTooSmall: string := "version weights must be >= 1"

  /** One entry of the list: trimmed, split at `:` into exactly two parts, the
      version trimmed and the weight a decimal integer of at least 1. */
  function ParseEntry(wv: string): (r: Result<Weighted, string>)
    ensures r.Ok? ==> r.value.weight >= 1 && r.value.weight <= MaxInt64
    ensures r.Ok? ==> Trimmed(r.value.version) && ':' !in r.value.version
    ensures r.Err? ==> r.error == CombinationError(wv) || r.error == WeightTooSmall
                       || exists raw :: r.error == WeightError(raw)
  {
    var parts := Split(Trim(wv), ':');
    if |parts| != 2 then Err(CombinationError(wv))
    else
      var ver := Trim(parts[0]);
      var wt := Atoi(Trim(parts[1]));
      if wt.None? then Err(WeightError(parts[1]))
      else if wt.value < 1 then Err(WeightTooSmall)
      else Ok(Weighted(ver, wt.value))
  }

  /** A version that survives being written into an entry and read back. */
  predicate PlainVersion(v: string)
  {
    Trimmed(v) && ':' !in v && ',' !in v
  }

  /** `version:weight`, as written on the command line. */
  function RenderEntry(w: Weighted): string
  {
    w.version + ":" + Decimal(w.weight)
  }

  /** The entry pieces on either side of the colon, joined back. */
  lemma RenderIsJoin(w: Weighted)
    ensures RenderEntry(w) == Join([w.version, Decimal(w.weight)], ':')
  {
    var parts := [w.version, Decimal(w.weight)];
    assert parts[1..] == [Decimal(w.weight)];
  }

  /** Digits are neither white space nor a separator. */
  lemma DecimalPlain(n: nat)
    ensures Trimmed(Decimal(n)) && ':' !in Decimal(n) && ',' !in Decimal(n)
  {
    var d := Decimal(n);
    assert IsDigit(d[0]) && IsDigit(d[|d| - 1]);
  }

  /** A rendered entry is trimmed and free of list separators. */
  lemma RenderPlain(w: Weighted)
    requires PlainVersion(w.version)
    ensures Trimmed(RenderEntry(w)) && ',' !in RenderEntry(w)
  {
    var d := Decimal(w.weight);
    DecimalPlain(w.weight);
    var s := RenderEntry(w);
    assert s[|s| - 1] == d[|d| - 1];
    assert |w.version| > 0 ==> s[0] == w.version[0];
    assert forall i :: 0 <= i < |s| ==> s[i] == ',' ==> false by {
      forall i | 0 <= i < |s| ensures s[i] != ',' {
        if i < |w.version| {
          assert s[i] == w.version[i];
        } else if i > |w.version| {
          assert s[i] == d[i - |w.version| - 1];
        }
      }
    }
  }

  /** An entry written from a plain version and a weight of at least 1 reads
      back as that version and weight. */
  lemma ParseEntryRender(w: Weighted)
    requires PlainVersion(w.version) && 1 <= w.weight <= MaxInt64
    ensures ParseEntry(RenderEntry(w)) == Ok(w)
  {
    var s := RenderEntry(w);
    RenderPlain(w);
    DecimalPlain(w.weight);
    RenderIsJoin(w);
    SplitJoin([w.version, Decimal(w.weight)], ':');
    AtoiDecimal(w.weight);
  }

  /** An entry without exactly one colon is rejected, naming the entry. */
  lemma ParseEntryOneColon(wv: string)
    requires Count(Trim(wv), ':') != 1
    ensures ParseEntry(wv) == Err(CombinationError(wv))
  {
    SplitCount(Trim(wv), ':');
  }

  /** An entry of exactly two parts is judged by its weight alone: a weight
      that is no integer is named in the error, an integer below 1 is too
      small, and any other integer is the entry's weight. */
  lemma ParseEntryCases(wv: string)
    requires |Split(Trim(wv), ':')| == 2
    ensures var p := Split(Trim(wv), ':');
            var wt := Atoi(Trim(p[1]));
            && (wt.None? ==> ParseEntry(wv) == Err(WeightError(p[1])))
            && (wt.Some? && wt.value < 1 ==> ParseEntry(wv) == Err(WeightTooSmall))
            && (wt.Some? && wt.value >= 1 ==> ParseEntry(wv) == Ok(Weighted(Trim(p[0]), wt.value)))
  {
  }

  /** Two trimmed pieces joined by a colon are trimmed as a whole. */
  lemma ColonTrimmed(v: string, t: string)
    requires Trimmed(v) && Trimmed(t)
    ensures Trimmed(v + ":" + t)
  {
    var s := v + ":" + t;
    assert s[0] == (if |v| > 0 then v[0] else ':');
    assert s[|s| - 1] == (if |t| > 0 then t[|t| - 1] else ':');
  }

  /** The entry `v:t`, for a plain version `v` and a colon-free weight text
      `t`, is decided by `strconv.Atoi` on `t`: no integer names `t` in the
      error, an integer below 1 (zero or negative) is too small, and any
      other integer becomes the weight of `v`. */
  lemma ParseEntryText(v: string, t: string)
    requires Trimmed(v) && ':' !in v && Trimmed(t) && ':' !in t
    ensures Atoi(t).None? ==> ParseEntry(v + ":" + t) == Err(WeightError(t))
    ensures Atoi(t).Some? && Atoi(t).value < 1 ==> ParseEntry(v + ":" + t) == Err(WeightTooSmall)
    ensures Atoi(t).Some? && Atoi(t).value >= 1 ==> ParseEntry(v + ":" + t) == Ok(Weighted(v, Atoi(t).value))
  {
    ColonTrimmed(v, t);
    assert Join([v, t], ':') == v + ":" + t by {
      assert [v, t][1..] == [t];
    }
    SplitJoin([v, t], ':');
  }

  /** A weight that does not start like an integer (`v1:abc`, `v1:`) is
      rejected, naming the weight. */
  lemma ParseEntryNotNumber(v: string, t: string)
    requires Trimmed(v) && ':' !in v && Trimmed(t) && ':' !in t
    requires |t| == 0 || !(IsDigit(t[0]) || t[0] == '+' || t[0] == '-')
    ensures ParseEntry(v + ":" + t) == Err(WeightError(t))
  {
    ParseEntryText(v, t);
  }

  /** A minus sign before a rendered number reads back as its negation. */
  lemma AtoiNegative(n: nat)
    requires n <= MaxInt64
    ensures Atoi("-" + Decimal(n)) == Some(-(n as int))
  {
    DecimalRoundTrip(n);
    assert ("-" + Decimal(n))[1..] == Decimal(n);
  }

  /** A minus sign before a rendered number gives a trimmed, colon-free
      weight text that reads as the negated number. */
  lemma NegativeText(n: nat)
    requires n <= MaxInt64
    ensures var t := "-" + Decimal(n);
            Trimmed(t) && ':' !in t && Atoi(t) == Some(-(n as int))
  {
    var t := "-" + Decimal(n);
    var d := Decimal(n);
    DecimalPlain(n);
    forall i | 0 < i < |t| ensures t[i] == d[i - 1] {
    }
    assert t[|t| - 1] == d[|d| - 1];
    AtoiNegative(n);
  }

  /** A negative weight is rejected as too small. */
  lemma ParseEntryNegative(v: string, n: nat)
    requires PlainVersion(v) && 1 <= n <= MaxInt64
    ensures ParseEntry(v + ":" + ("-" + Decimal(n))) == Err(WeightTooSmall)
  {
    NegativeText(n);
    ParseEntryText(v, "-" + Decimal(n));
  }

  /** A zero weight is rejected. */
  lemma ParseEntryZeroWeight(v: string)
    requires PlainVersion(v)
    ensures ParseEntry(v + ":0") == Err(WeightTooSmall)
  {
    var w := Weighted(v, 0);
    assert Decimal(0) == "0";
    assert RenderEntry(w) == v + ":0";
    RenderPlain(w);
    DecimalPlain(0);
    RenderIsJoin(w);
    SplitJoin([v, "0"], ':');
    AtoiDecimal(0);
  }

  /** Every entry of the list, parsed on its own. */
  function ParseAll(wvs: seq<string>): (rs: seq<Result<Weighted, string>>)
    ensures |rs| == |wvs|
    ensures forall i :: 0 <= i < |wvs| ==> rs[i] == ParseEntry(wvs[i])
    ensures forall i :: 0 <= i < |wvs| && rs[i].Ok? ==> EntryOk(rs[i].value)
  {
    seq(|wvs|, (i: nat) requires i < |wvs| => ParseEntry(wvs[i]))
  }

  /** What every parsed entry satisfies. */
  predicate EntryOk(w: Weighted)
  {
    1 <= w.weight <= MaxInt64 && ':' !in w.version && Trimmed(w.version)
  }

  /** The table collected from parsed entries is non-empty and satisfies
      what every entry does. */
  lemma CollectedOk(rs: seq<Result<Weighted, string>>)
    requires |rs| > 0 && AllOk(rs)
    requires forall i :: 0 <= i < |rs| ==> EntryOk(rs[i].value)
    ensures |Collect(rs).value| >= 1
    ensures forall v :: v in Collect(rs).value ==> EntryOk(Weighted(v, Collect(rs).value[v]))
  {
    CollectTable(rs);
    TableKeys(Values(rs));
  }

  predicate AllOk(rs: seq<Result<Weighted, string>>)
  {
    forall i :: 0 <= i < |rs| ==> rs[i].Ok?
  }

  /** `rs[i]` is the first failure of `rs`. */
  predicate FirstFailure(rs: seq<Result<Weighted, string>>, i: nat)
  {
    && i < |rs| && rs[i].Err?
    && forall j :: 0 <= j < i ==> rs[j].Ok?
  }

  /** The entries of a list of successes. */
  function Values(rs: seq<Result<Weighted, string>>): (ws: seq<Weighted>)
    requires AllOk(rs)
    ensures |ws| == |rs|
    ensures forall i :: 0 <= i < |rs| ==> ws[i] == rs[i].value
  {
    seq(|rs|, (i: nat) requires i < |rs| => rs[i].value)
  }

  /** The loop of `parseWeightedVersions` over the parsed entries: the first
      failure is the result, otherwise every entry is stored in turn. */
  function Collect(rs: seq<Result<Weighted, string>>): (r: Result<map<string, nat>, string>)
    ensures r.Ok? <==> AllOk(rs)
    ensures r.Err? ==> exists i: nat :: FirstFailure(rs, i) && r.error == rs[i].error
  {
    if |rs| == 0 then Ok(map[])
    else
      var init := rs[..|rs| - 1];
      var prev := Collect(init);
      FailureExtends(rs);
      if prev.Err? then prev
      else if rs[|rs| - 1].Err? then Err(rs[|rs| - 1].error)
      else Ok(prev.value[rs[|rs| - 1].value.version := rs[|rs| - 1].value.weight])
  }

  /** The first failure of a list's prefix is the first failure of the list;
      when the prefix has none, the last entry is the only candidate. */
  lemma FailureExtends(rs: seq<Result<Weighted, string>>)
    requires |rs| > 0
    ensures var init := rs[..|rs| - 1];
            && (forall i: nat :: FirstFailure(init, i) ==> FirstFailure(rs, i))
            && (AllOk(init) && rs[|rs| - 1].Err? ==> FirstFailure(rs, |rs| - 1))
            && (AllOk(rs) <==> AllOk(init) && rs[|rs| - 1].Ok?)
  {
    var init := rs[..|rs| - 1];
    assert forall i :: 0 <= i < |init| ==> init[i] == rs[i];
  }

  /** Collecting successes stores their entries in order. */
  lemma {:induction false} CollectTable(rs: seq<Result<Weighted, string>>)
    requires AllOk(rs)
    ensures Collect(rs) == Ok(TableOf(Values(rs)))
  {
    if |rs| > 0 {
      var init := rs[..|rs| - 1];
      assert forall i :: 0 <= i < |init| ==> init[i] == rs[i];
      CollectTable(init);
      assert Values(init) == Values(rs)[..|rs| - 1];
    }
  }

  /** The table of a non-empty list of entries is non-empty, and holds only
      listed versions with listed weights. */
  lemma TableKeys(ws: seq<Weighted>)
    ensures |ws| > 0 ==> |TableOf(ws)| >= 1
    ensures forall v :: v in TableOf(ws) ==> exists i :: 0 <= i < |ws| && ws[i] == Weighted(v, TableOf(ws)[v])
  {
    TableOfLastWins(ws);
    if |ws| > 0 {
      assert ws[0].version in TableOf(ws);
    }
    forall v | v in TableOf(ws) ensures exists i :: 0 <= i < |ws| && ws[i] == Weighted(v, TableOf(ws)[v]) {
      var i :| 0 <= i < |ws| && ws[i].version == v;
      var k := LastOf(ws, v, i);
    }
  }

  /** The last entry for a listed version. */
  lemma {:induction false} LastOf(ws: seq<Weighted>, v: string, i: nat) returns (k: nat)
    requires i < |ws| && ws[i].version == v
    ensures k < |ws| && ws[k].version == v && forall j :: k < j < |ws| ==> ws[j].version != v
    decreases |ws| - i
  {
    if exists j :: i < j < |ws| && ws[j].version == v {
      var j :| i < j < |ws| && ws[j].version == v;
      k := LastOf(ws, v, j);
    } else {
      k := i;
    }
  }

  /** `parseWeightedVersions`: the whole option trimmed and split at `,`,
      every entry parsed, and the table collected. */
  function ParseWeightedVersions(s: string): (r: Result<map<string, nat>, string>)
    ensures r.Ok? ==> |r.value| >= 1
    ensures r.Ok? ==> forall v :: v in r.value ==> EntryOk(Weighted(v, r.value[v]))
  {
    var rs := ParseAll(Split(Trim(s), ','));
    var r := Collect(rs);
    if r.Ok? then
      CollectedOk(rs);
      r
    else r
  }

  /** A well-formed option parses to the table of its entries: every listed
      version, with the weight of its last entry. A malformed one fails with
      the error of its first malformed entry. */
  lemma ParseWeightedVersionsEntries(s: string)
    ensures var rs := ParseAll(Split(Trim(s), ','));
            && (AllOk(rs) ==> ParseWeightedVersions(s) == Ok(TableOf(Values(rs))))
            && (!AllOk(rs) ==> exists i: nat :: FirstFailure(rs, i) && ParseWeightedVersions(s) == Err(rs[i].error))
  {
    var rs := ParseAll(Split(Trim(s), ','));
    assert ParseWeightedVersions(s) == Collect(rs);
    if AllOk(rs) {
      CollectTable(rs);
    } else {
      var i: nat :| FirstFailure(rs, i) && Collect(rs).error == rs[i].error;
    }
  }

  /** The entries of a table written out, in order. */
  function RenderEntries(ws: seq<Weighted>): (r: seq<string>)
    ensures |r| == |ws|
    ensures forall i :: 0 <= i < |ws| ==> r[i] == RenderEntry(ws[i])
  {
    seq(|ws|, (i: nat) requires i < |ws| => RenderEntry(ws[i]))
  }

  /** Rendered entries parse back to the entries. */
  lemma ParseAllRendered(ws: seq<Weighted>)
    requires forall i :: 0 <= i < |ws| ==> PlainVersion(ws[i].version) && 1 <= ws[i].weight <= MaxInt64
    ensures AllOk(ParseAll(RenderEntries(ws))) && Values(ParseAll(RenderEntries(ws))) == ws
  {
    var rs := ParseAll(RenderEntries(ws));
    forall i | 0 <= i < |ws| ensures rs[i] == Ok(ws[i]) {
      ParseEntryRender(ws[i]);
    }
  }

  /** A non-empty list of plain versions with weights in range, written as
      `v1:w1,v2:w2,...` and parsed, gives the table of the list: every
      version with the weight of its last entry. */
  lemma ParseRendered(ws: seq<Weighted>)
    requires |ws| >= 1
    requires forall i :: 0 <= i < |ws| ==> PlainVersion(ws[i].version) && 1 <= ws[i].weight <= MaxInt64
    ensures ParseWeightedVersions(Join(RenderEntries(ws), ',')) == Ok(TableOf(ws))
  {
    var parts := RenderEntries(ws);
    forall i | 0 <= i < |ws| ensures ',' !in parts[i] && Trimmed(parts[i]) && |parts[i]| > 0 {
      RenderPlain(ws[i]);
    }
    JoinTrimmed(parts);
    SplitJoin(parts, ',');
    ParseAllRendered(ws);
    CollectTable(ParseAll(parts));
  }

  /** Joining trimmed, non-empty pieces gives a trimmed string. */
  lemma JoinTrimmed(parts: seq<string>)
    requires |parts| >= 1
    requires forall i :: 0 <= i < |parts| ==> Trimmed(parts[i]) && |parts[i]| > 0
    ensures Trimmed(Join(parts, ','))
  {
    JoinLast(parts, ',');
  }

  /** A join starts with its first piece and ends with its last piece. */
  lemma {:induction false} JoinLast(parts: seq<string>, sep: char)
    requires |parts| >= 1 && |parts[0]| > 0 && |parts[|parts| - 1]| > 0
    ensures var j := Join(parts, sep);
            |j| > 0 && j[0] == parts[0][0] && j[|j| - 1] == parts[|parts| - 1][|parts[|parts| - 1]| - 1]
  {
    if |parts| > 1 {
      var rest := parts[1..];
      assert rest[|rest| - 1] == parts[|parts| - 1];
      if |rest[0]| > 0 {
        JoinLast(rest, sep);
      } else {
        JoinLastOnly(rest, sep);
      }
    }
  }

  /** A join ends with its last piece when that piece is not empty. */
  lemma {:induction false} JoinLastOnly(parts: seq<string>, sep: char)
    requires |parts| >= 1 && |parts[|parts| - 1]| > 0
    ensures var j := Join(parts, sep);
            |j| > 0 && j[|j| - 1] == parts[|parts| - 1][|parts[|parts| - 1]| - 1]
  {
    if |parts| > 1 {
      var rest := parts[1..];
      assert rest[|rest| - 1] == parts[|parts| - 1];
      JoinLastOnly(rest, sep);
    }
  }

  /** The first alias: `local` names the build under test, the empty version. */
  function RenameLocal(table: map<string, nat>): (t: map<string, nat>)
    ensures "local" !in t
    ensures "local" in table ==> "" in t && t[""] == table["local"]
    ensures forall v :: v in table && v != "local" && (v != "" || "local" !in table) ==> v in t && t[v] == table[v]
    ensures forall v :: v in t ==> (v in table && v != "local") || v == ""
    ensures forall v :: v in t ==> exists u :: u in table && table[u] == t[v]
  {
    var t := if "local" in table then table["" := table["local"]] - {"local"} else table;
    assert forall v :: v in t ==> exists u :: u in table && table[u] == t[v] by {
      forall v | v in t ensures exists u :: u in table && table[u] == t[v] {
        if "local" in table && v == "" {
          assert table["local"] == t[v];
        } else {
          assert table[v] == t[v];
        }
      }
    }
    t
  }

  /** The second alias: `latest` is renamed to the resolved release, and a
      failing resolver fails; without `latest` the resolver is not consulted. */
  function RenameLatest(t: map<string, nat>, latest: Result<string, string>): (r: Result<map<string, nat>, string>)
    ensures r.Err? <==> "latest" in t && latest.Err?
    ensures r.Err? ==> r.error == latest.error
    ensures r.Ok? ==> "latest" !in r.value
    ensures r.Ok? && "latest" in t && latest.value != "latest" ==>
              latest.value in r.value && r.value[latest.value] == t["latest"]
    ensures r.Ok? ==> forall v :: v in t && v != "latest" && ("latest" !in t || v != latest.value) ==>
                        v in r.value && r.value[v] == t[v]
    ensures r.Ok? ==> forall v :: v in r.value ==> (v in t && v != "latest") || ("latest" in t && v == latest.value)
    ensures r.Ok? ==> forall v :: v in r.value ==> exists u :: u in t && t[u] == r.value[v]
  {
    if "latest" !in t then Ok(t)
    else if latest.Err? then Err(latest.error)
    else
      var r := t[latest.value := t["latest"]] - {"latest"};
      assert forall v :: v in r ==> exists u :: u in t && t[u] == r[v] by {
        forall v | v in r ensures exists u :: u in t && t[u] == r[v] {
          if v == latest.value {
            assert t["latest"] == r[v];
          } else {
            assert t[v] == r[v];
          }
        }
      }
      Ok(r)
  }

  /** How `Generate` resolves the aliases of the version table: `local` is
      renamed to the empty version (the build under test); `latest` is
      renamed to the newest release, as found by the resolver whose outcome
      is `latest`, and a failing resolver fails the whole generation. The
      resolver is consulted only when the table holds `latest`. A resolved
      name that is already in the table takes the weight of `latest`. */
  function ResolveAliases(table: map<string, nat>, latest: Result<string, string>): (r: Result<map<string, nat>, string>)
    ensures r.Err? <==> "latest" in table && latest.Err?
    ensures r.Err? ==> r.error == latest.error
    ensures r.Ok? ==> "latest" !in r.value
    ensures r.Ok? && "local" in r.value ==> "latest" in table && latest.value == "local"
  {
    RenameLatest(RenameLocal(table), latest)
  }

  /** Resolution invents no version and no weight: every version of the
      result is one of the table, the empty version or the resolved release,
      and every weight is one the table had. */
  lemma ResolveAliasesOrigin(table: map<string, nat>, latest: Result<string, string>)
    requires ResolveAliases(table, latest).Ok?
    ensures forall v :: v in ResolveAliases(table, latest).value ==>
              v in table || v == "" || ("latest" in table && v == latest.value)
    ensures forall v :: v in ResolveAliases(table, latest).value ==>
              exists u :: u in table && table[u] == ResolveAliases(table, latest).value[v]
  {
    var t := RenameLocal(table);
    var r := RenameLatest(t, latest).value;
    forall v | v in r ensures exists u :: u in table && table[u] == r[v] {
      var w :| w in t && t[w] == r[v];
      var u :| u in table && table[u] == t[w];
    }
  }

  /** Where the weights go: `local`'s weight to the empty version (unless
      the resolved release is the empty version itself), `latest`'s weight to
      the resolved release, and every other version keeps its own. */
  lemma ResolveAliasesMoves(table: map<string, nat>, latest: Result<string, string>)
    requires ResolveAliases(table, latest).Ok?
    ensures "local" in table && ("latest" !in table || latest.value != "") ==>
              "" in ResolveAliases(table, latest).value && ResolveAliases(table, latest).value[""] == table["local"]
    ensures "latest" in table && latest.value != "latest" ==>
              latest.value in ResolveAliases(table, latest).value
              && ResolveAliases(table, latest).value[latest.value] == table["latest"]
    ensures forall v :: (v in table && v != "local" && v != "latest" && (v != "" || "local" !in table)
              && ("latest" !in table || v != latest.value)) ==>
              v in ResolveAliases(table, latest).value && ResolveAliases(table, latest).value[v] == table[v]
  {
    var t := RenameLocal(table);
    var r := RenameLatest(t, latest);
    assert ResolveAliases(table, latest) == r;
    if "latest" in table {
      assert "latest" in t;
    }
  }

  /** Some version of a non-empty table. */
  lemma SomeKey(m: map<string, nat>) returns (k: string)
    requires |m| >= 1
    ensures k in m
  {
    assert m.Keys != {};
    k :| k in m.Keys;
  }

  /** A table holding some version is non-empty. */
  lemma KeyCount(m: map<string, nat>, k: string)
    requires k in m
    ensures |m| >= 1
  {
    assert |m.Keys| >= 1;
  }

  /** A table with at least one entry keeps one once its aliases are
      resolved, unless the resolver names the alias `latest` itself. */
  lemma ResolveAliasesNonEmpty(table: map<string, nat>, latest: Result<string, string>)
    requires |table| >= 1 && ResolveAliases(table, latest).Ok?
    requires "latest" in table ==> latest.value != "latest"
    ensures |ResolveAliases(table, latest).value| >= 1
  {
    ResolveAliasesMoves(table, latest);
    MovedNonEmpty(table, latest, ResolveAliases(table, latest).value);
  }

  /** The counting step of `ResolveAliasesNonEmpty`, for any table `r`
      that receives the weights as resolution moves them. */
  lemma MovedNonEmpty(table: map<string, nat>, latest: Result<string, string>, r: map<string, nat>)
    requires |table| >= 1
    requires "latest" in table ==> latest.Ok? && latest.value != "latest"
    requires "local" in table && ("latest" !in table || latest.value != "") ==> "" in r
    requires "latest" in table && latest.value != "latest" ==> latest.value in r
    requires forall v :: (v in table && v != "local" && v != "latest" && (v != "" || "local" !in table)
               && ("latest" !in table || v != latest.value)) ==> v in r
    ensures |r| >= 1
  {
    var u := SomeKey(table);
    if "latest" in table {
      KeyCount(r, latest.value);
    } else if u == "local" || (u == "" && "local" in table) {
      KeyCount(r, "");
    } else {
      KeyCount(r, u);
    }
  }


}
