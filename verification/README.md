# E2E testnet generator, modelled in Dafny

This project models the core of the end-to-end testnet generator
(`test/e2e/generator/generate.go`). The generator turns an option matrix and
a pseudo-random stream into testnet manifests. One manifest holds:

- manifest-wide settings: IPv6, ABCI protocol, evidence and ABCI delays;
- the node population of a topology: seeds, validators, full nodes and light
  clients;
- the genesis validator set and the validator-set updates of late joiners;
- the peer-discovery wiring between the nodes.

Before generating, it builds the node-version table. The table comes from a
weighted `version:weight` specification. Two aliases are resolved: `local`,
the build under test, and `latest`, the newest release tag within the caret
range of the current version.

Modules, in dependency order:

| file | module | what it holds |
|---|---|---|
| results.dfy | `Results` | `Option` and `Result` |
| text.dfy | `Text` | `TrimSpace`, `Split`/`Join`, `Atoi`, decimal rendering, `%02d`, prefixes, string order |
| lists.dfy | `Lists` | distinctness, sub-lists, filtering |
| draws.dfy | `Draws` | the random stream: `Intn`, coins, uniform picks, set choices |
| manifest.dfy | `Manifests` | nodes, manifests, options, the option lists, node names |
| node.dfy | `NodeGen` | `generateNode`, `generateLightNode`, the storage repair |
| topology.dfy | `Topology` | sizes, quorum, seeds, validators and their sets, full nodes, light clients |
| wiring.dfy | `Wiring` | seed mesh, the (start height, name) order, peer wiring |
| assembly.dfy | `Assembly` | the whole node table and the guarantees it gives |
| testnet.dfy | `Testnet` | `generateTestnet` |
| versions.dfy | `Versions` | `parseWeightedVersions` and alias resolution |
| release.dfy | `Releases` | `findLatestReleaseTag` |
| generate.dfy | `Generation` | `Generate`, the option matrix |

Randomness is an explicit stream of raw draws (`Draws.Stream`). Every choice
consumes draws and returns the rest of the stream, so a property proved for
every stream holds for every seed of the generator. The node table is a list
of uniquely named entries in generation order. `Manifests.ToMap` gives the
map from names to nodes.

## Model

Every source cell cites `test/e2e/generator/generate.go`.

| member | source | states |
|---|---|---|
| Draws.Pick | test/e2e/generator/generate.go:34-51 | a uniform choice yields an element of its option list and consumes one draw |
| Draws.SubList | test/e2e/generator/generate.go:52-57 | a set choice keeps some of the options, in order; it is duplicate-free when the options are |
| Draws.SubListReachesAll | test/e2e/generator/generate.go:235-237 | every sub-list of the options is the outcome of some stream, so no choice of seeds or peers is excluded |
| Manifests.NameInverse | test/e2e/generator/generate.go:148-149 | the role and the number of a `%02d` node name can be read back from it |
| Manifests.NamesInjective | test/e2e/generator/generate.go:163 | different numbers of one role give different node names |
| Manifests.ToMap | test/e2e/generator/generate.go:116 | the node map has exactly the table's names as keys, each mapped to its node |
| NodeGen.Reconcile | test/e2e/generator/generate.go:274-300 | forced archive nodes keep every block and snapshot every 3 blocks; the repaired storage never prunes unpersisted state, nor below the persist or snapshot interval; retention only grows; an already consistent setting is returned untouched |
| NodeGen.ReconcileIdempotent | test/e2e/generator/generate.go:274-300 | repairing a repaired setting changes nothing and draws nothing |
| NodeGen.GenerateNode | test/e2e/generator/generate.go:256-303 | every setting is from its option list; state sync only for nodes that start late; the storage is consistent; forced archive is honoured; seeds and peers are empty |
| NodeGen.GenerateLightNode | test/e2e/generator/generate.go:305-314 | a light node never persists, keeps every block, and takes exactly the providers as peers |
| Topology.DrawSizes | test/e2e/generator/generate.go:130-144 | `single` is 1 validator and `quad` is 4; `large` gives seeds ≤ 1, light clients ≤ 2, validators in 4..7, fulls ≤ 3; any other topology is an error |
| Topology.QuorumBounds | test/e2e/generator/generate.go:156 | the quorum `n*2/3+1` is more than two thirds of the validators and at most their number |
| Topology.AddSeeds | test/e2e/generator/generate.go:146-150 | n well-formed seeds, all starting at height 0 |
| Topology.AddValidators | test/e2e/generator/generate.go:152-174 | the first `q` validators start at genesis; later ones start at `IH+5, IH+10, …`; validators 1 and 2 are archive nodes; every power is in [30, 100]; the cursor ends at `IH+5+5*(n-q)` |
| Topology.UpdateKeyInjective | test/e2e/generator/generate.go:170 | two delayed validators with the same update key are the same validator |
| Topology.ZeroNotUpdateKey | test/e2e/generator/generate.go:170 | no delayed validator's update uses the InitChain key "0" |
| Topology.GenesisOf | test/e2e/generator/generate.go:167-168 | the genesis set holds exactly validators `1..q`, each with its drawn power |
| Topology.UpdatesOf | test/e2e/generator/generate.go:169-173 | one update per delayed validator, keyed by its start height + 5, holding just that validator and its power |
| Topology.AddFulls | test/e2e/generator/generate.go:186-195 | full nodes start at genesis or on the shared cursor; delayed ones start at strictly increasing heights in generation order |
| Topology.AddLights | test/e2e/generator/generate.go:241-247 | light client `i` starts at `IH+5+5i`, never persists, and takes the providers as peers |
| Topology.ApplyValidatorsOption | test/e2e/generator/generate.go:176-184 | `genesis` keeps the sets; `initchain` moves the genesis set to key "0" and empties it, leaving the other updates alone; any other option is an error |
| Testnet.DelaysOf | test/e2e/generator/generate.go:119-128 | prepare and process delays are equal; only `large` delays CheckTx; only `small` and `large` delay proposals |
| Testnet.UpdateSet | test/e2e/generator/generate.go:167-173 | every delayed validator has its own update at its key, with a power in [30, 100], and none at "0" |
| Testnet.ValidatorSetsFrom | test/e2e/generator/generate.go:176-184 | under both options the genesis powers and the delayed updates sit where the option puts them |
| Testnet.DelayedInOrderFrom | test/e2e/generator/generate.go:155-195 | late-joining validators and full nodes, in generation order, start at strictly increasing heights |
| Testnet.Populate | test/e2e/generator/generate.go:146-247 | fails exactly on an unknown validators option; otherwise the validator sets and the whole node table satisfy every placement and wiring guarantee |
| Testnet.GenerateTestnet | test/e2e/generator/generate.go:107-250 | fails exactly on an unknown topology or validators option; otherwise the manifest carries the combination's initial height and state, draws from the option lists, and has a table meeting every guarantee |
| Wiring.SeedNames | test/e2e/generator/generate.go:200-212 | the seed names are exactly the names of the seed nodes |
| Wiring.ProviderNames | test/e2e/generator/generate.go:205-209 | the light providers are exactly the non-seed nodes that start at 0 or the initial height and keep every block |
| Wiring.MeshSeeds | test/e2e/generator/generate.go:214-220 | each seed gets every other seed and never itself; nothing else changes |
| Wiring.EarlierTotal | test/e2e/generator/generate.go:222-232 | the (start height, name) order puts any two differently named nodes one way round, never both |
| Wiring.SortByStart | test/e2e/generator/generate.go:222-232 | the sorted peer list holds the same nodes, strictly ordered |
| Wiring.InsertSorted | test/e2e/generator/generate.go:222-232 | inserting a freshly named node keeps the list sorted and its names unique |
| Wiring.WirePeers | test/e2e/generator/generate.go:233-239 | each non-seed node gets some seeds or some earlier peers, never both; the first node uses seeds whenever there are any |
| Assembly.WiredEarlier | test/e2e/generator/generate.go:233-239 | every persistent peer of a wired node is a node strictly earlier in (start height, name) order |
| Assembly.MeshOk | test/e2e/generator/generate.go:214-220 | in the whole table every seed lists exactly the other seeds, and no peers |
| Assembly.Assemble | test/e2e/generator/generate.go:197-247 | the table names every node once; seeds are fully meshed; non-seeds use seeds or earlier peers; light clients list exactly the providers |
| Versions.TableOfLastWins | test/e2e/generator/generate.go:338 | the table holds every listed version, with the weight of its last entry |
| Versions.ParseEntry | test/e2e/generator/generate.go:326-338 | a parsed entry has a trimmed, colon-free version and a weight in [1, 2^63-1]; every failure is one of the three errors; which one is fixed by the lemmas below |
| Versions.ParseEntryCases | test/e2e/generator/generate.go:326-338 | an entry of exactly two parts fails with the weight error naming its raw weight when the weight is no integer, fails as too small when the integer is below 1, and otherwise yields its trimmed version with that weight |
| Versions.ParseEntryText | test/e2e/generator/generate.go:326-338 | for the entry `v:t`, `strconv.Atoi` on `t` decides: no integer gives the weight error naming `t`, an integer below 1 (zero or negative) is too small, any other integer becomes the weight of `v` |
| Versions.ParseEntryNotNumber | test/e2e/generator/generate.go:331-334 | a weight that does not start with a digit or a sign, such as `abc` or nothing at all, is rejected with the weight error naming it |
| Versions.ParseEntryNegative | test/e2e/generator/generate.go:335-337 | a negative weight `v:-n`, which parses as an integer, is rejected as too small |
| Versions.ParseEntryRender | test/e2e/generator/generate.go:326-338 | a rendered `version:weight` entry parses back to itself |
| Versions.ParseEntryOneColon | test/e2e/generator/generate.go:326-329 | an entry without exactly one colon is a combination error that names it |
| Versions.ParseEntryZeroWeight | test/e2e/generator/generate.go:335-337 | weight 0 is rejected |
| Versions.Collect | test/e2e/generator/generate.go:325-340 | the loop succeeds exactly when every entry parses, and otherwise returns the first failure |
| Versions.CollectTable | test/e2e/generator/generate.go:325-340 | on success the loop builds the table of the entries, in order |
| Versions.ParseWeightedVersions | test/e2e/generator/generate.go:322-341 | a parsed table is non-empty and every entry is well formed |
| Versions.ParseWeightedVersionsEntries | test/e2e/generator/generate.go:322-341 | the result is the table of the entries when all parse, and the first failure otherwise |
| Versions.ParseRendered | test/e2e/generator/generate.go:320-341 | a comma-joined list of rendered entries parses to its table, last entry winning |
| Versions.RenameLocal | test/e2e/generator/generate.go:74-77 | `local`'s weight moves to the empty version; everything else stays |
| Versions.RenameLatest | test/e2e/generator/generate.go:78-85 | `latest`'s weight moves to the resolved release; a resolver failure fails, and only when `latest` is present |
| Versions.ResolveAliases | test/e2e/generator/generate.go:74-85 | fails exactly when `latest` is present and the resolver fails; `latest` is always gone; `local` stays only if the release is named `local` |
| Versions.ResolveAliasesMoves | test/e2e/generator/generate.go:74-85 | where each weight goes: `local` to "", `latest` to the release, and the other versions keep their own |
| Versions.ResolveAliasesOrigin | test/e2e/generator/generate.go:74-85 | resolution invents no version and no weight |
| Versions.ResolveAliasesNonEmpty | test/e2e/generator/generate.go:74-85 | a non-empty table stays non-empty unless the release is named `latest` |
| Releases.Classify | test/e2e/generator/generate.go:384-397 | a tag is unparsable exactly when it has a "v" and does not parse, and a candidate exactly when it is a "v" release in the caret range |
| Releases.Scan | test/e2e/generator/generate.go:383-401 | the loop fails exactly when some tag is unparsable, and names the first one |
| Releases.ScanNewest | test/e2e/generator/generate.go:383-401 | without unparsable tags, the loop finds nothing exactly when there is no candidate; otherwise it finds the first candidate of the highest version |
| Releases.ScanSkips | test/e2e/generator/generate.go:384-397 | a passed-over tag anywhere in the list does not change the outcome |
| Releases.RenderStartsWithDigit | test/e2e/generator/generate.go:409-413 | a rendered version never starts with "v", so the prefix is always added |
| Releases.FindLatestReleaseTag | test/e2e/generator/generate.go:369-414 | an unparsable base version is an error; a result is "" or a "v"-prefixed rendering |
| Releases.FindLatestFails | test/e2e/generator/generate.go:384-390 | with a parsable base, the search fails exactly when a "v" tag does not parse, and names the first such tag |
| Releases.FindLatestNewest | test/e2e/generator/generate.go:382-413 | "" exactly when no tag is a candidate; otherwise "v" + the rendering of the first candidate with the highest version |
| Releases.FindLatestIgnores | test/e2e/generator/generate.go:384-397 | removing a tag without "v", a pre-release, or a release outside the range changes nothing |
| Generation.CombinationsValid | test/e2e/generator/generate.go:20-30 | every combination of the global option matrix is accepted by `generateTestnet` |
| Generation.CombinationsCover | test/e2e/generator/generate.go:20-30 | every value of every option axis occurs in some combination |
| Generation.LatestRelease | test/e2e/generator/generate.go:343-367 | a tag-listing failure is returned; a result is "" or "v"-prefixed |
| Generation.VersionTable | test/e2e/generator/generate.go:67-86 | without `-m` the table is the default; a parse error propagates; otherwise the table is the parsed one with `local` and `latest` resolved against the release lookup, which fails exactly when `latest` is listed and the lookup fails; a table is non-empty, alias-free, with positive weights |
| Generation.AliasesGone | test/e2e/generator/generate.go:74-85 | resolving against a release name leaves a non-empty, alias-free table with positive weights |
| Generation.KeyList | test/e2e/generator/generate.go:260 | the versions nodes choose from are the table's keys, each listed once, in some order |
| Generation.GenerateAll | test/e2e/generator/generate.go:95-103 | succeeds exactly when every combination is valid; then one manifest per combination, each meeting the testnet guarantees |
| Generation.Generate | test/e2e/generator/generate.go:67-104 | a table error is returned as is; otherwise it succeeds exactly when every combination is valid, with the table's keys as the node versions |
| Generation.GenerateGlobal | test/e2e/generator/generate.go:95-103 | over the global combinations, in any order, generation fails exactly when the version table does, with the table's error, and otherwise yields one testnet per combination |

## Left out

- `weightedChoice`, `uniformChoice`, `uniformSetChoice`, `probSetChoice` and
  `combinations`: random.go is not part of this model.
  - A uniform choice reads one draw.
  - A set choice is one coin per option. The 0.1 perturbation probabilities
    and the `Float64() >= 0.5` / `> 0.5` comparisons are all coins.
  - Node versions are picked uniformly from the table's keys (`Generation.KeyList`).
    The weights are parsed and checked but do not bias the pick.
  - A set choice may be empty.
- Draws.SubList: keeps the chosen options in their given order, while the
  real set choice returns its subset in a random order. Every stated property
  is about membership, so none depends on that order.
- Generation.Generate: the option combinations are a parameter. `Generation.TestnetCombinations`
  is the Cartesian product in one fixed order, because the enumeration order of
  `combinations` is not part of this model.
- Map iteration order:
  - Go ranges over `manifest.Nodes` in random order. The model collects seeds,
    validators and full nodes in number order.
  - The stated properties are about membership and the (start height, name)
    order, which do not depend on that collection order.
  - Which draws feed which node's choice does depend on it.
- Printing the version table (lines 87-94): output only.
- Opening the git repository and listing its tags (lines 346-366): I/O. The
  listing is the parameter `tags`, either the tags or the error.
- The current core version (`version.TMCoreSemVer`) is a parameter.
- `semver.NewVersion` and the caret constraint's `Check` are parameters.
  `semver.NewConstraint("^ X.Y")` on two decimal numbers never fails, so its
  error branch (lines 378-381) is not modelled.
- Releases.Newer: compares only (major, minor, patch), not the library's
  pre-release ordering. Pre-releases are skipped before any comparison.
- Error texts:
  - The underlying error wrapped after the messages of lines 333, 372 and 389
    is dropped.
  - Go's `%q` quoting (lines 143 and 183) is written as plain double quotes,
    without escaping.
- On an error, `generateTestnet` also returns the partly built manifest. The
  model returns the error alone.
- Integer widths:
  - Heights, intervals and weights are unbounded naturals, so `int64` overflow
    of the height cursor is not modelled.
  - The weight parser keeps `strconv.Atoi`'s 64-bit range.
- Durations are whole milliseconds.
- The `e2e` package's `EvidenceAgeHeight` is not part of this model. It is
  fixed at 7, and no stated property depends on its value.
- `generateNode`'s `initialHeight` parameter is unused in the source and is
  dropped.
