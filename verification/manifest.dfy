/** The data model of a generated testnet: nodes, manifests, the option
    combination one manifest is generated from, and the fixed option lists the
    generator draws from (test/e2e/generator/generate.go, lines 19-58). */
module Manifests {
  import opened Results
  import opened Text

  datatype Mode = Seed | Validator | Full | Light

  /** The role string of a mode, also the prefix of the node names of that role. */
  function ModeName(m: Mode): string
  {
    match m
    case Seed => "seed"
    case Validator => "validator"
    case Full => "full"
    case Light => "light"
  }

  /** How a node stores blocks and state. `persistInterval` is optional: when
      absent the node persists every block, when present and 0 it never
      persists. A `snapshotInterval` of 0 disables snapshots and a
      `retainBlocks` of 0 keeps every block. */
  datatype Storage = Storage(persistInterval: Option<nat>, snapshotInterval: nat, retainBlocks: nat)

  datatype Node = Node(
    version: string,
    mode: Mode,
    startAt: nat,
    database: string,
    privvalProtocol: string,
    blockSync: string,
    mempool: string,
    stateSync: bool,
    storage: Storage,
    perturb: seq<string>,
    seeds: seq<string>,
    persistentPeers: seq<string>)

  /** One testnet. `validators` is the genesis validator set and
      `validatorUpdates` maps a decimal height to the validator powers that
      take effect there; the delays are in milliseconds. The node table is
      kept as a list of uniquely named entries in generation order; `ToMap`
      gives the map from names to nodes. */
  datatype Manifest = Manifest(
    ipv6: bool,
    abciProtocol: string,
    initialHeight: nat,
    initialState: map<string, string>,
    validators: map<string, nat>,
    validatorUpdates: map<string, map<string, nat>>,
    evidence: nat,
    prepareProposalDelayMs: nat,
    processProposalDelayMs: nat,
    checkTxDelayMs: nat,
    nodes: seq<Entry>)

  /** One combination of the option axes. */
  datatype Options = Options(
    topology: string,
    initialHeight: nat,
    initialState: map<string, string>,
    validators: string)

  /** The number of nodes of each role in one testnet. */
  datatype Sizes = Sizes(seeds: nat, lightClients: nat, validators: nat, fulls: nat)

  /** The evidence age of the e2e package, which is not part of this model. */
  const EvidenceAgeHeight: nat := 7

  const Databases: seq<string> := ["goleveldb", "cleveldb", "rocksdb", "boltdb", "badgerdb"]
  const ABCIProtocols: seq<string> := ["unix", "tcp", "builtin", "builtin_unsync"]
  const PrivvalProtocols: seq<string> := ["file", "unix", "tcp"]
  const BlockSyncs: seq<string> := ["v0"]
  const StateSyncs: seq<bool> := [false, true]
  const Mempools: seq<string> := ["v0", "v1"]
  const PersistIntervals: seq<nat> := [0, 1, 5]
  const SnapshotIntervals: seq<nat> := [0, 3]
  const RetainBlockChoices: seq<nat> := [0, 2 * EvidenceAgeHeight, 4 * EvidenceAgeHeight]
  const EvidenceChoices: seq<nat> := [0, 1, 10]
  const ABCIDelays: seq<string> := ["none", "small", "large"]
  const Perturbations: seq<string> := ["disconnect", "pause", "kill", "restart"]

  /** The version table used when no weighted version specification is given:
      only the local build. */
  const DefaultVersions: map<string, nat> := map["" := 2]

  /** A node that keeps every block and takes state-sync snapshots every 3 blocks. */
  predicate IsArchive(st: Storage)
  {
    st.retainBlocks == 0 && st.snapshotInterval == 3
  }

  /** The storage settings never prune what was not persisted, and never prune
      below the persist or snapshot interval. */
  predicate RetentionConsistent(st: Storage)
  {
    && !(st.persistInterval == Some(0) && st.retainBlocks > 0)
    && (st.retainBlocks > 0 ==>
          && (st.persistInterval.Some? ==> st.retainBlocks >= st.persistInterval.value)
          && st.retainBlocks >= st.snapshotInterval)
  }

  /** What every generated node satisfies, whatever the draws. */
  predicate WellFormed(n: Node, versions: seq<string>)
  {
    && n.version in versions
    && n.database in Databases
    && (n.stateSync ==> n.startAt > 0)
    && RetentionConsistent(n.storage)
  }

  /** Every field except the peer lists agrees. */
  predicate SameConfig(a: Node, b: Node)
  {
    a.(seeds := [], persistentPeers := []) == b.(seeds := [], persistentPeers := [])
  }

  /** Nodes with the same configuration agree on every setting but the
      discovery lists, so one is well formed exactly when the other is. */
  lemma SameConfigFields(x: Node, y: Node, versions: seq<string>)
    requires SameConfig(x, y)
    ensures x.mode == y.mode && x.startAt == y.startAt && x.storage == y.storage
    ensures WellFormed(x, versions) <==> WellFormed(y, versions)
  {
    var x', y' := x.(seeds := [], persistentPeers := []), y.(seeds := [], persistentPeers := []);
    assert x'.mode == y'.mode && x'.startAt == y'.startAt && x'.storage == y'.storage;
    assert x'.version == y'.version && x'.database == y'.database && x'.stateSync == y'.stateSync;
  }

  /** `fmt.Sprintf("<role>%02d", i)`. */
  function Name(m: Mode, i: nat): string
  {
    ModeName(m) + Pad2(i)
  }

  /** The role a node name belongs to, read from its first letter. */
  function ModeOf(name: string): Option<Mode>
  {
    if |name| == 0 then None
    else if name[0] == 's' then Some(Seed)
    else if name[0] == 'v' then Some(Validator)
    else if name[0] == 'f' then Some(Full)
    else if name[0] == 'l' then Some(Light)
    else None
  }

  /** The number of a node name: the digits after its role prefix. */
  function IndexOf(name: string): nat
  {
    match ModeOf(name)
    case None => 0
    case Some(m) =>
      var p := ModeName(m);
      if |p| <= |name| && AllDigits(name[|p|..]) then DecimalValue(name[|p|..]) else 0
  }

  /** Node names are unique: the role and the number can be read back. */
  lemma NameInverse(m: Mode, i: nat)
    ensures ModeOf(Name(m, i)) == Some(m) && IndexOf(Name(m, i)) == i
  {
    var p := ModeName(m);
    assert Name(m, i)[0] == p[0];
    assert Name(m, i)[|p|..] == Pad2(i);
    Pad2RoundTrip(i);
  }

  lemma NamesInverse()
    ensures forall m, i :: ModeOf(Name(m, i)) == Some(m) && IndexOf(Name(m, i)) == i
  {
    forall m, i ensures ModeOf(Name(m, i)) == Some(m) && IndexOf(Name(m, i)) == i {
      NameInverse(m, i);
    }
  }

  /** The names of the nodes `1..n` of a role. */
  function NameSet(m: Mode, n: nat): set<string>
  {
    set i | 1 <= i <= n :: Name(m, i)
  }

  lemma NameSetStep(m: Mode, n: nat)
    requires n >= 1
    ensures NameSet(m, n) == NameSet(m, n - 1) + {Name(m, n)}
    ensures Name(m, n) !in NameSet(m, n - 1)
  {
    NamesInverse();
  }

  lemma NameSetMember(m: Mode, n: nat, name: string)
    requires name in NameSet(m, n)
    ensures ModeOf(name) == Some(m) && 1 <= IndexOf(name) <= n && name == Name(m, IndexOf(name))
  {
    NamesInverse();
  }

  /** Distinct numbers give distinct names. */
  lemma NamesInjective(m: Mode)
    ensures forall i, j :: Name(m, i) == Name(m, j) ==> i == j
  {
    forall i, j | Name(m, i) == Name(m, j) ensures i == j {
      NameInverse(m, i);
      NameInverse(m, j);
    }
  }

  /** The names of the nodes `1..n` of a role, in generation order. */
  function NameList(m: Mode, n: nat): (r: seq<string>)
    ensures |r| == n
    ensures forall i :: 0 <= i < n ==> r[i] == Name(m, i + 1)
  {
    seq(n, (i: nat) => Name(m, i + 1))
  }

  /** A named node: one entry of a manifest's node table. */
  datatype Entry = Entry(name: string, node: Node)

  /** The nodes of a role under their generated names: `nodes[j]` is node `j + 1`. */
  function Entries(m: Mode, nodes: seq<Node>): (r: seq<Entry>)
    ensures |r| == |nodes|
    ensures forall j :: 0 <= j < |nodes| ==> r[j] == Entry(Name(m, j + 1), nodes[j])
  {
    seq(|nodes|, (j: nat) requires j < |nodes| => Entry(Name(m, j + 1), nodes[j]))
  }

  function NamesOf(es: seq<Entry>): (r: seq<string>)
    ensures |r| == |es|
    ensures forall j :: 0 <= j < |es| ==> r[j] == es[j].name
  {
    seq(|es|, (j: nat) requires j < |es| => es[j].name)
  }

  predicate UniqueNames(es: seq<Entry>)
  {
    forall i, j :: 0 <= i < j < |es| ==> es[i].name != es[j].name
  }

  lemma UniqueTail(es: seq<Entry>)
    requires |es| > 0 && UniqueNames(es)
    ensures UniqueNames(es[1..])
    ensures forall x :: x in es[1..] ==> x.name != es[0].name
  {
    forall i, j | 0 <= i < j < |es| - 1 ensures es[1..][i].name != es[1..][j].name {
      assert es[1..][i] == es[i + 1] && es[1..][j] == es[j + 1];
    }
    forall x | x in es[1..] ensures x.name != es[0].name {
      var k :| 0 <= k < |es| - 1 && es[1..][k] == x;
      assert es[k + 1] == x;
    }
  }

  /** The names of a list of entries, as a set. */
  function NameSetOf(es: seq<Entry>): set<string>
  {
    set e | e in es :: e.name
  }

  /** The name list and the name set of a list of entries hold the same names. */
  lemma NamesOfSet(es: seq<Entry>)
    ensures forall x :: x in NamesOf(es) <==> x in NameSetOf(es)
  {
    forall x ensures x in NamesOf(es) <==> x in NameSetOf(es) {
      if x in NamesOf(es) {
        var j :| 0 <= j < |es| && NamesOf(es)[j] == x;
        assert es[j] in es;
      }
      if x in NameSetOf(es) {
        var e :| e in es && e.name == x;
        var j :| 0 <= j < |es| && es[j] == e;
        assert NamesOf(es)[j] == x;
      }
    }
  }

  /** The node table: each entry's node under its name. */
  function ToMap(es: seq<Entry>): (r: map<string, Node>)
    requires UniqueNames(es)
    ensures r.Keys == NameSetOf(es)
    ensures forall j :: 0 <= j < |es| ==> r[es[j].name] == es[j].node
  {
    if |es| == 0 then map[]
    else
      var init := es[..|es| - 1];
      var last := es[|es| - 1];
      assert UniqueNames(init);
      assert forall e :: e in es <==> e in init || e == last;
      ToMap(init)[last.name := last.node]
  }
}
