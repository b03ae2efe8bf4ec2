/** One testnet (`generateTestnet`, test/e2e/generator/generate.go, lines
    106-250): the manifest-wide draws, the node population of the topology,
    the validator sets, and the assembled node table. */
module Testnet {
  import opened Results
  import opened Text
  import opened Draws
  import opened Manifests
  import opened NodeGen
  import opened Topology
  import opened Wiring
  import opened Assembly

  /** The proposal and CheckTx delays of an ABCI delay tier, in milliseconds. */
  datatype Delays = Delays(prepareProposal: nat, processProposal: nat, checkTx: nat)

  /** The delay tiers: `small` delays proposals, `large` delays proposals
      more and CheckTx as well; anything else delays nothing. */
  function DelaysOf(tier: string): (r: Delays)
    ensures r.prepareProposal == r.processProposal
    ensures r.checkTx > 0 <==> tier == "large"
    ensures r.prepareProposal > 0 <==> tier in {"small", "large"}
  {
    match tier
    case "small" => Delays(100, 100, 0)
    case "large" => Delays(200, 200, 20)
    case _ => Delays(0, 0, 0)
  }

  /** The genesis validator set holds validators `1..q`, each with a power in [30, 100]. */
  ghost predicate GenesisPowers(vs: map<string, nat>, q: nat)
  {
    vs.Keys == NameSet(Validator, q) && forall k :: k in vs ==> 30 <= vs[k] <= 100
  }

  /** Each delayed validator `i` has its own update, 5 blocks after its start,
      adding just that validator with a power in [30, 100]. */
  ghost predicate DelayedUpdates(ups: map<string, map<string, nat>>, initialHeight: nat, q: nat, n: nat)
  {
    forall i :: q < i <= n ==>
      var k := UpdateKey(ValidatorStart(initialHeight, q, i));
      k in ups && ups[k].Keys == {Name(Validator, i)} && 30 <= ups[k][Name(Validator, i)] <= 100
  }

  /** The genesis set built from the drawn powers. */
  lemma GenesisSet(powers: seq<nat>, q: nat)
    requires q <= |powers|
    requires forall j :: 0 <= j < |powers| ==> 30 <= powers[j] <= 100
    ensures GenesisPowers(GenesisOf(powers, q), q)
  {
    var g := GenesisOf(powers, q);
    assert |powers| - Delayed(|powers|, q) == q;
    forall k | k in g ensures 30 <= g[k] <= 100 {
      var j :| 1 <= j <= q && k == Name(Validator, j);
    }
  }

  /** The updates built from the drawn powers, none of them at "0". */
  lemma UpdateSet(powers: seq<nat>, initialHeight: nat, q: nat)
    requires forall j :: 0 <= j < |powers| ==> 30 <= powers[j] <= 100
    ensures DelayedUpdates(UpdatesOf(powers, initialHeight, q), initialHeight, q, |powers|)
    ensures "0" !in UpdatesOf(powers, initialHeight, q)
  {
    var u := UpdatesOf(powers, initialHeight, q);
    forall i | q < i <= |powers|
      ensures UpdateKey(ValidatorStart(initialHeight, q, i)) in u
      ensures u[UpdateKey(ValidatorStart(initialHeight, q, i))].Keys == {Name(Validator, i)}
      ensures 30 <= u[UpdateKey(ValidatorStart(initialHeight, q, i))][Name(Validator, i)] <= 100
    {
      assert UpdateKey(ValidatorStart(initialHeight, q, i)) in UpdateKeys(initialHeight, q, |powers|);
    }
    ZeroNotUpdateKey(initialHeight, q, |powers|);
  }

  /** The node of role `m` found in a table under its name is the generated
      node of the number its name carries, up to its discovery lists. */
  lemma NumberedEntry(nodes: seq<Entry>, m: Mode, orig: seq<Node>, e: Entry) returns (i: nat)
    requires UniqueNames(nodes) && RoleNamed(nodes) && Keeps(nodes, m, orig)
    requires forall x :: x in NameSetOf(nodes) && ModeOf(x) == Some(m) ==> x in NameSet(m, |orig|)
    requires e in nodes && e.node.mode == m
    ensures 1 <= i <= |orig| && IndexOf(e.name) == i && SameConfig(e.node, orig[i - 1])
  {
    assert e.name in NameSetOf(nodes);
    NameSetMember(m, |orig|, e.name);
    i := IndexOf(e.name);
    var g := Entries(m, orig)[i - 1];
    assert g in Entries(m, orig);
    var f :| f in nodes && f.name == g.name && SameConfig(f.node, g.node);
    var p :| 0 <= p < |nodes| && nodes[p] == f;
    var r :| 0 <= r < |nodes| && nodes[r] == e;
    assert p == r;
  }

  /** The names of a four-role table that carry role `m` are the names of that role. */
  lemma RoleNames(ns: nat, nv: nat, nf: nat, nl: nat, m: Mode, count: nat)
    requires count == (match m case Seed => ns case Validator => nv case Full => nf case Light => nl)
    ensures forall x ::
              (x in NameSet(Seed, ns) + NameSet(Validator, nv) + NameSet(Full, nf) + NameSet(Light, nl) && ModeOf(x) == Some(m))
              ==> x in NameSet(m, count)
  {
    NamesInverse();
  }

  /** The names in the table that carry role `m` are the names `1..n` of that role. */
  ghost predicate NamedUpTo(nodes: seq<Entry>, m: Mode, n: nat)
  {
    forall x :: x in NameSetOf(nodes) && ModeOf(x) == Some(m) ==> x in NameSet(m, n)
  }

  /** Seeds are well formed and start at genesis. */
  ghost predicate SeedsPlaced(nodes: seq<Entry>, versions: seq<string>)
  {
    forall e :: e in nodes && e.node.mode == Seed ==> e.node.startAt == 0 && WellFormed(e.node, versions)
  }

  /** Validator `i` (read from its name) is well formed, starts where
      `ValidatorStart` puts it, and is an archive node when it is one of the
      first two. */
  ghost predicate ValidatorsPlaced(nodes: seq<Entry>, versions: seq<string>, initialHeight: nat, q: nat)
  {
    forall e :: e in nodes && e.node.mode == Validator ==>
      && WellFormed(e.node, versions)
      && e.node.startAt == ValidatorStart(initialHeight, q, IndexOf(e.name))
      && (IndexOf(e.name) <= 2 ==> IsArchive(e.node.storage))
  }

  /** Full nodes are well formed and start at genesis or on the cursor from `next0`. */
  ghost predicate FullsPlaced(nodes: seq<Entry>, versions: seq<string>, next0: nat)
  {
    forall e :: e in nodes && e.node.mode == Full ==>
      WellFormed(e.node, versions) && (e.node.startAt == 0 || OnCursor(e.node.startAt, next0))
  }

  /** The generation order of validators and full nodes: all validators
      first, each role by number. */
  predicate GeneratedBefore(e: Entry, f: Entry)
  {
    || (e.node.mode == Validator && f.node.mode == Full)
    || (e.node.mode == f.node.mode && IndexOf(e.name) < IndexOf(f.name))
  }

  /** Nodes that join late join at strictly increasing heights in generation order. */
  ghost predicate DelayedInOrder(nodes: seq<Entry>)
  {
    forall e, f :: e in nodes && f in nodes
      && (e.node.mode == Validator || e.node.mode == Full) && (f.node.mode == Validator || f.node.mode == Full)
      && e.node.startAt > 0 && f.node.startAt > 0 && GeneratedBefore(e, f)
      ==> e.node.startAt < f.node.startAt
  }

  lemma SeedsPlacedFrom(nodes: seq<Entry>, seeds: seq<Node>, versions: seq<string>)
    requires UniqueNames(nodes) && RoleNamed(nodes) && Keeps(nodes, Seed, seeds) && NamedUpTo(nodes, Seed, |seeds|)
    requires forall j :: 0 <= j < |seeds| ==> seeds[j].startAt == 0 && WellFormed(seeds[j], versions)
    ensures SeedsPlaced(nodes, versions)
  {
    forall e | e in nodes && e.node.mode == Seed ensures e.node.startAt == 0 && WellFormed(e.node, versions) {
      var i := NumberedEntry(nodes, Seed, seeds, e);
      SameConfigFields(e.node, seeds[i - 1], versions);
    }
  }

  lemma ValidatorsPlacedFrom(nodes: seq<Entry>, vals: seq<Node>, versions: seq<string>, initialHeight: nat, q: nat)
    requires UniqueNames(nodes) && RoleNamed(nodes) && Keeps(nodes, Validator, vals) && NamedUpTo(nodes, Validator, |vals|)
    requires forall j :: 0 <= j < |vals| ==> ValidatorNode(vals[j], versions, initialHeight, q, j + 1)
    ensures ValidatorsPlaced(nodes, versions, initialHeight, q)
  {
    forall e | e in nodes && e.node.mode == Validator
      ensures WellFormed(e.node, versions)
      ensures e.node.startAt == ValidatorStart(initialHeight, q, IndexOf(e.name))
      ensures IndexOf(e.name) <= 2 ==> IsArchive(e.node.storage)
    {
      var i := NumberedEntry(nodes, Validator, vals, e);
      SameConfigFields(e.node, vals[i - 1], versions);
      assert ValidatorNode(vals[i - 1], versions, initialHeight, q, i);
    }
  }

  lemma FullsPlacedFrom(nodes: seq<Entry>, fulls: seq<Node>, versions: seq<string>, next0: nat, next: nat)
    requires UniqueNames(nodes) && RoleNamed(nodes) && Keeps(nodes, Full, fulls) && NamedUpTo(nodes, Full, |fulls|)
    requires forall j :: 0 <= j < |fulls| ==> FullNode(fulls[j], versions, next0, next)
    ensures FullsPlaced(nodes, versions, next0)
  {
    forall e | e in nodes && e.node.mode == Full
      ensures WellFormed(e.node, versions) && (e.node.startAt == 0 || OnCursor(e.node.startAt, next0))
    {
      var i := NumberedEntry(nodes, Full, fulls, e);
      SameConfigFields(e.node, fulls[i - 1], versions);
      assert FullNode(fulls[i - 1], versions, next0, next);
    }
  }

  /** A height on the cursor is at least its base. */
  lemma {:induction false} OnCursorAtLeast(h: nat, base: nat)
    requires OnCursor(h, base)
    ensures h >= base
    decreases h
  {
    if h != base {
      OnCursorAtLeast(h - 5, base);
    }
  }

  /** Delayed full nodes join in the order of their numbers. */
  lemma FullsInOrder(nodes: seq<Entry>, fulls: seq<Node>, versions: seq<string>, e: Entry, f: Entry)
    requires UniqueNames(nodes) && RoleNamed(nodes) && Keeps(nodes, Full, fulls) && NamedUpTo(nodes, Full, |fulls|)
    requires forall i, j :: 0 <= i < j < |fulls| && fulls[i].startAt > 0 && fulls[j].startAt > 0 ==>
               fulls[i].startAt < fulls[j].startAt
    requires e in nodes && f in nodes && e.node.mode == Full && f.node.mode == Full
    requires e.node.startAt > 0 && f.node.startAt > 0 && IndexOf(e.name) < IndexOf(f.name)
    ensures e.node.startAt < f.node.startAt
  {
    var i := NumberedEntry(nodes, Full, fulls, e);
    var j := NumberedEntry(nodes, Full, fulls, f);
    SameConfigFields(e.node, fulls[i - 1], versions);
    SameConfigFields(f.node, fulls[j - 1], versions);
  }

  /** Delayed validators join in the order of their numbers. */
  lemma ValidatorsInOrder(nodes: seq<Entry>, versions: seq<string>, initialHeight: nat, q: nat, e: Entry, f: Entry)
    requires ValidatorsPlaced(nodes, versions, initialHeight, q)
    requires e in nodes && f in nodes && e.node.mode == Validator && f.node.mode == Validator
    requires e.node.startAt > 0 && f.node.startAt > 0 && IndexOf(e.name) < IndexOf(f.name)
    ensures e.node.startAt < f.node.startAt
  {
    assert e.node.startAt == ValidatorStart(initialHeight, q, IndexOf(e.name));
    assert f.node.startAt == ValidatorStart(initialHeight, q, IndexOf(f.name));
  }

  /** The last delayed validator among `1..nv` starts before the full-node
      cursor, which begins right after it. */
  lemma CursorAfterValidators(initialHeight: nat, q: nat, nv: nat, i: nat, h: nat)
    requires 1 <= i <= nv && ValidatorStart(initialHeight, q, i) > 0
    requires OnCursor(h, initialHeight + 5 + 5 * Delayed(nv, q))
    ensures ValidatorStart(initialHeight, q, i) < h
  {
    OnCursorAtLeast(h, initialHeight + 5 + 5 * Delayed(nv, q));
  }

  /** A delayed validator joins before any delayed full node. */
  lemma ValidatorBeforeFull(nodes: seq<Entry>, versions: seq<string>, initialHeight: nat, q: nat, nv: nat, e: Entry, f: Entry)
    requires NamedUpTo(nodes, Validator, nv) && RoleNamed(nodes)
    requires ValidatorsPlaced(nodes, versions, initialHeight, q)
    requires FullsPlaced(nodes, versions, initialHeight + 5 + 5 * Delayed(nv, q))
    requires e in nodes && f in nodes && e.node.mode == Validator && f.node.mode == Full
    requires e.node.startAt > 0 && f.node.startAt > 0
    ensures e.node.startAt < f.node.startAt
  {
    assert e.name in NameSetOf(nodes);
    NameSetMember(Validator, nv, e.name);
    CursorAfterValidators(initialHeight, q, nv, IndexOf(e.name), f.node.startAt);
  }

  /** Late validators join before late full nodes, and each role in order. */
  lemma DelayedInOrderFrom(nodes: seq<Entry>, fulls: seq<Node>, versions: seq<string>, initialHeight: nat, q: nat, nv: nat)
    requires UniqueNames(nodes) && RoleNamed(nodes) && Keeps(nodes, Full, fulls) && NamedUpTo(nodes, Full, |fulls|)
    requires NamedUpTo(nodes, Validator, nv)
    requires forall i, j :: 0 <= i < j < |fulls| && fulls[i].startAt > 0 && fulls[j].startAt > 0 ==>
               fulls[i].startAt < fulls[j].startAt
    requires ValidatorsPlaced(nodes, versions, initialHeight, q)
    requires FullsPlaced(nodes, versions, initialHeight + 5 + 5 * Delayed(nv, q))
    ensures DelayedInOrder(nodes)
  {
    forall e, f | e in nodes && f in nodes
      && (e.node.mode == Validator || e.node.mode == Full) && (f.node.mode == Validator || f.node.mode == Full)
      && e.node.startAt > 0 && f.node.startAt > 0 && GeneratedBefore(e, f)
      ensures e.node.startAt < f.node.startAt
    {
      if e.node.mode == Validator && f.node.mode == Full {
        ValidatorBeforeFull(nodes, versions, initialHeight, q, nv, e, f);
      } else if e.node.mode == Validator {
        ValidatorsInOrder(nodes, versions, initialHeight, q, e, f);
      } else {
        FullsInOrder(nodes, fulls, versions, e, f);
      }
    }
  }

  /** The node counts a topology allows. */
  predicate SizesFor(topology: string, z: Sizes)
  {
    && (topology == "single" ==> z == Sizes(0, 0, 1, 0))
    && (topology == "quad" ==> z == Sizes(0, 0, 4, 0))
    && (topology == "large" ==> z.seeds <= 1 && z.lightClients <= 2 && 4 <= z.validators <= 7 && z.fulls <= 3)
  }

  /** What the generated node table satisfies: every node is where its role
      and number put it, and the discovery lists are wired as described. */
  ghost predicate TableOk(nodes: seq<Entry>, versions: seq<string>, initialHeight: nat, z: Sizes)
  {
    var q := Quorum(z.validators);
    && UniqueNames(nodes) && RoleNamed(nodes)
    && NameSetOf(nodes) == NameSet(Seed, z.seeds) + NameSet(Validator, z.validators) + NameSet(Full, z.fulls)
                           + NameSet(Light, z.lightClients)
    && SeedsPlaced(nodes, versions)
    && ValidatorsPlaced(nodes, versions, initialHeight, q)
    && FullsPlaced(nodes, versions, initialHeight + 5 + 5 * Delayed(z.validators, q))
    && DelayedInOrder(nodes)
    && LightsNumbered(nodes, versions, initialHeight)
    && SeedMesh(nodes) && SeedsOrPeers(nodes) && PeersEarlier(nodes) && LightPeers(nodes, initialHeight)
  }

  /** In a table of the four roles' names, each role's names are its own numbers. */
  lemma NamedRoles(nodes: seq<Entry>, ns: nat, nv: nat, nf: nat, nl: nat)
    requires NameSetOf(nodes) == NameSet(Seed, ns) + NameSet(Validator, nv) + NameSet(Full, nf) + NameSet(Light, nl)
    ensures NamedUpTo(nodes, Seed, ns) && NamedUpTo(nodes, Validator, nv) && NamedUpTo(nodes, Full, nf)
  {
    RoleNames(ns, nv, nf, nl, Seed, ns);
    RoleNames(ns, nv, nf, nl, Validator, nv);
    RoleNames(ns, nv, nf, nl, Full, nf);
  }

  /** What the role generators promise, bundled: the counts of each role,
      seeds at genesis, validators and full nodes as placed by the shared
      cursor, and powers in [30, 100]. */
  ghost predicate RolesOk(seeds: seq<Node>, vals: seq<Node>, powers: seq<nat>, fulls: seq<Node>,
                          versions: seq<string>, initialHeight: nat, z: Sizes, next: nat)
  {
    var q := Quorum(z.validators);
    && |seeds| == z.seeds && |vals| == z.validators && |powers| == z.validators && |fulls| == z.fulls
    && (forall j :: 0 <= j < |seeds| ==>
          && seeds[j].mode == Seed && seeds[j].startAt == 0 && WellFormed(seeds[j], versions)
          && seeds[j].seeds == [] && seeds[j].persistentPeers == [])
    && (forall j :: 0 <= j < |vals| ==> ValidatorNode(vals[j], versions, initialHeight, q, j + 1))
    && (forall j :: 0 <= j < |powers| ==> 30 <= powers[j] <= 100)
    && (forall j :: 0 <= j < |fulls| ==>
          FullNode(fulls[j], versions, initialHeight + 5 + 5 * Delayed(z.validators, q), next))
    && (forall i, j :: 0 <= i < j < |fulls| && fulls[i].startAt > 0 && fulls[j].startAt > 0 ==>
          fulls[i].startAt < fulls[j].startAt)
  }

  /** Seeds, validators with their powers, then full nodes on the cursor the
      validators leave. */
  method GenerateRoles(s: Stream, versions: seq<string>, initialHeight: nat, z: Sizes)
    returns (seeds: seq<Node>, vals: seq<Node>, powers: seq<nat>, fulls: seq<Node>, next: nat, rest: Stream)
    requires |versions| > 0
    ensures RolesOk(seeds, vals, powers, fulls, versions, initialHeight, z, next)
  {
    seeds, rest := AddSeeds(s, versions, z.seeds);
    var cursor;
    vals, powers, cursor, rest := AddValidators(rest, versions, initialHeight, Quorum(z.validators), z.validators);
    fulls, next, rest := AddFulls(rest, versions, cursor, z.fulls);
  }

  /** The generated roles are unwired. */
  lemma RolesFresh(seeds: seq<Node>, vals: seq<Node>, powers: seq<nat>, fulls: seq<Node>,
                   versions: seq<string>, initialHeight: nat, z: Sizes, next: nat)
    requires RolesOk(seeds, vals, powers, fulls, versions, initialHeight, z, next)
    ensures Fresh(seeds, Seed) && Fresh(vals, Validator) && Fresh(fulls, Full)
  {
    forall j | 0 <= j < |vals| ensures vals[j].mode == Validator && vals[j].seeds == [] && vals[j].persistentPeers == [] {
      assert ValidatorNode(vals[j], versions, initialHeight, Quorum(z.validators), j + 1);
    }
  }

  /** The assembled table of generated roles is as `TableOk` describes. */
  lemma TableOkFrom(nodes: seq<Entry>, seeds: seq<Node>, vals: seq<Node>, powers: seq<nat>, fulls: seq<Node>,
                    versions: seq<string>, initialHeight: nat, z: Sizes, next: nat)
    requires RolesOk(seeds, vals, powers, fulls, versions, initialHeight, z, next)
    requires UniqueNames(nodes) && RoleNamed(nodes)
    requires NameSetOf(nodes) ==
             NameSet(Seed, |seeds|) + NameSet(Validator, |vals|) + NameSet(Full, |fulls|) + NameSet(Light, z.lightClients)
    requires Keeps(nodes, Seed, seeds) && Keeps(nodes, Validator, vals) && Keeps(nodes, Full, fulls)
    requires LightsNumbered(nodes, versions, initialHeight)
    requires SeedMesh(nodes) && SeedsOrPeers(nodes) && PeersEarlier(nodes) && LightPeers(nodes, initialHeight)
    ensures TableOk(nodes, versions, initialHeight, z)
  {
    NamedRoles(nodes, |seeds|, |vals|, |fulls|, z.lightClients);
    EarlyRolesPlaced(nodes, seeds, vals, powers, fulls, versions, initialHeight, z, next);
    LateRolesPlaced(nodes, seeds, vals, powers, fulls, versions, initialHeight, z, next);
  }

  lemma EarlyRolesPlaced(nodes: seq<Entry>, seeds: seq<Node>, vals: seq<Node>, powers: seq<nat>, fulls: seq<Node>,
                         versions: seq<string>, initialHeight: nat, z: Sizes, next: nat)
    requires RolesOk(seeds, vals, powers, fulls, versions, initialHeight, z, next)
    requires UniqueNames(nodes) && RoleNamed(nodes)
    requires NamedUpTo(nodes, Seed, |seeds|) && NamedUpTo(nodes, Validator, |vals|)
    requires Keeps(nodes, Seed, seeds) && Keeps(nodes, Validator, vals)
    ensures SeedsPlaced(nodes, versions) && ValidatorsPlaced(nodes, versions, initialHeight, Quorum(z.validators))
  {
    SeedsPlacedFrom(nodes, seeds, versions);
    ValidatorsPlacedFrom(nodes, vals, versions, initialHeight, Quorum(z.validators));
  }

  lemma LateRolesPlaced(nodes: seq<Entry>, seeds: seq<Node>, vals: seq<Node>, powers: seq<nat>, fulls: seq<Node>,
                        versions: seq<string>, initialHeight: nat, z: Sizes, next: nat)
    requires RolesOk(seeds, vals, powers, fulls, versions, initialHeight, z, next)
    requires UniqueNames(nodes) && RoleNamed(nodes)
    requires NamedUpTo(nodes, Validator, |vals|) && NamedUpTo(nodes, Full, |fulls|)
    requires Keeps(nodes, Full, fulls) && ValidatorsPlaced(nodes, versions, initialHeight, Quorum(z.validators))
    ensures FullsPlaced(nodes, versions, initialHeight + 5 + 5 * Delayed(z.validators, Quorum(z.validators)))
    ensures DelayedInOrder(nodes)
  {
    var q := Quorum(z.validators);
    FullsPlacedFrom(nodes, fulls, versions, initialHeight + 5 + 5 * Delayed(|vals|, q), next);
    DelayedInOrderFrom(nodes, fulls, versions, initialHeight, q, |vals|);
  }

  /** What the validator sets of a manifest satisfy under each validators option. */
  ghost predicate ValidatorSetsOk(validators: map<string, nat>, updates: map<string, map<string, nat>>, option: string,
                                  initialHeight: nat, q: nat, n: nat)
  {
    && (option == "genesis" ==>
          GenesisPowers(validators, q) && updates.Keys == UpdateKeys(initialHeight, q, n))
    && (option == "initchain" ==>
          && validators == map[] && "0" in updates && GenesisPowers(updates["0"], q)
          && updates.Keys == UpdateKeys(initialHeight, q, n) + {"0"})
    && DelayedUpdates(updates, initialHeight, q, n)
  }

  /** The validators option applied to the sets built from the drawn powers. */
  lemma ValidatorSetsFrom(powers: seq<nat>, option: string, initialHeight: nat, q: nat)
    requires q <= |powers|
    requires forall j :: 0 <= j < |powers| ==> 30 <= powers[j] <= 100
    requires option in {"genesis", "initchain"}
    ensures var r := ApplyValidatorsOption(option, GenesisOf(powers, q), UpdatesOf(powers, initialHeight, q));
            ValidatorSetsOk(r.value.0, r.value.1, option, initialHeight, q, |powers|)
  {
    GenesisSet(powers, q);
    UpdateSet(powers, initialHeight, q);
  }

  /** The nodes and validator sets of a testnet with the given counts; fails
      exactly on an unknown validators option. */
  method Populate(s: Stream, versions: seq<string>, z: Sizes, initialHeight: nat, option: string)
    returns (r: Result<(map<string, nat>, map<string, map<string, nat>>, seq<Entry>), string>, rest: Stream)
    requires |versions| > 0 && z.validators >= 1
    ensures r.Ok? <==> option in {"genesis", "initchain"}
    ensures r.Ok? ==> ValidatorSetsOk(r.value.0, r.value.1, option, initialHeight, Quorum(z.validators), z.validators)
    ensures r.Ok? ==> TableOk(r.value.2, versions, initialHeight, z)
  {
    var seeds, vals, powers, fulls, next;
    seeds, vals, powers, fulls, next, rest := GenerateRoles(s, versions, initialHeight, z);
    var q := Quorum(z.validators);
    QuorumBounds(z.validators);
    var sets := ApplyValidatorsOption(option, GenesisOf(powers, q), UpdatesOf(powers, initialHeight, q));
    if sets.Err? {
      return Err(sets.error), rest;
    }
    ValidatorSetsFrom(powers, option, initialHeight, q);
    RolesFresh(seeds, vals, powers, fulls, versions, initialHeight, z, next);
    var nodes;
    nodes, rest := Assemble(rest, versions, seeds, vals, fulls, z.lightClients, initialHeight);
    TableOkFrom(nodes, seeds, vals, powers, fulls, versions, initialHeight, z, next);
    r := Ok((sets.value.0, sets.value.1, nodes));
  }

  /** `generateTestnet`: the manifest-wide draws (IPv6, ABCI protocol,
      evidence, delay tier), the node counts of the topology, then the nodes
      and validator sets. Fails exactly on an unknown topology or validators
      option. */
  method GenerateTestnet(s: Stream, versions: seq<string>, opt: Options)
    returns (r: Result<Manifest, string>, sizes: Sizes, rest: Stream)
    requires |versions| > 0
    ensures r.Ok? <==> opt.topology in {"single", "quad", "large"} && opt.validators in {"genesis", "initchain"}
    ensures r.Ok? ==> SizesFor(opt.topology, sizes) && 1 <= Quorum(sizes.validators) <= sizes.validators
    ensures r.Ok? ==>
              var m := r.value;
              && m.initialHeight == opt.initialHeight && m.initialState == opt.initialState
              && m.abciProtocol in ABCIProtocols && m.evidence in EvidenceChoices
              && (m.prepareProposalDelayMs, m.processProposalDelayMs, m.checkTxDelayMs) in {(0, 0, 0), (100, 100, 0), (200, 200, 20)}
    ensures r.Ok? ==> ValidatorSetsOk(r.value.validators, r.value.validatorUpdates, opt.validators, opt.initialHeight,
                                      Quorum(sizes.validators), sizes.validators)
    ensures r.Ok? ==> TableOk(r.value.nodes, versions, opt.initialHeight, sizes)
  {
    var ipv6 := Pick(s, [false, true]);
    var abci := Pick(ipv6.rest, ABCIProtocols);
    var evidence := Pick(abci.rest, EvidenceChoices);
    var tier := Pick(evidence.rest, ABCIDelays);
    var delays := DelaysOf(tier.value);
    var drawn := DrawSizes(opt.topology, tier.rest);
    if drawn.Err? {
      return Err(drawn.error), Sizes(0, 0, 0, 0), tier.rest;
    }
    sizes := drawn.value.value;
    QuorumBounds(sizes.validators);
    var population;
    population, rest := Populate(drawn.value.rest, versions, sizes, opt.initialHeight, opt.validators);
    if population.Err? {
      return Err(population.error), sizes, rest;
    }
    var (validators, updates, nodes) := population.value;
    r := Ok(Manifest(ipv6.value, abci.value, opt.initialHeight, opt.initialState, validators, updates, evidence.value,
                     delays.prepareProposal, delays.processProposal, delays.checkTx, nodes));
  }
}
