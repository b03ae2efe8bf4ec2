/** Node population of one testnet (test/e2e/generator/generate.go, lines
    130-195): topology sizes, seeds, the validators with their genesis powers
    and delayed-join updates, and the full nodes. Validators and full nodes
    that join late share one height cursor, advanced by 5 per delayed node. */
module Topology {
  import opened Results
  import opened Text
  import opened Draws
  import opened Manifests
  import opened NodeGen

  /** The topology axis: `single` and `quad` are fixed, `large` draws every size. */
  function DrawSizes(topology: string, s: Stream): (r: Result<Drawn<Sizes>, string>)
    ensures r.Ok? <==> topology in {"single", "quad", "large"}
    ensures topology == "single" ==> r == Ok(Drawn(Sizes(0, 0, 1, 0), s))
    ensures topology == "quad" ==> r == Ok(Drawn(Sizes(0, 0, 4, 0), s))
    ensures topology == "large" ==>
              var z := r.value.value;
              z.seeds <= 1 && z.lightClients <= 2 && 4 <= z.validators <= 7 && z.fulls <= 3
  {
    match topology
    case "single" => Ok(Drawn(Sizes(0, 0, 1, 0), s))
    case "quad" => Ok(Drawn(Sizes(0, 0, 4, 0), s))
    case "large" =>
      var seeds := Intn(s, 2);
      var lights := Intn(seeds.rest, 3);
      var validators := Intn(lights.rest, 4);
      var fulls := Intn(validators.rest, 4);
      Ok(Drawn(Sizes(seeds.value, lights.value, 4 + validators.value, fulls.value), fulls.rest))
    case _ => Err("unknown topology \"" + topology + "\"")
  }

  /** The BFT quorum: the number of validators that start at genesis. */
  function Quorum(n: nat): nat
  {
    n * 2 / 3 + 1
  }

  /** The quorum is more than two thirds of the validators, and there are
      enough validators to fill it. */
  lemma QuorumBounds(n: nat)
    requires n >= 1
    ensures 3 * Quorum(n) > 2 * n
    ensures Quorum(n) <= n
  {
  }

  /** `seed01` .. `seedNN`: node `j + 1` is `nodes[j]`, all starting at height 0. */
  method AddSeeds(s: Stream, versions: seq<string>, n: nat) returns (nodes: seq<Node>, rest: Stream)
    requires |versions| > 0
    ensures |nodes| == n
    ensures forall j :: 0 <= j < n ==>
              && nodes[j].mode == Seed && nodes[j].startAt == 0 && WellFormed(nodes[j], versions)
              && nodes[j].seeds == [] && nodes[j].persistentPeers == []
  {
    nodes, rest := [], s;
    while |nodes| < n
      invariant |nodes| <= n
      invariant forall j :: 0 <= j < |nodes| ==>
                  && nodes[j].mode == Seed && nodes[j].startAt == 0 && WellFormed(nodes[j], versions)
                  && nodes[j].seeds == [] && nodes[j].persistentPeers == []
    {
      var node;
      node, rest := GenerateNode(rest, versions, Seed, 0, false);
      nodes := nodes + [node];
    }
  }

  /** Validator `i` starts at genesis when it is within the quorum, otherwise
      at the `i - q`th slot of the shared cursor `initialHeight + 5, + 10, ...`. */
  function ValidatorStart(initialHeight: nat, q: nat, i: nat): nat
  {
    if i <= q then 0 else initialHeight + 5 * (i - q)
  }

  /** The validator-set update key of a delayed validator: 5 blocks after it starts. */
  function UpdateKey(startAt: nat): string
  {
    Decimal(startAt + 5)
  }

  /** No update key is the InitChain key "0". */
  lemma UpdateKeyNotZero(startAt: nat)
    ensures UpdateKey(startAt) != "0"
  {
  }

  /** No delayed validator's update lands on the InitChain key "0". */
  lemma ZeroNotUpdateKey(initialHeight: nat, q: nat, n: nat)
    ensures "0" !in UpdateKeys(initialHeight, q, n)
  {
    forall j | q < j <= n ensures UpdateKey(ValidatorStart(initialHeight, q, j)) != "0" {
      UpdateKeyNotZero(ValidatorStart(initialHeight, q, j));
    }
  }

  /** The update keys of the delayed validators among `1..n`. */
  function UpdateKeys(initialHeight: nat, q: nat, n: nat): set<string>
  {
    set i | q < i <= n :: UpdateKey(ValidatorStart(initialHeight, q, i))
  }

  /** The update keys grow by one key per delayed validator. */
  lemma UpdateKeysStep(initialHeight: nat, q: nat, n: nat)
    requires q < n
    ensures UpdateKeys(initialHeight, q, n)
            == UpdateKeys(initialHeight, q, n - 1) + {UpdateKey(ValidatorStart(initialHeight, q, n))}
  {
    var k := UpdateKey(ValidatorStart(initialHeight, q, n));
    forall x | x in UpdateKeys(initialHeight, q, n)
      ensures x in UpdateKeys(initialHeight, q, n - 1) || x == k
    {
      var i :| q < i <= n && x == UpdateKey(ValidatorStart(initialHeight, q, i));
      if i < n {
        assert x in UpdateKeys(initialHeight, q, n - 1);
      }
    }
  }

  /** Delayed validators start at distinct heights, so no two share an update key. */
  lemma UpdateKeyInjective(initialHeight: nat, q: nat, i: nat, j: nat)
    requires q < i && q < j
    requires UpdateKey(ValidatorStart(initialHeight, q, i)) == UpdateKey(ValidatorStart(initialHeight, q, j))
    ensures i == j
  {
    DecimalInjective(ValidatorStart(initialHeight, q, i) + 5, ValidatorStart(initialHeight, q, j) + 5);
  }

  /** How many of the first `n` validators start late. */
  function Delayed(n: nat, q: nat): nat
  {
    if n > q then n - q else 0
  }

  /** What validator `i` looks like once generated: its start height is
      fixed by its index, validators 1 and 2 are archive nodes, and no peer
      has been wired yet. */
  predicate ValidatorNode(node: Node, versions: seq<string>, initialHeight: nat, q: nat, i: nat)
  {
    && node.mode == Validator && node.startAt == ValidatorStart(initialHeight, q, i)
    && WellFormed(node, versions) && (i <= 2 ==> IsArchive(node.storage))
    && node.seeds == [] && node.persistentPeers == []
  }

  /** Validators `1..n` (validator `j + 1` is `nodes[j]`, with voting power
      `powers[j]`): the first `q` join at genesis; each later one joins on the
      shared cursor, which starts at `initialHeight + 5` and ends at `next`.
      Every power is in [30, 100]. */
  method AddValidators(s: Stream, versions: seq<string>, initialHeight: nat, q: nat, n: nat)
    returns (nodes: seq<Node>, powers: seq<nat>, next: nat, rest: Stream)
    requires |versions| > 0
    ensures |nodes| == n && |powers| == n
    ensures forall j :: 0 <= j < n ==> ValidatorNode(nodes[j], versions, initialHeight, q, j + 1)
    ensures forall j :: 0 <= j < n ==> 30 <= powers[j] <= 100
    ensures next == initialHeight + 5 + 5 * Delayed(n, q)
  {
    nodes, powers, next, rest := [], [], initialHeight + 5, s;
    while |nodes| < n
      invariant |nodes| <= n && |powers| == |nodes|
      invariant forall j :: 0 <= j < |nodes| ==> ValidatorNode(nodes[j], versions, initialHeight, q, j + 1)
      invariant forall j :: 0 <= j < |nodes| ==> 30 <= powers[j] <= 100
      invariant next == initialHeight + 5 + 5 * Delayed(|nodes|, q)
    {
      var i := |nodes| + 1;
      var startAt := 0;
      if i > q {
        startAt := next;
        next := next + 5;
      }
      var node;
      node, rest := GenerateNode(rest, versions, Validator, startAt, i <= 2);
      var power := Intn(rest, 71);
      rest := power.rest;
      nodes := nodes + [node];
      powers := powers + [30 + power.value];
    }
  }

  /** The genesis validator set: validators `1..q` with their powers. */
  function GenesisOf(powers: seq<nat>, q: nat): (r: map<string, nat>)
    ensures r.Keys == NameSet(Validator, |powers| - Delayed(|powers|, q))
    ensures forall j :: 1 <= j <= |powers| && j <= q ==> r[Name(Validator, j)] == powers[j - 1]
  {
    GenesisUpTo(powers, if q < |powers| then q else |powers|)
  }

  /** The genesis powers of validators `1..n`, added one by one. */
  function GenesisUpTo(powers: seq<nat>, n: nat): (r: map<string, nat>)
    requires n <= |powers|
    ensures r.Keys == NameSet(Validator, n)
    ensures forall j :: 1 <= j <= n ==> r[Name(Validator, j)] == powers[j - 1]
  {
    if n == 0 then map[]
    else
      var prev := GenesisUpTo(powers, n - 1);
      var r := prev[Name(Validator, n) := powers[n - 1]];
      NameSetStep(Validator, n);
      forall j | 1 <= j <= n ensures r[Name(Validator, j)] == powers[j - 1] {
        assert j < n ==> Name(Validator, j) in NameSet(Validator, n - 1);
      }
      r
  }

  /** The validator-set updates: each delayed validator `j` takes effect
      on its own, 5 blocks after it starts. */
  function UpdatesOf(powers: seq<nat>, initialHeight: nat, q: nat): (r: map<string, map<string, nat>>)
    ensures r.Keys == UpdateKeys(initialHeight, q, |powers|)
    ensures forall j :: q < j <= |powers| ==>
              r[UpdateKey(ValidatorStart(initialHeight, q, j))] == map[Name(Validator, j) := powers[j - 1]]
  {
    UpdatesUpTo(powers, initialHeight, q, |powers|)
  }

  /** The updates of the delayed validators among `1..n`, added one by one. */
  function UpdatesUpTo(powers: seq<nat>, initialHeight: nat, q: nat, n: nat): (r: map<string, map<string, nat>>)
    requires n <= |powers|
    ensures r.Keys == UpdateKeys(initialHeight, q, n)
    ensures forall j :: q < j <= n ==>
              r[UpdateKey(ValidatorStart(initialHeight, q, j))] == map[Name(Validator, j) := powers[j - 1]]
  {
    if n <= q then map[]
    else
      var prev := UpdatesUpTo(powers, initialHeight, q, n - 1);
      var k := UpdateKey(ValidatorStart(initialHeight, q, n));
      UpdateKeysStep(initialHeight, q, n);
      UpdatesStep(prev, powers, initialHeight, q, n);
      prev[k := map[Name(Validator, n) := powers[n - 1]]]
  }

  /** Adding the update of validator `n` keeps the updates of the earlier ones. */
  lemma UpdatesStep(prev: map<string, map<string, nat>>, powers: seq<nat>, initialHeight: nat, q: nat, n: nat)
    requires q < n <= |powers|
    requires forall j :: q < j < n ==> UpdateKey(ValidatorStart(initialHeight, q, j)) in prev
    requires forall j :: q < j < n ==>
               prev[UpdateKey(ValidatorStart(initialHeight, q, j))] == map[Name(Validator, j) := powers[j - 1]]
    ensures var r := prev[UpdateKey(ValidatorStart(initialHeight, q, n)) := map[Name(Validator, n) := powers[n - 1]]];
            forall j :: q < j <= n ==>
              r[UpdateKey(ValidatorStart(initialHeight, q, j))] == map[Name(Validator, j) := powers[j - 1]]
  {
    var k := UpdateKey(ValidatorStart(initialHeight, q, n));
    forall j | q < j < n ensures UpdateKey(ValidatorStart(initialHeight, q, j)) != k {
      if UpdateKey(ValidatorStart(initialHeight, q, j)) == k {
        UpdateKeyInjective(initialHeight, q, j, n);
      }
    }
  }

  /** `h` is one of the cursor heights `base`, `base + 5`, `base + 10`, ... */
  predicate OnCursor(h: nat, base: nat)
    decreases h
  {
    h == base || (h >= base + 5 && OnCursor(h - 5, base))
  }

  /** What a full node looks like once generated: it starts at genesis or on
      a cursor slot in `[next0, next)`, and no peer has been wired yet. */
  predicate FullNode(node: Node, versions: seq<string>, next0: nat, next: nat)
  {
    && node.mode == Full && WellFormed(node, versions)
    && node.seeds == [] && node.persistentPeers == []
    && (node.startAt == 0 || (OnCursor(node.startAt, next0) && node.startAt < next))
  }

  /** Full nodes `1..n` (full node `j + 1` is `nodes[j]`): a coin decides
      whether each starts at genesis or on the shared cursor, which starts
      at `next0` and ends at `next`. Delayed full nodes start at strictly
      increasing heights in generation order. */
  method AddFulls(s: Stream, versions: seq<string>, next0: nat, n: nat)
    returns (nodes: seq<Node>, next: nat, rest: Stream)
    requires |versions| > 0
    ensures |nodes| == n
    ensures forall j :: 0 <= j < n ==> FullNode(nodes[j], versions, next0, next)
    ensures forall i, j :: 0 <= i < j < n && nodes[i].startAt > 0 && nodes[j].startAt > 0 ==>
              nodes[i].startAt < nodes[j].startAt
    ensures OnCursor(next, next0)
  {
    nodes, next, rest := [], next0, s;
    while |nodes| < n
      invariant |nodes| <= n
      invariant forall j :: 0 <= j < |nodes| ==> FullNode(nodes[j], versions, next0, next)
      invariant forall i, j :: 0 <= i < j < |nodes| && nodes[i].startAt > 0 && nodes[j].startAt > 0 ==>
                  nodes[i].startAt < nodes[j].startAt
      invariant OnCursor(next, next0)
    {
      var delayed := Coin(rest);
      var startAt := 0;
      if delayed.value {
        startAt := next;
        next := next + 5;
      }
      var node;
      node, rest := GenerateNode(delayed.rest, versions, Full, startAt, false);
      nodes := nodes + [node];
    }
  }

  /** What light client `i` looks like: it joins `5 * i` blocks after
      `initialHeight + 5`, never persists, keeps every block and has no seeds. */
  predicate LightNode(node: Node, versions: seq<string>, initialHeight: nat, i: nat)
  {
    && node.mode == Light && node.startAt == initialHeight + 5 + 5 * i
    && WellFormed(node, versions)
    && node.storage.persistInterval == Some(0) && node.storage.retainBlocks == 0
    && node.seeds == []
  }

  /** `light01` .. `lightNN`: light client `j + 1` is `nodes[j]`, starting
      at `initialHeight + 5 + 5 * (j + 1)` with the providers as its peers. */
  method AddLights(s: Stream, versions: seq<string>, initialHeight: nat, n: nat, providers: seq<string>)
    returns (nodes: seq<Node>, rest: Stream)
    requires |versions| > 0
    ensures |nodes| == n
    ensures forall j :: 0 <= j < n ==>
              LightNode(nodes[j], versions, initialHeight, j + 1) && nodes[j].persistentPeers == providers
  {
    nodes, rest := [], s;
    while |nodes| < n
      invariant |nodes| <= n
      invariant forall j :: 0 <= j < |nodes| ==>
                  LightNode(nodes[j], versions, initialHeight, j + 1) && nodes[j].persistentPeers == providers
    {
      var node;
      node, rest := GenerateLightNode(rest, versions, initialHeight + 5 + 5 * (|nodes| + 1), providers);
      nodes := nodes + [node];
    }
  }

  /** The validators option: `genesis` keeps the genesis set, `initchain`
      moves it to the update at height "0" and leaves the genesis set empty. */
  function ApplyValidatorsOption(option: string, genesis: map<string, nat>, updates: map<string, map<string, nat>>)
    : (r: Result<(map<string, nat>, map<string, map<string, nat>>), string>)
    ensures r.Ok? <==> option in {"genesis", "initchain"}
    ensures option == "genesis" ==> r == Ok((genesis, updates))
    ensures option == "initchain" ==>
              && r.value.0 == map[]
              && r.value.1.Keys == updates.Keys + {"0"}
              && r.value.1["0"] == genesis
              && forall k :: k in updates && k != "0" ==> r.value.1[k] == updates[k]
  {
    match option
    case "genesis" => Ok((genesis, updates))
    case "initchain" => Ok((map[], updates["0" := genesis]))
    case _ => Err("invalid validators option \"" + option + "\"")
  }
}
