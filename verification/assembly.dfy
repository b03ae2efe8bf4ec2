/** The node table of one testnet, assembled from the generated roles
    (test/e2e/generator/generate.go, lines 197-250): seed mesh, peer wiring in
    (start height, name) order and light clients, with the guarantees the
    whole table gives stated over the final map from names to nodes. */
module Assembly {
  import opened Results
  import opened Text
  import opened Lists
  import opened Draws
  import opened Manifests
  import opened Topology
  import opened Wiring

  /** A node light clients may use as a provider. */
  predicate IsProviderNode(n: Node, initialHeight: nat)
  {
    && (n.mode == Validator || n.mode == Full)
    && (n.startAt == 0 || n.startAt == initialHeight)
    && n.storage.retainBlocks == 0
  }

  /** `x` names a seed node of the table. */
  predicate HasSeed(nodes: seq<Entry>, x: string)
  {
    exists f :: f in nodes && f.name == x && f.node.mode == Seed
  }

  /** `x` names a provider node of the table. */
  predicate HasProvider(nodes: seq<Entry>, x: string, initialHeight: nat)
  {
    exists f :: f in nodes && f.name == x && IsProviderNode(f.node, initialHeight)
  }

  /** Seed nodes are fully meshed: each lists exactly the other seeds as its
      seeds, and has no persistent peers. */
  ghost predicate SeedMesh(nodes: seq<Entry>)
  {
    forall e :: e in nodes && e.node.mode == Seed ==>
      && e.node.persistentPeers == []
      && forall x :: x in e.node.seeds <==> HasSeed(nodes, x) && x != e.name
  }

  /** A node that is not a seed bootstraps from seeds or from persistent
      peers, never both, and only seed nodes serve as seeds. */
  predicate SeedsOrPeers(nodes: seq<Entry>)
  {
    forall e :: e in nodes && e.node.mode != Seed ==>
      && (e.node.seeds == [] || e.node.persistentPeers == [])
      && forall x :: x in e.node.seeds ==> HasSeed(nodes, x)
  }

  /** Persistent peers are validators or full nodes wired strictly before
      the node that lists them. */
  predicate PeersEarlier(nodes: seq<Entry>)
  {
    forall e, x :: e in nodes && x in e.node.persistentPeers ==>
      exists f :: f in nodes && f.name == x && (f.node.mode == Validator || f.node.mode == Full) && Earlier(f, e)
  }

  /** Every light client lists exactly the provider nodes as persistent peers. */
  ghost predicate LightPeers(nodes: seq<Entry>, initialHeight: nat)
  {
    forall e :: e in nodes && e.node.mode == Light ==>
      forall x :: x in e.node.persistentPeers <==> HasProvider(nodes, x, initialHeight)
  }

  /** The nodes a role contributes before any wiring: the role's mode and
      empty discovery lists. */
  predicate Fresh(nodes: seq<Node>, m: Mode)
  {
    forall j :: 0 <= j < |nodes| ==> nodes[j].mode == m && nodes[j].seeds == [] && nodes[j].persistentPeers == []
  }

  /** The entries of one role have unique names that carry the role. */
  lemma EntriesFacts(m: Mode, nodes: seq<Node>)
    ensures UniqueNames(Entries(m, nodes))
    ensures forall e :: e in Entries(m, nodes) ==> ModeOf(e.name) == Some(m)
    ensures NameSetOf(Entries(m, nodes)) == NameSet(m, |nodes|)
  {
    var es := Entries(m, nodes);
    NamesInjective(m);
    NamesInverse();
    forall x | x in NameSet(m, |nodes|) ensures x in NameSetOf(es) {
      var i :| 1 <= i <= |nodes| && x == Name(m, i);
      assert es[i - 1] in es;
    }
  }

  lemma UniqueAppend(a: seq<Entry>, b: seq<Entry>)
    requires UniqueNames(a) && UniqueNames(b)
    requires forall x, y :: x in a && y in b ==> x.name != y.name
    ensures UniqueNames(a + b)
  {
    forall i, j | 0 <= i < j < |a + b| ensures (a + b)[i].name != (a + b)[j].name {
      if i >= |a| {
        assert (a + b)[i] == b[i - |a|] && (a + b)[j] == b[j - |a|];
      } else if j >= |a| {
        assert (a + b)[i] in a && (a + b)[j] in b;
      }
    }
  }

  /** The validators and full nodes, in generation order. */
  function PeerEntries(vals: seq<Node>, fulls: seq<Node>): seq<Entry>
  {
    Entries(Validator, vals) + Entries(Full, fulls)
  }

  /** The table before wiring: seeds, validators and full nodes. */
  function Population(seeds: seq<Node>, vals: seq<Node>, fulls: seq<Node>): seq<Entry>
  {
    Entries(Seed, seeds) + PeerEntries(vals, fulls)
  }

  /** The seed entries are all seeds. */
  lemma SeedFilter(nodes: seq<Node>)
    requires forall j :: 0 <= j < |nodes| ==> nodes[j].mode == Seed
    ensures Filter(Entries(Seed, nodes), IsSeedEntry) == Entries(Seed, nodes)
    ensures Filter(Entries(Seed, nodes), IsPeerEntry) == []
  {
    var es := Entries(Seed, nodes);
    assert forall i :: 0 <= i < |es| ==> IsSeedEntry(es[i]) && !IsPeerEntry(es[i]);
    FilterAll(es, IsSeedEntry);
    FilterNone(es, IsPeerEntry);
  }

  /** The entries of any other role are all non-seeds. */
  lemma PeerFilter(m: Mode, nodes: seq<Node>)
    requires m != Seed
    requires forall j :: 0 <= j < |nodes| ==> nodes[j].mode == m
    ensures Filter(Entries(m, nodes), IsSeedEntry) == []
    ensures Filter(Entries(m, nodes), IsPeerEntry) == Entries(m, nodes)
  {
    var es := Entries(m, nodes);
    assert forall i :: 0 <= i < |es| ==> !IsSeedEntry(es[i]) && IsPeerEntry(es[i]);
    FilterNone(es, IsSeedEntry);
    FilterAll(es, IsPeerEntry);
  }

  /** Splitting the table by mode gives back the seed entries. */
  lemma PartitionSeeds(seeds: seq<Node>, vals: seq<Node>, fulls: seq<Node>)
    requires Fresh(seeds, Seed) && Fresh(vals, Validator) && Fresh(fulls, Full)
    ensures Filter(Population(seeds, vals, fulls), IsSeedEntry) == Entries(Seed, seeds)
  {
    var es, ev, ef := Entries(Seed, seeds), Entries(Validator, vals), Entries(Full, fulls);
    SeedFilter(seeds);
    PeerFilter(Validator, vals);
    PeerFilter(Full, fulls);
    FilterAppend(es, ev + ef, IsSeedEntry);
    FilterAppend(ev, ef, IsSeedEntry);
  }

  /** Splitting the table by mode gives back the other entries, in order. */
  lemma PartitionPeers(seeds: seq<Node>, vals: seq<Node>, fulls: seq<Node>)
    requires Fresh(seeds, Seed) && Fresh(vals, Validator) && Fresh(fulls, Full)
    ensures Filter(Population(seeds, vals, fulls), IsPeerEntry) == PeerEntries(vals, fulls)
  {
    var es, ev, ef := Entries(Seed, seeds), Entries(Validator, vals), Entries(Full, fulls);
    SeedFilter(seeds);
    PeerFilter(Validator, vals);
    PeerFilter(Full, fulls);
    FilterAppend(es, ev + ef, IsPeerEntry);
    FilterAppend(ev, ef, IsPeerEntry);
  }

  /** Every entry's name carries its node's role. */
  predicate RoleNamed(es: seq<Entry>)
  {
    forall e :: e in es ==> ModeOf(e.name) == Some(e.node.mode)
  }

  /** The validators and full nodes have unique names that carry their roles. */
  lemma PeerEntriesFacts(vals: seq<Node>, fulls: seq<Node>)
    requires Fresh(vals, Validator) && Fresh(fulls, Full)
    ensures UniqueNames(PeerEntries(vals, fulls)) && RoleNamed(PeerEntries(vals, fulls))
    ensures forall e :: e in PeerEntries(vals, fulls) ==>
              (e.node.mode == Validator || e.node.mode == Full) && e.node.seeds == [] && e.node.persistentPeers == []
    ensures NameSetOf(PeerEntries(vals, fulls)) == NameSet(Validator, |vals|) + NameSet(Full, |fulls|)
  {
    var ev, ef := Entries(Validator, vals), Entries(Full, fulls);
    EntriesFacts(Validator, vals);
    EntriesFacts(Full, fulls);
    UniqueAppend(ev, ef);
    assert forall e :: e in ev + ef <==> e in ev || e in ef;
  }

  /** The seed names collected from the table are the names of the seeds. */
  lemma SeedNamesAre(seeds: seq<Node>, vals: seq<Node>, fulls: seq<Node>)
    requires Fresh(seeds, Seed) && Fresh(vals, Validator) && Fresh(fulls, Full)
    ensures forall x :: x in SeedNames(Population(seeds, vals, fulls)) <==> x in NameSet(Seed, |seeds|)
  {
    var es := Entries(Seed, seeds);
    PartitionSeeds(seeds, vals, fulls);
    assert SeedNames(Population(seeds, vals, fulls)) == NamesOf(es);
    EntriesFacts(Seed, seeds);
    NamesOfSet(es);
  }

  /** The meshed seed entries: seeds with no peers, each listing exactly the
      other seed names, which are the names of these entries. */
  ghost predicate MeshedPart(a: seq<Entry>, seedNames: seq<string>)
  {
    && (forall e :: e in a ==>
          && e.node.mode == Seed && e.node.persistentPeers == []
          && forall x :: x in e.node.seeds <==> x in seedNames && x != e.name)
    && (forall x :: x in seedNames <==> exists f :: f in a && f.name == x)
  }

  /** The seed part of a table alone supplies its seeds, so its mesh is the table's. */
  lemma MeshOk(a: seq<Entry>, b: seq<Entry>, c: seq<Entry>, seedNames: seq<string>)
    requires MeshedPart(a, seedNames)
    requires forall e :: e in b ==> e.node.mode != Seed
    requires forall e :: e in c ==> e.node.mode != Seed
    ensures SeedMesh(a + b + c)
  {
    forall x ensures HasSeed(a + b + c, x) <==> x in seedNames {
      if HasSeed(a + b + c, x) {
        var f :| f in a + b + c && f.name == x && f.node.mode == Seed;
        assert f in a;
      }
      if x in seedNames {
        var f :| f in a && f.name == x;
        assert f in a + b + c;
      }
    }
  }

  /** The wiring loop's outcome over the sorted validators and full nodes. */
  ghost predicate WiredPart(sorted: seq<Entry>, b: seq<Entry>, seedNames: seq<string>)
  {
    && |b| == |sorted|
    && forall k :: 0 <= k < |b| ==>
         b[k].name == sorted[k].name && WiredAs(sorted[k].node, b[k].node, seedNames, NamesOf(sorted[..k]))
  }

  /** Unwired validators and full nodes. */
  predicate Unwired(es: seq<Entry>)
  {
    forall e :: e in es ==>
      (e.node.mode == Validator || e.node.mode == Full) && e.node.seeds == [] && e.node.persistentPeers == []
  }

  /** After wiring, a node has seeds or peers but not both, and its seeds are seed names. */
  lemma WiredShape(sorted: seq<Entry>, b: seq<Entry>, seedNames: seq<string>)
    requires WiredPart(sorted, b, seedNames) && Unwired(sorted)
    ensures forall e :: e in b ==>
              && (e.node.mode == Validator || e.node.mode == Full)
              && (e.node.seeds == [] || e.node.persistentPeers == [])
              && forall x :: x in e.node.seeds ==> x in seedNames
  {
    forall e | e in b
      ensures (e.node.mode == Validator || e.node.mode == Full)
      ensures e.node.seeds == [] || e.node.persistentPeers == []
      ensures forall x :: x in e.node.seeds ==> x in seedNames
    {
      var k :| 0 <= k < |b| && b[k] == e;
      assert sorted[k] in sorted;
      if IsSubList(e.node.seeds, seedNames) {
        SubListMembers(e.node.seeds, seedNames);
      }
    }
  }

  /** A persistent peer of the `k`th wired node is a wired node ordered before it. */
  lemma WiredEarlierAt(sorted: seq<Entry>, b: seq<Entry>, seedNames: seq<string>, k: nat, x: string)
    requires WiredPart(sorted, b, seedNames) && Unwired(sorted) && SortedByStart(sorted)
    requires k < |b| && x in b[k].node.persistentPeers
    ensures exists f :: f in b && f.name == x && Earlier(f, b[k])
  {
    assert sorted[k] in sorted;
    var earlier := NamesOf(sorted[..k]);
    SubListMembers(b[k].node.persistentPeers, earlier);
    var i :| 0 <= i < k && earlier[i] == x;
    SameConfigFields(sorted[i].node, b[i].node, []);
    SameConfigFields(sorted[k].node, b[k].node, []);
    assert Earlier(b[i], b[k]) && b[i] in b;
  }

  /** After wiring, every persistent peer is a wired node ordered before its lister. */
  lemma WiredEarlier(sorted: seq<Entry>, b: seq<Entry>, seedNames: seq<string>)
    requires WiredPart(sorted, b, seedNames) && Unwired(sorted) && SortedByStart(sorted)
    ensures forall e, x :: e in b && x in e.node.persistentPeers ==>
              exists f :: f in b && f.name == x && Earlier(f, e)
  {
    forall e, x | e in b && x in e.node.persistentPeers
      ensures exists f :: f in b && f.name == x && Earlier(f, e)
    {
      var k :| 0 <= k < |b| && b[k] == e;
      WiredEarlierAt(sorted, b, seedNames, k, x);
    }
  }

  /** Light-client entries: no seeds, the given peers, and a start after the
      initial height. */
  predicate LightPart(c: seq<Entry>, initialHeight: nat, providers: seq<string>)
  {
    forall e :: e in c ==>
      && e.node.mode == Light && e.node.seeds == [] && e.node.persistentPeers == providers
      && e.node.startAt > initialHeight
  }

  /** The providers are exactly the names of the provider nodes among the wired entries. */
  ghost predicate ProvidersIn(b: seq<Entry>, providers: seq<string>, initialHeight: nat)
  {
    forall x :: x in providers <==> exists f :: f in b && f.name == x && IsProviderNode(f.node, initialHeight)
  }

  lemma SeedsOrPeersOk(a: seq<Entry>, b: seq<Entry>, c: seq<Entry>, seedNames: seq<string>, initialHeight: nat, providers: seq<string>)
    requires MeshedPart(a, seedNames)
    requires forall e :: e in b ==>
               && (e.node.mode == Validator || e.node.mode == Full)
               && (e.node.seeds == [] || e.node.persistentPeers == [])
               && forall x :: x in e.node.seeds ==> x in seedNames
    requires LightPart(c, initialHeight, providers)
    ensures SeedsOrPeers(a + b + c)
  {
    forall e, x | e in a + b + c && e.node.mode != Seed && x in e.node.seeds ensures HasSeed(a + b + c, x) {
      assert e in b;
      var f :| f in a && f.name == x;
      assert f in a + b + c;
    }
  }

  lemma PeersEarlierOk(a: seq<Entry>, b: seq<Entry>, c: seq<Entry>, seedNames: seq<string>, initialHeight: nat, providers: seq<string>)
    requires MeshedPart(a, seedNames)
    requires forall e :: e in b ==> e.node.mode == Validator || e.node.mode == Full
    requires forall e, x :: e in b && x in e.node.persistentPeers ==>
               exists f :: f in b && f.name == x && Earlier(f, e)
    requires LightPart(c, initialHeight, providers) && ProvidersIn(b, providers, initialHeight)
    ensures PeersEarlier(a + b + c)
  {
    forall e, x | e in a + b + c && x in e.node.persistentPeers
      ensures exists f :: f in a + b + c && f.name == x && (f.node.mode == Validator || f.node.mode == Full) && Earlier(f, e)
    {
      if e in b {
        var f :| f in b && f.name == x && Earlier(f, e);
        assert f in a + b + c;
      } else {
        assert e in c;
        var f :| f in b && f.name == x && IsProviderNode(f.node, initialHeight);
        assert f in a + b + c && Earlier(f, e);
      }
    }
  }

  lemma LightPeersOk(a: seq<Entry>, b: seq<Entry>, c: seq<Entry>, seedNames: seq<string>, initialHeight: nat, providers: seq<string>)
    requires MeshedPart(a, seedNames)
    requires forall e :: e in b ==> e.node.mode == Validator || e.node.mode == Full
    requires LightPart(c, initialHeight, providers) && ProvidersIn(b, providers, initialHeight)
    ensures LightPeers(a + b + c, initialHeight)
  {
    forall x ensures HasProvider(a + b + c, x, initialHeight) <==> x in providers {
      if HasProvider(a + b + c, x, initialHeight) {
        var f :| f in a + b + c && f.name == x && IsProviderNode(f.node, initialHeight);
        assert f in b;
      }
      if x in providers {
        var f :| f in b && f.name == x && IsProviderNode(f.node, initialHeight);
        assert f in a + b + c;
      }
    }
  }

  /** Meshing seed entries with their own names gives a seed part. */
  lemma MeshedOwnNames(es: seq<Entry>)
    requires forall e :: e in es ==> e.node.mode == Seed && e.node.seeds == [] && e.node.persistentPeers == []
    ensures MeshedPart(MeshSeeds(es, NamesOf(es)), NamesOf(es))
  {
    var seedNames := NamesOf(es);
    var a := MeshSeeds(es, seedNames);
    forall e | e in a
      ensures e.node.mode == Seed && e.node.persistentPeers == []
      ensures forall x :: x in e.node.seeds <==> x in seedNames && x != e.name
    {
      var j :| 0 <= j < |a| && a[j] == e;
      assert es[j] in es;
    }
    assert NamesOf(a) == seedNames;
    NamesOfSet(a);
  }

  /** Meshing the seed entries with the seed names of the table gives the seed part. */
  lemma MeshedFromSeeds(seeds: seq<Node>, vals: seq<Node>, fulls: seq<Node>)
    requires Fresh(seeds, Seed) && Fresh(vals, Validator) && Fresh(fulls, Full)
    ensures var seedNames := SeedNames(Population(seeds, vals, fulls));
            MeshedPart(MeshSeeds(Entries(Seed, seeds), seedNames), seedNames)
  {
    var es := Entries(Seed, seeds);
    PartitionSeeds(seeds, vals, fulls);
    assert SeedNames(Population(seeds, vals, fulls)) == NamesOf(es);
    forall e | e in es ensures e.node.mode == Seed && e.node.seeds == [] && e.node.persistentPeers == [] {
      var j :| 0 <= j < |es| && es[j] == e;
    }
    MeshedOwnNames(es);
  }

  /** Wiring keeps what makes a node a provider. */
  lemma SameConfigProvider(x: Node, y: Node, initialHeight: nat)
    requires SameConfig(x, y)
    ensures IsProviderNode(x, initialHeight) <==> IsProviderNode(y, initialHeight)
    ensures x.mode == y.mode && x.startAt == y.startAt
  {
    assert x.(seeds := [], persistentPeers := []).mode == y.(seeds := [], persistentPeers := []).mode;
    assert x.(seeds := [], persistentPeers := []).storage == y.(seeds := [], persistentPeers := []).storage;
    assert x.(seeds := [], persistentPeers := []).startAt == y.(seeds := [], persistentPeers := []).startAt;
  }

  /** The non-seed entries of the table, before wiring, are validators and full nodes. */
  lemma PopulationPeer(seeds: seq<Node>, vals: seq<Node>, fulls: seq<Node>, e: Entry)
    requires Fresh(seeds, Seed) && Fresh(vals, Validator) && Fresh(fulls, Full)
    requires e in Population(seeds, vals, fulls) && e.node.mode != Seed
    ensures e in PeerEntries(vals, fulls)
    ensures e.node.mode == Validator || e.node.mode == Full
  {
    var es := Entries(Seed, seeds);
    forall f | f in es ensures f.node.mode == Seed {
      var i :| 0 <= i < |es| && es[i] == f;
      assert es[i].node == seeds[i];
    }
    PeerEntriesFacts(vals, fulls);
  }

  /** Every provider name collected from the table names a wired provider node. */
  lemma ProvidersWired(seeds: seq<Node>, vals: seq<Node>, fulls: seq<Node>, sorted: seq<Entry>, b: seq<Entry>,
                       seedNames: seq<string>, initialHeight: nat)
    requires Fresh(seeds, Seed) && Fresh(vals, Validator) && Fresh(fulls, Full)
    requires multiset(sorted) == multiset(PeerEntries(vals, fulls))
    requires WiredPart(sorted, b, seedNames)
    ensures forall x :: x in ProviderNames(Population(seeds, vals, fulls), initialHeight) ==>
              exists f :: f in b && f.name == x && IsProviderNode(f.node, initialHeight)
  {
    var pop := Population(seeds, vals, fulls);
    forall x | x in ProviderNames(pop, initialHeight)
      ensures exists f :: f in b && f.name == x && IsProviderNode(f.node, initialHeight)
    {
      var j :| 0 <= j < |pop| && IsProvider(pop[j], initialHeight) && pop[j].name == x;
      PopulationPeer(seeds, vals, fulls, pop[j]);
      assert pop[j] in multiset(sorted);
      var k :| 0 <= k < |sorted| && sorted[k] == pop[j];
      assert IsProviderNode(sorted[k].node, initialHeight);
      SameConfigProvider(sorted[k].node, b[k].node, initialHeight);
      assert b[k] in b;
    }
  }

  /** Each wired entry comes from the sorted entry at its position. */
  lemma WiredSource(sorted: seq<Entry>, b: seq<Entry>, seedNames: seq<string>, f: Entry) returns (e: Entry)
    requires WiredPart(sorted, b, seedNames) && f in b
    ensures e in sorted && e.name == f.name && SameConfig(e.node, f.node)
  {
    var k :| 0 <= k < |b| && b[k] == f;
    e := sorted[k];
  }

  /** A provider among the validators and full nodes is collected as a provider. */
  lemma ProviderCollected(seeds: seq<Node>, vals: seq<Node>, fulls: seq<Node>, e: Entry, initialHeight: nat)
    requires e in PeerEntries(vals, fulls) && IsProviderNode(e.node, initialHeight)
    ensures e.name in ProviderNames(Population(seeds, vals, fulls), initialHeight)
  {
    var pop := Population(seeds, vals, fulls);
    var i :| 0 <= i < |PeerEntries(vals, fulls)| && PeerEntries(vals, fulls)[i] == e;
    assert pop[|Entries(Seed, seeds)| + i] == e;
  }

  /** Every wired provider node's name is collected as a provider. */
  lemma WiredProviders(seeds: seq<Node>, vals: seq<Node>, fulls: seq<Node>, sorted: seq<Entry>, b: seq<Entry>,
                       seedNames: seq<string>, initialHeight: nat)
    requires multiset(sorted) == multiset(PeerEntries(vals, fulls))
    requires WiredPart(sorted, b, seedNames)
    ensures forall x :: (exists f :: f in b && f.name == x && IsProviderNode(f.node, initialHeight)) ==>
              x in ProviderNames(Population(seeds, vals, fulls), initialHeight)
  {
    forall x | exists f :: f in b && f.name == x && IsProviderNode(f.node, initialHeight)
      ensures x in ProviderNames(Population(seeds, vals, fulls), initialHeight)
    {
      var f :| f in b && f.name == x && IsProviderNode(f.node, initialHeight);
      var e := WiredSource(sorted, b, seedNames, f);
      SameConfigProvider(e.node, f.node, initialHeight);
      assert e in multiset(PeerEntries(vals, fulls));
      ProviderCollected(seeds, vals, fulls, e, initialHeight);
    }
  }

  /** The light-client entries, from the generated light clients. */
  lemma LightsFacts(lights: seq<Node>, versions: seq<string>, initialHeight: nat, providers: seq<string>)
    requires forall j :: 0 <= j < |lights| ==>
               LightNode(lights[j], versions, initialHeight, j + 1) && lights[j].persistentPeers == providers
    ensures LightPart(Entries(Light, lights), initialHeight, providers)
  {
    forall e | e in Entries(Light, lights)
      ensures e.node.mode == Light && e.node.seeds == [] && e.node.persistentPeers == providers
      ensures e.node.startAt > initialHeight
    {
      var j :| 0 <= j < |lights| && Entries(Light, lights)[j] == e;
      assert LightNode(lights[j], versions, initialHeight, j + 1);
    }
  }

  /** Uniquely named parts whose names carry different roles join into a
      uniquely named table. */
  lemma JoinUnique(a: seq<Entry>, b: seq<Entry>, c: seq<Entry>)
    requires UniqueNames(a) && UniqueNames(b) && UniqueNames(c)
    requires forall e :: e in a ==> ModeOf(e.name) == Some(Seed)
    requires forall e :: e in b ==> ModeOf(e.name) == Some(Validator) || ModeOf(e.name) == Some(Full)
    requires forall e :: e in c ==> ModeOf(e.name) == Some(Light)
    ensures UniqueNames(a + b + c)
  {
    UniqueAppend(a, b);
    assert forall e :: e in a + b ==> ModeOf(e.name) != Some(Light);
    UniqueAppend(a + b, c);
  }

  /** The seed part keeps the seed entries' names. */
  lemma MeshedNames(es: seq<Entry>, seedNames: seq<string>)
    requires UniqueNames(es)
    ensures UniqueNames(MeshSeeds(es, seedNames))
    ensures NameSetOf(MeshSeeds(es, seedNames)) == NameSetOf(es)
    ensures forall e :: e in MeshSeeds(es, seedNames) ==> exists f :: f in es && f.name == e.name
  {
    var a := MeshSeeds(es, seedNames);
    forall x | x in NameSetOf(es) ensures x in NameSetOf(a) {
      var f :| f in es && f.name == x;
      var j :| 0 <= j < |es| && es[j] == f;
      assert a[j] in a;
    }
    forall e | e in a ensures exists f :: f in es && f.name == e.name {
      var j :| 0 <= j < |a| && a[j] == e;
      assert es[j] in es;
    }
  }

  /** The wired part keeps the sorted entries' names. */
  lemma WiredNames(sorted: seq<Entry>, b: seq<Entry>, seedNames: seq<string>)
    requires WiredPart(sorted, b, seedNames) && UniqueNames(sorted)
    ensures UniqueNames(b)
    ensures NameSetOf(b) == NameSetOf(sorted)
    ensures forall e :: e in b ==> exists f :: f in sorted && f.name == e.name && SameConfig(f.node, e.node)
  {
    forall x | x in NameSetOf(sorted) ensures x in NameSetOf(b) {
      var f :| f in sorted && f.name == x;
      var j :| 0 <= j < |sorted| && sorted[j] == f;
      assert b[j] in b;
    }
    forall e | e in b ensures exists f :: f in sorted && f.name == e.name && SameConfig(f.node, e.node) {
      var j :| 0 <= j < |b| && b[j] == e;
      assert sorted[j] in sorted;
    }
  }

  /** Every node generated for role `m` is in the table, under its name and
      with the configuration it was generated with. */
  ghost predicate Keeps(nodes: seq<Entry>, m: Mode, orig: seq<Node>)
  {
    forall e :: e in Entries(m, orig) ==> exists f :: f in nodes && f.name == e.name && SameConfig(f.node, e.node)
  }

  /** Every light client is as the generator describes light client number
      `i`, `i` read from its name. */
  ghost predicate LightsNumbered(nodes: seq<Entry>, versions: seq<string>, initialHeight: nat)
  {
    forall e :: e in nodes && e.node.mode == Light ==> LightNode(e.node, versions, initialHeight, IndexOf(e.name))
  }

  lemma KeepsWithin(sub: seq<Entry>, nodes: seq<Entry>, m: Mode, orig: seq<Node>)
    requires Keeps(sub, m, orig)
    requires forall e :: e in sub ==> e in nodes
    ensures Keeps(nodes, m, orig)
  {
    forall e | e in Entries(m, orig) ensures exists f :: f in nodes && f.name == e.name && SameConfig(f.node, e.node) {
      var f :| f in sub && f.name == e.name && SameConfig(f.node, e.node);
    }
  }

  /** The sorted validators and full nodes are still unwired. */
  lemma SortedUnwired(vals: seq<Node>, fulls: seq<Node>, sorted: seq<Entry>)
    requires Fresh(vals, Validator) && Fresh(fulls, Full)
    requires multiset(sorted) == multiset(PeerEntries(vals, fulls))
    ensures Unwired(sorted)
  {
    PeerEntriesFacts(vals, fulls);
    forall e | e in sorted ensures e in PeerEntries(vals, fulls) {
      assert e in multiset(sorted);
    }
  }

  /** Every generated validator and full node is among the wired entries. */
  lemma KeepsPeers(vals: seq<Node>, fulls: seq<Node>, sorted: seq<Entry>, b: seq<Entry>, seedNames: seq<string>)
    requires multiset(sorted) == multiset(PeerEntries(vals, fulls))
    requires WiredPart(sorted, b, seedNames)
    ensures Keeps(b, Validator, vals) && Keeps(b, Full, fulls)
  {
    var ev, ef := Entries(Validator, vals), Entries(Full, fulls);
    forall e: Entry | e in ev + ef ensures exists f: Entry :: f in b && f.name == e.name && SameConfig(f.node, e.node) {
      assert e in multiset(sorted);
      var k :| 0 <= k < |sorted| && sorted[k] == e;
      assert WiredAs(sorted[k].node, b[k].node, seedNames, NamesOf(sorted[..k]));
      assert b[k] in b;
    }
  }

  /** Every generated seed is among the meshed entries. */
  lemma KeepsSeeds(seeds: seq<Node>, seedNames: seq<string>)
    ensures Keeps(MeshSeeds(Entries(Seed, seeds), seedNames), Seed, seeds)
  {
    var es := Entries(Seed, seeds);
    var a := MeshSeeds(es, seedNames);
    forall e | e in es ensures exists f :: f in a && f.name == e.name && SameConfig(f.node, e.node) {
      var j :| 0 <= j < |es| && es[j] == e;
      assert a[j] in a;
    }
  }

  /** The light entries are numbered as generated. */
  lemma KeepsLights(lights: seq<Node>, versions: seq<string>, initialHeight: nat)
    requires forall j :: 0 <= j < |lights| ==> LightNode(lights[j], versions, initialHeight, j + 1)
    ensures LightsNumbered(Entries(Light, lights), versions, initialHeight)
  {
    var c := Entries(Light, lights);
    forall e | e in c ensures LightNode(e.node, versions, initialHeight, IndexOf(e.name)) {
      var j :| 0 <= j < |c| && c[j] == e;
      NameInverse(Light, j + 1);
    }
  }

  lemma NameSetJoin(a: seq<Entry>, b: seq<Entry>, c: seq<Entry>)
    ensures NameSetOf(a + b + c) == NameSetOf(a) + NameSetOf(b) + NameSetOf(c)
  {
    assert forall e :: e in a + b + c <==> e in a || e in b || e in c;
  }

  lemma NameSetPerm(x: seq<Entry>, y: seq<Entry>)
    requires multiset(x) == multiset(y)
    ensures NameSetOf(x) == NameSetOf(y)
  {
    assert forall e :: e in x <==> e in multiset(x);
    assert forall e :: e in y <==> e in multiset(y);
  }

  /** The seed part: unique seed names, the names of the generated seeds. */
  lemma SeedPartNames(seeds: seq<Node>, seedNames: seq<string>)
    ensures var a := MeshSeeds(Entries(Seed, seeds), seedNames);
            && UniqueNames(a) && NameSetOf(a) == NameSet(Seed, |seeds|)
            && forall e :: e in a ==> ModeOf(e.name) == Some(Seed)
  {
    EntriesFacts(Seed, seeds);
    MeshedNames(Entries(Seed, seeds), seedNames);
  }

  /** The wired part: unique names, the names of the generated validators and full nodes. */
  lemma PeerPartNames(vals: seq<Node>, fulls: seq<Node>, sorted: seq<Entry>, b: seq<Entry>, seedNames: seq<string>)
    requires Fresh(vals, Validator) && Fresh(fulls, Full)
    requires multiset(sorted) == multiset(PeerEntries(vals, fulls)) && UniqueNames(sorted)
    requires WiredPart(sorted, b, seedNames)
    ensures UniqueNames(b) && NameSetOf(b) == NameSet(Validator, |vals|) + NameSet(Full, |fulls|)
  {
    PeerEntriesFacts(vals, fulls);
    NameSetPerm(sorted, PeerEntries(vals, fulls));
    WiredNames(sorted, b, seedNames);
  }

  /** The wired part's names carry the validator or full-node role. */
  lemma PeerPartRoles(vals: seq<Node>, fulls: seq<Node>, sorted: seq<Entry>, b: seq<Entry>, seedNames: seq<string>)
    requires Fresh(vals, Validator) && Fresh(fulls, Full)
    requires multiset(sorted) == multiset(PeerEntries(vals, fulls))
    requires WiredPart(sorted, b, seedNames)
    ensures forall e :: e in b ==> ModeOf(e.name) == Some(Validator) || ModeOf(e.name) == Some(Full)
  {
    forall e | e in b ensures ModeOf(e.name) == Some(Validator) || ModeOf(e.name) == Some(Full) {
      var k :| 0 <= k < |b| && b[k] == e;
      var f := sorted[k];
      assert f in multiset(sorted);
      PeerEntryRole(vals, fulls, f);
    }
  }

  lemma PeerEntryRole(vals: seq<Node>, fulls: seq<Node>, f: Entry)
    requires f in PeerEntries(vals, fulls)
    ensures ModeOf(f.name) == Some(Validator) || ModeOf(f.name) == Some(Full)
  {
    EntriesFacts(Validator, vals);
    EntriesFacts(Full, fulls);
  }

  /** The names and configurations of the assembled table. */
  lemma TableShape(seeds: seq<Node>, vals: seq<Node>, fulls: seq<Node>, lights: seq<Node>,
                   sorted: seq<Entry>, b: seq<Entry>, seedNames: seq<string>)
    requires Fresh(vals, Validator) && Fresh(fulls, Full)
    requires multiset(sorted) == multiset(PeerEntries(vals, fulls)) && UniqueNames(sorted)
    requires WiredPart(sorted, b, seedNames)
    ensures var nodes := MeshSeeds(Entries(Seed, seeds), seedNames) + b + Entries(Light, lights);
            && UniqueNames(nodes)
            && NameSetOf(nodes) == NameSet(Seed, |seeds|) + NameSet(Validator, |vals|) + NameSet(Full, |fulls|) + NameSet(Light, |lights|)
  {
    var a, c := MeshSeeds(Entries(Seed, seeds), seedNames), Entries(Light, lights);
    SeedPartNames(seeds, seedNames);
    PeerPartNames(vals, fulls, sorted, b, seedNames);
    PeerPartRoles(vals, fulls, sorted, b, seedNames);
    EntriesFacts(Light, lights);
    JoinUnique(a, b, c);
    NameSetJoin(a, b, c);
  }

  /** Every generated node is in the assembled table. */
  lemma TableKeeps(seeds: seq<Node>, vals: seq<Node>, fulls: seq<Node>, lights: seq<Node>,
                   sorted: seq<Entry>, b: seq<Entry>, seedNames: seq<string>)
    requires multiset(sorted) == multiset(PeerEntries(vals, fulls))
    requires WiredPart(sorted, b, seedNames)
    ensures var nodes := MeshSeeds(Entries(Seed, seeds), seedNames) + b + Entries(Light, lights);
            Keeps(nodes, Seed, seeds) && Keeps(nodes, Validator, vals) && Keeps(nodes, Full, fulls)
  {
    var a, c := MeshSeeds(Entries(Seed, seeds), seedNames), Entries(Light, lights);
    KeepsSeeds(seeds, seedNames);
    KeepsPeers(vals, fulls, sorted, b, seedNames);
    KeepsWithin(a, a + b + c, Seed, seeds);
    KeepsWithin(b, a + b + c, Validator, vals);
    KeepsWithin(b, a + b + c, Full, fulls);
  }

  /** The seed mesh of the assembled table. */
  lemma TableMesh(seeds: seq<Node>, vals: seq<Node>, fulls: seq<Node>, lights: seq<Node>,
                  sorted: seq<Entry>, b: seq<Entry>, initialHeight: nat)
    requires Fresh(seeds, Seed) && Fresh(vals, Validator) && Fresh(fulls, Full)
    requires multiset(sorted) == multiset(PeerEntries(vals, fulls))
    requires var pop := Population(seeds, vals, fulls);
             && WiredPart(sorted, b, SeedNames(pop))
             && LightPart(Entries(Light, lights), initialHeight, ProviderNames(pop, initialHeight))
    ensures var seedNames := SeedNames(Population(seeds, vals, fulls));
            SeedMesh(MeshSeeds(Entries(Seed, seeds), seedNames) + b + Entries(Light, lights))
  {
    var pop := Population(seeds, vals, fulls);
    var seedNames := SeedNames(pop);
    var a, c := MeshSeeds(Entries(Seed, seeds), seedNames), Entries(Light, lights);
    MeshedFromSeeds(seeds, vals, fulls);
    SortedUnwired(vals, fulls, sorted);
    WiredShape(sorted, b, seedNames);
    MeshOk(a, b, c, seedNames);
  }

  /** Non-seed nodes of the assembled table use seeds or peers, and seeds are seed nodes. */
  lemma TableSeedsOrPeers(seeds: seq<Node>, vals: seq<Node>, fulls: seq<Node>, lights: seq<Node>,
                          sorted: seq<Entry>, b: seq<Entry>, initialHeight: nat)
    requires Fresh(seeds, Seed) && Fresh(vals, Validator) && Fresh(fulls, Full)
    requires multiset(sorted) == multiset(PeerEntries(vals, fulls))
    requires var pop := Population(seeds, vals, fulls);
             && WiredPart(sorted, b, SeedNames(pop))
             && LightPart(Entries(Light, lights), initialHeight, ProviderNames(pop, initialHeight))
    ensures var seedNames := SeedNames(Population(seeds, vals, fulls));
            SeedsOrPeers(MeshSeeds(Entries(Seed, seeds), seedNames) + b + Entries(Light, lights))
  {
    var pop := Population(seeds, vals, fulls);
    var seedNames, providers := SeedNames(pop), ProviderNames(pop, initialHeight);
    MeshedFromSeeds(seeds, vals, fulls);
    SortedUnwired(vals, fulls, sorted);
    WiredShape(sorted, b, seedNames);
    SeedsOrPeersOk(MeshSeeds(Entries(Seed, seeds), seedNames), b, Entries(Light, lights), seedNames, initialHeight, providers);
  }

  /** Persistent peers of the assembled table point backwards in the wiring order. */
  lemma TablePeersEarlier(seeds: seq<Node>, vals: seq<Node>, fulls: seq<Node>, lights: seq<Node>,
                          sorted: seq<Entry>, b: seq<Entry>, initialHeight: nat)
    requires Fresh(seeds, Seed) && Fresh(vals, Validator) && Fresh(fulls, Full)
    requires multiset(sorted) == multiset(PeerEntries(vals, fulls)) && SortedByStart(sorted)
    requires var pop := Population(seeds, vals, fulls);
             && WiredPart(sorted, b, SeedNames(pop))
             && LightPart(Entries(Light, lights), initialHeight, ProviderNames(pop, initialHeight))
    ensures var seedNames := SeedNames(Population(seeds, vals, fulls));
            PeersEarlier(MeshSeeds(Entries(Seed, seeds), seedNames) + b + Entries(Light, lights))
  {
    var pop := Population(seeds, vals, fulls);
    var seedNames, providers := SeedNames(pop), ProviderNames(pop, initialHeight);
    MeshedFromSeeds(seeds, vals, fulls);
    SortedUnwired(vals, fulls, sorted);
    WiredShape(sorted, b, seedNames);
    WiredEarlier(sorted, b, seedNames);
    ProvidersWired(seeds, vals, fulls, sorted, b, seedNames, initialHeight);
    WiredProviders(seeds, vals, fulls, sorted, b, seedNames, initialHeight);
    PeersEarlierOk(MeshSeeds(Entries(Seed, seeds), seedNames), b, Entries(Light, lights), seedNames, initialHeight, providers);
  }

  /** The light clients of the assembled table. */
  lemma TableLights(seeds: seq<Node>, vals: seq<Node>, fulls: seq<Node>, lights: seq<Node>,
                    sorted: seq<Entry>, b: seq<Entry>, versions: seq<string>, initialHeight: nat)
    requires Fresh(seeds, Seed) && Fresh(vals, Validator) && Fresh(fulls, Full)
    requires multiset(sorted) == multiset(PeerEntries(vals, fulls))
    requires var pop := Population(seeds, vals, fulls);
             && WiredPart(sorted, b, SeedNames(pop))
             && forall j :: 0 <= j < |lights| ==>
                  LightNode(lights[j], versions, initialHeight, j + 1)
                  && lights[j].persistentPeers == ProviderNames(pop, initialHeight)
    ensures var seedNames := SeedNames(Population(seeds, vals, fulls));
            var nodes := MeshSeeds(Entries(Seed, seeds), seedNames) + b + Entries(Light, lights);
            LightPeers(nodes, initialHeight) && LightsNumbered(nodes, versions, initialHeight)
  {
    var pop := Population(seeds, vals, fulls);
    var seedNames, providers := SeedNames(pop), ProviderNames(pop, initialHeight);
    var a, c := MeshSeeds(Entries(Seed, seeds), seedNames), Entries(Light, lights);
    MeshedFromSeeds(seeds, vals, fulls);
    SortedUnwired(vals, fulls, sorted);
    WiredShape(sorted, b, seedNames);
    ProvidersWired(seeds, vals, fulls, sorted, b, seedNames, initialHeight);
    WiredProviders(seeds, vals, fulls, sorted, b, seedNames, initialHeight);
    LightsFacts(lights, versions, initialHeight, providers);
    LightPeersOk(a, b, c, seedNames, initialHeight, providers);
    KeepsLights(lights, versions, initialHeight);
  }

  /** The seed part's names carry the seed role. */
  lemma SeedPartRoles(seeds: seq<Node>, seedNames: seq<string>)
    requires Fresh(seeds, Seed)
    ensures RoleNamed(MeshSeeds(Entries(Seed, seeds), seedNames))
  {
    var es := Entries(Seed, seeds);
    EntriesFacts(Seed, seeds);
    var a := MeshSeeds(es, seedNames);
    forall e | e in a ensures ModeOf(e.name) == Some(e.node.mode) {
      var j :| 0 <= j < |a| && a[j] == e;
      assert es[j] in es;
    }
  }

  /** The wired part's names carry their nodes' roles. */
  lemma WiredPartRoles(vals: seq<Node>, fulls: seq<Node>, sorted: seq<Entry>, b: seq<Entry>, seedNames: seq<string>)
    requires Fresh(vals, Validator) && Fresh(fulls, Full)
    requires multiset(sorted) == multiset(PeerEntries(vals, fulls))
    requires WiredPart(sorted, b, seedNames)
    ensures RoleNamed(b)
  {
    PeerEntriesFacts(vals, fulls);
    forall e | e in b ensures ModeOf(e.name) == Some(e.node.mode) {
      var k :| 0 <= k < |b| && b[k] == e;
      assert sorted[k] in multiset(sorted);
      SameConfigProvider(sorted[k].node, b[k].node, 0);
    }
  }

  /** The light part's names carry the light role. */
  lemma LightPartRoles(lights: seq<Node>, initialHeight: nat, providers: seq<string>)
    requires LightPart(Entries(Light, lights), initialHeight, providers)
    ensures RoleNamed(Entries(Light, lights))
  {
    EntriesFacts(Light, lights);
  }

  /** Peer discovery and light clients for a generated set of seeds,
      validators and full nodes: the seed mesh, the wiring of the others in
      (start height, name) order, then `lightCount` light clients served by
      the providers. The table lists every node once under its name. */
  method Assemble(s: Stream, versions: seq<string>, seeds: seq<Node>, vals: seq<Node>, fulls: seq<Node>,
                  lightCount: nat, initialHeight: nat)
    returns (nodes: seq<Entry>, rest: Stream)
    requires |versions| > 0
    requires Fresh(seeds, Seed) && Fresh(vals, Validator) && Fresh(fulls, Full)
    ensures UniqueNames(nodes) && RoleNamed(nodes)
    ensures NameSetOf(nodes) ==
            NameSet(Seed, |seeds|) + NameSet(Validator, |vals|) + NameSet(Full, |fulls|) + NameSet(Light, lightCount)
    ensures Keeps(nodes, Seed, seeds) && Keeps(nodes, Validator, vals) && Keeps(nodes, Full, fulls)
    ensures LightsNumbered(nodes, versions, initialHeight)
    ensures SeedMesh(nodes) && SeedsOrPeers(nodes) && PeersEarlier(nodes)
    ensures LightPeers(nodes, initialHeight)
  {
    var pop := Population(seeds, vals, fulls);
    var seedNames := SeedNames(pop);
    var providers := ProviderNames(pop, initialHeight);
    PartitionSeeds(seeds, vals, fulls);
    PartitionPeers(seeds, vals, fulls);
    PeerEntriesFacts(vals, fulls);
    var meshed := MeshSeeds(Filter(pop, IsSeedEntry), seedNames);
    var sorted := SortByStart(Filter(pop, IsPeerEntry));
    var wired;
    wired, rest := WirePeers(sorted, seedNames, s);
    var lights;
    lights, rest := AddLights(rest, versions, initialHeight, lightCount, providers);
    nodes := meshed + wired + Entries(Light, lights);
    LightsFacts(lights, versions, initialHeight, providers);
    TableShape(seeds, vals, fulls, lights, sorted, wired, seedNames);
    SeedPartRoles(seeds, seedNames);
    WiredPartRoles(vals, fulls, sorted, wired, seedNames);
    LightPartRoles(lights, initialHeight, providers);
    TableKeeps(seeds, vals, fulls, lights, sorted, wired, seedNames);
    TableMesh(seeds, vals, fulls, lights, sorted, wired, initialHeight);
    TableSeedsOrPeers(seeds, vals, fulls, lights, sorted, wired, initialHeight);
    TablePeersEarlier(seeds, vals, fulls, lights, sorted, wired, initialHeight);
    TableLights(seeds, vals, fulls, lights, sorted, wired, versions, initialHeight);
  }
}
