/** Generation of one node (test/e2e/generator/generate.go, lines 252-318):
    independent random draws for every setting, followed by the repair of the
    storage settings into a consistent combination. */
module NodeGen {
  import opened Results
  import opened Draws
  import opened Manifests

  /** The repair applied after the storage draws: force archive mode when
      asked; when the node never persists yet prunes, a coin decides between
      keeping every block and persisting at the retention interval; finally a
      pruning node's retention is raised to its persist and snapshot
      intervals. */
  function Reconcile(st: Storage, forceArchive: bool, s: Stream): (r: Drawn<Storage>)
    ensures forceArchive ==> IsArchive(r.value)
    ensures RetentionConsistent(r.value)
    ensures r.value.snapshotInterval == (if forceArchive then 3 else st.snapshotInterval)
    ensures r.value.retainBlocks == 0 || r.value.retainBlocks >= st.retainBlocks
    ensures r.value.persistInterval == st.persistInterval
            || (st.persistInterval == Some(0) && r.value.persistInterval.Some?
                && 0 < r.value.persistInterval.value <= r.value.retainBlocks)
    ensures !forceArchive && RetentionConsistent(st) ==> r == Drawn(st, s)
  {
    var retain := if forceArchive then 0 else st.retainBlocks;
    var snapshot := if forceArchive then 3 else st.snapshotInterval;
    var fixed :=
      if st.persistInterval == Some(0) && retain > 0 then
        var c := Coin(s);
        if c.value then Drawn(Storage(st.persistInterval, snapshot, 0), c.rest)
        else Drawn(Storage(Some(retain), snapshot, retain), c.rest)
      else Drawn(Storage(st.persistInterval, snapshot, retain), s);
    var f := fixed.value;
    if f.retainBlocks > 0 then
      var raised :=
        if f.persistInterval.Some? && f.retainBlocks < f.persistInterval.value
        then f.persistInterval.value else f.retainBlocks;
      var raised' := if raised < f.snapshotInterval then f.snapshotInterval else raised;
      Drawn(f.(retainBlocks := raised'), fixed.rest)
    else fixed
  }

  /** Repairing an already repaired setting changes nothing and draws nothing. */
  lemma ReconcileIdempotent(st: Storage, forceArchive: bool, s: Stream, s': Stream)
    ensures var r := Reconcile(st, forceArchive, s).value;
            Reconcile(r, forceArchive, s') == Drawn(r, s')
  {
    var r := Reconcile(st, forceArchive, s).value;
    if forceArchive {
      assert IsArchive(r);
    }
  }

  /** `generateNode`: a node of the given role starting at `startAt`, with
      every setting drawn from its option list and the storage repaired.
      Peers and seeds are left empty; they are wired once the whole topology
      is known. */
  method GenerateNode(s: Stream, versions: seq<string>, mode: Mode, startAt: nat, forceArchive: bool)
    returns (node: Node, rest: Stream)
    requires |versions| > 0
    ensures WellFormed(node, versions)
    ensures node.mode == mode && node.startAt == startAt
    ensures forceArchive ==> IsArchive(node.storage)
    ensures node.privvalProtocol in PrivvalProtocols && node.blockSync in BlockSyncs
    ensures node.mempool in Mempools
    ensures node.storage.persistInterval.Some?
    ensures node.storage.snapshotInterval in SnapshotIntervals || forceArchive
    ensures forall p :: p in node.perturb ==> p in Perturbations
    ensures node.seeds == [] && node.persistentPeers == []
  {
    var version := Pick(s, versions);
    var database := Pick(version.rest, Databases);
    var privval := Pick(database.rest, PrivvalProtocols);
    var blockSync := Pick(privval.rest, BlockSyncs);
    var mempool := Pick(blockSync.rest, Mempools);
    var stateSync := Pick(mempool.rest, StateSyncs);
    var persist := Pick(stateSync.rest, PersistIntervals);
    var snapshot := Pick(persist.rest, SnapshotIntervals);
    var retain := Pick(snapshot.rest, RetainBlockChoices);
    var perturb := SubList(retain.rest, Perturbations);
    var storage := Reconcile(Storage(Some(persist.value), snapshot.value, retain.value), forceArchive, perturb.rest);
    node := Node(version.value, mode, startAt, database.value, privval.value, blockSync.value, mempool.value,
                 stateSync.value && startAt > 0, storage.value, perturb.value, [], []);
    rest := storage.rest;
  }

  /** `generateLightNode`: a light client that never persists and takes the
      given providers as its persistent peers. */
  method GenerateLightNode(s: Stream, versions: seq<string>, startAt: nat, providers: seq<string>)
    returns (node: Node, rest: Stream)
    requires |versions| > 0
    ensures WellFormed(node, versions)
    ensures node.mode == Light && node.startAt == startAt
    ensures node.storage.persistInterval == Some(0) && node.storage.retainBlocks == 0
    ensures node.persistentPeers == providers && node.seeds == []
  {
    var version := Pick(s, versions);
    var database := Pick(version.rest, Databases);
    node := Node(version.value, Light, startAt, database.value, "", "", "", false, Storage(Some(0), 0, 0), [], [], providers);
    rest := database.rest;
  }
}
