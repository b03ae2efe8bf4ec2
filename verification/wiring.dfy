/** Peer discovery of one testnet (test/e2e/generator/generate.go, lines
    197-240). Seed nodes are fully meshed with each other; every other node
    either bootstraps from some seeds or connects directly to some nodes that
    come before it in the (start height, name) order, so persistent peers
    never point forward in time. The node table is handled as a list of named
    entries, in the order the roles were generated. */
module Wiring {
  import opened Text
  import opened Lists
  import opened Draws
  import opened Manifests

  predicate IsSeedEntry(e: Entry)
  {
    e.node.mode == Seed
  }

  predicate IsPeerEntry(e: Entry)
  {
    e.node.mode != Seed
  }

  /** A validator or full node that can serve light clients: it is there from
      the start (height 0 or the initial height) and keeps every block. */
  predicate IsProvider(e: Entry, initialHeight: nat)
  {
    && e.node.mode != Seed
    && (e.node.startAt == 0 || e.node.startAt == initialHeight)
    && e.node.storage.retainBlocks == 0
  }

  /** The names of the seed nodes, in table order. */
  function SeedNames(es: seq<Entry>): (r: seq<string>)
    ensures forall j :: 0 <= j < |es| && IsSeedEntry(es[j]) ==> es[j].name in r
    ensures forall x :: x in r ==> exists j :: 0 <= j < |es| && IsSeedEntry(es[j]) && es[j].name == x
  {
    var seeds := Filter(es, IsSeedEntry);
    var r := NamesOf(seeds);
    assert forall j :: 0 <= j < |es| && IsSeedEntry(es[j]) ==> es[j] in seeds;
    assert forall x :: x in r ==> exists e :: e in seeds && e.name == x;
    r
  }

  /** The names of the light-client providers, in table order. */
  function ProviderNames(es: seq<Entry>, initialHeight: nat): (r: seq<string>)
    ensures forall j :: 0 <= j < |es| && IsProvider(es[j], initialHeight) ==> es[j].name in r
    ensures forall x :: x in r ==> exists j :: 0 <= j < |es| && IsProvider(es[j], initialHeight) && es[j].name == x
  {
    var providers := Filter(es, e => IsProvider(e, initialHeight));
    var r := NamesOf(providers);
    assert forall j :: 0 <= j < |es| && IsProvider(es[j], initialHeight) ==> es[j] in providers;
    assert forall x :: x in r ==> exists e :: e in providers && e.name == x;
    r
  }

  /** The seed names other than `self`, order kept. */
  function Others(names: seq<string>, self: string): (r: seq<string>)
    ensures forall x :: x in r <==> x in names && x != self
  {
    Filter(names, x => x != self)
  }

  /** The seed mesh: every seed node gets every other seed, and never
      itself, as a seed; nothing else changes. */
  function MeshSeeds(es: seq<Entry>, seedNames: seq<string>): (r: seq<Entry>)
    ensures |r| == |es|
    ensures forall j :: 0 <= j < |es| ==> r[j].name == es[j].name && SameConfig(r[j].node, es[j].node)
    ensures forall j :: 0 <= j < |es| && !IsSeedEntry(es[j]) ==> r[j] == es[j]
    ensures forall j :: 0 <= j < |es| ==> r[j].node.persistentPeers == es[j].node.persistentPeers
    ensures forall j, x :: 0 <= j < |es| && IsSeedEntry(es[j]) ==>
              (x in r[j].node.seeds <==> x in es[j].node.seeds || (x in seedNames && x != es[j].name))
  {
    seq(|es|, (j: nat) requires j < |es| =>
      var e := es[j];
      if IsSeedEntry(e) then Entry(e.name, e.node.(seeds := e.node.seeds + Others(seedNames, e.name))) else e)
  }

  /** The order non-seed nodes are wired in: by start height, ties broken by name. */
  predicate Earlier(a: Entry, b: Entry)
  {
    a.node.startAt < b.node.startAt || (a.node.startAt == b.node.startAt && StrLess(a.name, b.name))
  }

  predicate SortedByStart(es: seq<Entry>)
  {
    forall i, j :: 0 <= i < j < |es| ==> Earlier(es[i], es[j])
  }

  lemma EarlierTransitive(a: Entry, b: Entry, c: Entry)
    requires Earlier(a, b) && Earlier(b, c)
    ensures Earlier(a, c)
  {
    if a.node.startAt == b.node.startAt == c.node.startAt {
      StrLessTransitive(a.name, b.name, c.name);
    }
  }

  /** Two differently named nodes are always ordered one way or the other,
      and never both ways. */
  lemma EarlierTotal(a: Entry, b: Entry)
    requires a.name != b.name
    ensures Earlier(a, b) || Earlier(b, a)
    ensures !(Earlier(a, b) && Earlier(b, a))
  {
    StrLessTotal(a.name, b.name);
    if Earlier(a, b) && a.node.startAt == b.node.startAt {
      StrLessAsymmetric(a.name, b.name);
    }
  }

  /** Insertion into a list sorted by `Earlier`: `e` goes before the first
      node it precedes. */
  function Insert(e: Entry, es: seq<Entry>): (r: seq<Entry>)
    ensures multiset(r) == multiset(es) + multiset{e}
    ensures forall x :: x in r <==> x in es || x == e
  {
    if |es| == 0 || Earlier(e, es[0]) then [e] + es
    else
      assert es == [es[0]] + es[1..];
      [es[0]] + Insert(e, es[1..])
  }

  /** A node ordered before, and named apart from, every node of a sorted
      list can go in front of it. */
  lemma ConsSorted(h: Entry, tail: seq<Entry>)
    requires SortedByStart(tail) && UniqueNames(tail)
    requires forall x :: x in tail ==> Earlier(h, x) && x.name != h.name
    ensures SortedByStart([h] + tail) && UniqueNames([h] + tail)
  {
    var r := [h] + tail;
    forall i, j | 0 <= i < j < |r| ensures Earlier(r[i], r[j]) && r[i].name != r[j].name {
      if i > 0 {
        assert r[i] == tail[i - 1] && r[j] == tail[j - 1];
      } else {
        assert r[j] in tail;
      }
    }
  }

  /** Inserting a node under a fresh name keeps the list sorted and its names unique. */
  lemma {:induction false} InsertSorted(e: Entry, es: seq<Entry>)
    requires SortedByStart(es) && UniqueNames(es)
    requires forall x :: x in es ==> x.name != e.name
    ensures SortedByStart(Insert(e, es)) && UniqueNames(Insert(e, es))
  {
    if |es| == 0 || Earlier(e, es[0]) {
      forall x | x in es ensures Earlier(e, x) && x.name != e.name {
        var j :| 0 <= j < |es| && es[j] == x;
        if j > 0 {
          EarlierTransitive(e, es[0], es[j]);
        }
      }
      ConsSorted(e, es);
    } else {
      EarlierTotal(e, es[0]);
      var tail := Insert(e, es[1..]);
      UniqueTail(es);
      InsertSorted(e, es[1..]);
      forall x | x in tail ensures Earlier(es[0], x) && x.name != es[0].name {
        if x != e {
          var j :| 0 <= j < |es| - 1 && es[1..][j] == x;
          assert es[j + 1] == x;
        }
      }
      ConsSorted(es[0], tail);
    }
  }

  /** `sort.Slice` on the peer names with the (start height, name) order:
      the same nodes, strictly ordered. */
  function SortByStart(es: seq<Entry>): (r: seq<Entry>)
    requires UniqueNames(es)
    ensures SortedByStart(r) && UniqueNames(r)
    ensures multiset(r) == multiset(es)
  {
    if |es| == 0 then []
    else
      UniqueTail(es);
      var tail := SortByStart(es[1..]);
      SortedTailFresh(es, tail);
      InsertSorted(es[0], tail);
      Insert(es[0], tail)
  }

  /** A permutation of the rest of a uniquely named list holds no node
      named like its head. */
  lemma SortedTailFresh(es: seq<Entry>, tail: seq<Entry>)
    requires |es| > 0 && UniqueNames(es)
    requires multiset(tail) == multiset(es[1..])
    ensures forall x :: x in tail ==> x.name != es[0].name
    ensures multiset(es) == multiset(tail) + multiset{es[0]}
  {
    UniqueTail(es);
    forall x | x in tail ensures x.name != es[0].name {
      assert x in multiset(es[1..]);
    }
    assert es == [es[0]] + es[1..];
  }

  /** How a non-seed node's discovery lists may be set, given the seed names
      and the names of the nodes sorted before it: it bootstraps from some
      seeds, or connects to some earlier nodes, or (only when there are
      neither) stays as it was. The first node uses seeds whenever there are
      any. */
  predicate WiredAs(before: Node, after: Node, seedNames: seq<string>, earlier: seq<string>)
  {
    && SameConfig(before, after)
    && (|| (|seedNames| > 0 && IsSubList(after.seeds, seedNames) && after.persistentPeers == before.persistentPeers)
        || (|earlier| > 0 && after.seeds == before.seeds && IsSubList(after.persistentPeers, earlier))
        || (|seedNames| == 0 && |earlier| == 0 && after == before))
  }

  /** The wiring loop over the sorted non-seed nodes. */
  method WirePeers(sorted: seq<Entry>, seedNames: seq<string>, s: Stream) returns (wired: seq<Entry>, rest: Stream)
    ensures |wired| == |sorted|
    ensures forall i :: 0 <= i < |sorted| ==> wired[i].name == sorted[i].name
    ensures forall i :: 0 <= i < |sorted| ==>
              WiredAs(sorted[i].node, wired[i].node, seedNames, NamesOf(sorted[..i]))
  {
    wired, rest := [], s;
    while |wired| < |sorted|
      invariant |wired| <= |sorted|
      invariant forall i :: 0 <= i < |wired| ==> wired[i].name == sorted[i].name
      invariant forall i :: 0 <= i < |wired| ==>
                  WiredAs(sorted[i].node, wired[i].node, seedNames, NamesOf(sorted[..i]))
    {
      var i := |wired|;
      var e := sorted[i];
      var useSeeds := false;
      if |seedNames| > 0 {
        if i == 0 {
          useSeeds := true;
        } else {
          var c := Coin(rest);
          useSeeds, rest := c.value, c.rest;
        }
      }
      var node := e.node;
      if useSeeds {
        var choice := SubList(rest, seedNames);
        node, rest := node.(seeds := choice.value), choice.rest;
      } else if i > 0 {
        var choice := SubList(rest, NamesOf(sorted[..i]));
        node, rest := node.(persistentPeers := choice.value), choice.rest;
      }
      wired := wired + [Entry(e.name, node)];
    }
  }
}
