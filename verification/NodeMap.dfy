/**
 The chained hash map of data_model.c over the schema tree, and the class that keeps tree and map in step.

 The link next_node_map_link of each node is kept in its own table, so that the tree and the map can be spoken of
 separately.
 */
module NodeMap {
  import opened CommonDefs
  import opened SchemaTree

  type Links = map<nat, Option<nat>>

  function At(c: seq<nat>, i: nat): Option<nat> {
    if i < |c| then Some(c[i]) else None
  }

  /** head and the links from it are exactly the chain c. */
  predicate IsChain(next: Links, head: Option<nat>, c: seq<nat>) {
    head == At(c, 0) && forall i :: 0 <= i < |c| ==> c[i] in next && next[c[i]] == At(c, i + 1)
  }

  /** Chain b holds nodes that hash to bucket b. */
  predicate InBucket(h: Heap, size: nat, c: seq<nat>, b: nat, linked: set<nat>)
    requires size > 0
  {
    forall i :: 0 <= i < |c| ==> c[i] in linked && c[i] in h && Rem(h[c[i]].hash, size) == b
  }

  predicate ChainsHold(h: Heap, next: Links, buckets: seq<Option<nat>>, chains: seq<seq<nat>>, linked: set<nat>) {
    && |chains| == |buckets| > 0
    && (forall b :: 0 <= b < |buckets| ==>
          && IsChain(next, buckets[b], chains[b]) && NoRepeats(chains[b])
          && InBucket(h, |buckets|, chains[b], b, linked))
  }

  /** The chains are finite and hold exactly the linked nodes, each once, in the bucket of its hash. */
  predicate IsMap(h: Heap, next: Links, buckets: seq<Option<nat>>, chains: seq<seq<nat>>, linked: set<nat>) {
    && ChainsHold(h, next, buckets, chains, linked)
    && forall p :: p in linked ==> p in h && p in chains[Rem(h[p].hash, |buckets|)]
  }

  /** The map only depends on the hashes of the linked nodes. */
  lemma MapFrame(h: Heap, g: Heap, next: Links, next': Links, buckets: seq<Option<nat>>, chains: seq<seq<nat>>,
    linked: set<nat>)
    requires IsMap(h, next, buckets, chains, linked)
    requires forall p :: p in linked ==> p in g && p in h && g[p].hash == h[p].hash
    requires forall p :: p in linked && p in next ==> p in next' && next'[p] == next[p]
    ensures IsMap(g, next', buckets, chains, linked)
  {
    forall b | 0 <= b < |buckets|
      ensures IsChain(next', buckets[b], chains[b]) && NoRepeats(chains[b]) && InBucket(g, |buckets|, chains[b], b,
          linked)
    {
      assert IsChain(next, buckets[b], chains[b]) && InBucket(h, |buckets|, chains[b], b, linked);
    }
  }

  lemma PushKeepsChain(next: Links, head: Option<nat>, c: seq<nat>, p: nat)
    requires IsChain(next, head, c) && p !in c
    ensures IsChain(next[p := head], Some(p), [p] + c)
  {
    var d := [p] + c;
    forall i | 0 <= i < |d|
      ensures d[i] in next[p := head] && next[p := head][d[i]] == At(d, i + 1)
    {
      if i > 0 {
        assert d[i] == c[i - 1];
      }
    }
  }

  /** LinkToNodeMap pushes p to the front of the chain of its hash. */
  lemma PushKeepsMap(h: Heap, next: Links, buckets: seq<Option<nat>>, chains: seq<seq<nat>>, linked: set<nat>,
    p: nat, b: nat)
    requires IsMap(h, next, buckets, chains, linked) && p in h && p !in linked && b == Rem(h[p].hash, |buckets|)
    ensures b < |buckets| == |chains|
    ensures IsMap(h, next[p := buckets[b]], buckets[b := Some(p)], chains[b := [p] + chains[b]], linked + {p})
  {
    var next', buckets', chains' := next[p := buckets[b]], buckets[b := Some(p)], chains[b := [p] + chains[b]];
    hide IsChain, InBucket, NoRepeats;
    forall a | 0 <= a < |buckets|
      ensures IsChain(next', buckets'[a], chains'[a]) && NoRepeats(chains'[a])
      ensures InBucket(h, |buckets|, chains'[a], a, linked + {p})
    {
      assert IsChain(next, buckets[a], chains[a]) && NoRepeats(chains[a]) && InBucket(h, |buckets|, chains[a], a,
          linked);
      PushOneChain(h, next, buckets[a], chains[a], |buckets|, a, linked, p, buckets[b]);
    }
    forall q | q in linked + {p} ensures q in h && q in chains'[Rem(h[q].hash, |buckets|)] {
      if q == p {
        assert chains'[b][0] == p;
      } else {
        assert q in chains[Rem(h[q].hash, |buckets|)];
      }
    }
  }

  lemma PushOneChain(h: Heap, next: Links, head: Option<nat>, c: seq<nat>, size: nat, a: nat, linked: set<nat>,
    p: nat, to: Option<nat>)
    requires size > 0 && p in h && p !in linked
    requires IsChain(next, head, c) && NoRepeats(c) && InBucket(h, size, c, a, linked)
    ensures IsChain(next[p := to], head, c) && InBucket(h, size, c, a, linked + {p})
    ensures head == to ==> IsChain(next[p := to], Some(p), [p] + c)
    ensures NoRepeats([p] + c)
    ensures Rem(h[p].hash, size) == a ==> InBucket(h, size, [p] + c, a, linked + {p})
  {
    assert p !in c;
    if head == to {
      PushKeepsChain(next, head, c, p);
    }
  }

  function Cut(c: seq<nat>, k: nat): (d: seq<nat>)
    requires k < |c|
    ensures |d| == |c| - 1
    ensures forall i :: 0 <= i < k ==> d[i] == c[i]
    ensures forall i :: k <= i < |d| ==> d[i] == c[i + 1]
  {
    c[..k] + c[k + 1..]
  }

  lemma CutMembers(c: seq<nat>, k: nat)
    requires k < |c| && NoRepeats(c)
    ensures NoRepeats(Cut(c, k)) && forall x :: x in Cut(c, k) <==> x in c && x != c[k]
  {
    var d := Cut(c, k);
    forall x | x in c && x != c[k] ensures x in d {
      var i :| 0 <= i < |c| && c[i] == x;
      assert d[if i < k then i else i - 1] == x;
    }
  }

  /** UnlinkFromNodeMap's two cases on one chain: p at the head, or after some other node. */
  function LinksWithout(next: Links, c: seq<nat>, k: nat): Links
    requires k < |c| && c[k] in next
  {
    (if k == 0 then next else next[c[k - 1] := next[c[k]]])[c[k] := None]
  }

  lemma CutKeepsChain(next: Links, head: Option<nat>, c: seq<nat>, k: nat)
    requires IsChain(next, head, c) && NoRepeats(c) && k < |c|
    ensures IsChain(LinksWithout(next, c, k), if k == 0 then next[c[0]] else head, Cut(c, k))
  {
    var next', d := LinksWithout(next, c, k), Cut(c, k);
    forall i | 0 <= i < |d|
      ensures d[i] in next' && next'[d[i]] == At(d, i + 1)
    {
      var j := if i < k then i else i + 1;
      assert d[i] == c[j] && c[j] != c[k];
      if j + 1 == k {
        assert next'[c[j]] == next[c[k]];
      } else if k > 0 {
        assert c[j] != c[k - 1];
      }
    }
  }

  lemma CutKeepsMap(h: Heap, next: Links, buckets: seq<Option<nat>>, chains: seq<seq<nat>>, linked: set<nat>,
    b: nat, k: nat)
    requires IsMap(h, next, buckets, chains, linked) && b < |chains| && k < |chains[b]|
    ensures chains[b][k] in next && chains[b][k] in linked
    ensures IsMap(h, LinksWithout(next, chains[b], k), if k == 0 then buckets[b := next[chains[b][0]]] else buckets,
                  chains[b := Cut(chains[b], k)], linked - {chains[b][k]})
  {
    var c := chains[b];
    var p := c[k];
    assert IsChain(next, buckets[b], c) && InBucket(h, |buckets|, c, b, linked) && NoRepeats(c);
    var next', chains', linked' := LinksWithout(next, c, k), chains[b := Cut(c, k)], linked - {p};
    var buckets' := if k == 0 then buckets[b := next[c[0]]] else buckets;
    CutMembers(c, k);
    hide Cut, IsChain, InBucket, NoRepeats, LinksWithout;
    forall a | 0 <= a < |buckets|
      ensures IsChain(next', buckets'[a], chains'[a]) && NoRepeats(chains'[a])
      ensures InBucket(h, |buckets|, chains'[a], a, linked')
    {
      assert IsChain(next, buckets[a], chains[a]) && NoRepeats(chains[a]) && InBucket(h, |buckets|, chains[a], a,
          linked);
      if a == b {
        CutKeepsChain(next, buckets[b], c, k);
        CutInBucket(h, |buckets|, c, b, linked, k);
      } else {
        OtherChain(h, next, |buckets|, buckets[a], chains[a], a, c, b, linked, k);
      }
    }
    forall q | q in linked' ensures q in h && q in chains'[Rem(h[q].hash, |buckets|)] {
      assert q in chains[Rem(h[q].hash, |buckets|)];
    }
  }

  lemma CutInBucket(h: Heap, size: nat, c: seq<nat>, b: nat, linked: set<nat>, k: nat)
    requires size > 0 && InBucket(h, size, c, b, linked) && k < |c| && NoRepeats(c)
    ensures InBucket(h, size, Cut(c, k), b, linked - {c[k]})
  {
    var d := Cut(c, k);
    forall i | 0 <= i < |d| ensures d[i] in linked - {c[k]} && d[i] in h && Rem(h[d[i]].hash, size) == b {
      var j := if i < k then i else i + 1;
      assert d[i] == c[j];
    }
  }

  /** Chains of different buckets share no node, so the others are left as they are. */
  lemma OtherChain(h: Heap, next: Links, size: nat, head: Option<nat>, d: seq<nat>, a: nat, c: seq<nat>, b: nat,
    linked: set<nat>, k: nat)
    requires size > 0 && a != b && k < |c| && c[k] in next
    requires IsChain(next, head, d) && InBucket(h, size, d, a, linked) && InBucket(h, size, c, b, linked)
    ensures IsChain(LinksWithout(next, c, k), head, d) && InBucket(h, size, d, a, linked - {c[k]})
  {
  }

  lemma CreateStep(s: Schema, name: string, kind: NodeType, path: string, hashOf: string -> nat)
    requires WellFormed(s, hashOf)
    ensures s.created !in s.h
    ensures WellFormed(Apply(s, Create(name, kind, path), hashOf), hashOf)
    ensures Apply(s, Create(name, kind, path), hashOf) ==
            if HashTaken(s.h, hashOf(path)) then s
            else Schema(s.h[s.created := Node(name, path, hashOf(path), kind, None, [], 0)], s.created + 1)
  {
    ApplyKeeps(s, Create(name, kind, path), hashOf);
  }

  /** Looking for a hash among the nodes of h finds it exactly when it is taken there. */
  lemma AnyHash(h: Heap, g: Heap, hash: nat)
    requires forall q :: q in h ==> q in g && g[q] == h[q]
    ensures HashTaken(h, hash) <==> !forall q :: q in h.Keys && q in g ==> g[q].hash != hash
  {
  }

  lemma WriteTwice(h: Heap, p: nat, a: Node, b: Node)
    ensures h[p := a][p := b] == h[p := b]
  {
  }

  lemma AddChildStep(s: Schema, up: nat, name: string, kind: NodeType, path: string, order: nat, hashOf: string -> nat)
    requires WellFormed(s, hashOf) && up in s.h
    ensures WellFormed(Apply(s, AddChild(up, name, kind, path, order), hashOf), hashOf)
    ensures HashTaken(s.h, hashOf(path)) ==>
              Apply(s, AddChild(up, name, kind, path, order), hashOf) == s == Apply(s, Create(name, kind, path), hashOf)
    ensures !HashTaken(s.h, hashOf(path)) ==>
              var g := Apply(s, Create(name, kind, path), hashOf);
              && ChildrenHold(g.h) && up in g.h && s.created in g.h && up != s.created
              && Apply(s, AddChild(up, name, kind, path, order), hashOf) ==
                   Schema(Attached(g.h, up, s.created, order), g.created)
  {
    ApplyKeeps(s, AddChild(up, name, kind, path, order), hashOf);
    ApplyKeeps(s, Create(name, kind, path), hashOf);
  }

  lemma OverrideStep(s: Schema, p: nat, kind: NodeType, path: string, order: nat, hashOf: string -> nat)
    requires WellFormed(s, hashOf) && p in s.h
    ensures s.h[p].hash == hashOf(s.h[p].path)
    ensures WellFormed(Apply(s, Override(p, kind, path, order), hashOf), hashOf)
    ensures Apply(s, Override(p, kind, path, order), hashOf) ==
            if path != s.h[p].path && HashTaken(s.h, hashOf(path)) then s
            else Schema(s.h[p := s.h[p].(kind := kind, path := path, hash := hashOf(path), order := order)], s.created)
  {
    ApplyKeeps(s, Override(p, kind, path, order), hashOf);
  }

  lemma DestroyStep(s: Schema, p: nat, hashOf: string -> nat)
    requires WellFormed(s, hashOf) && p in s.h && s.h[p].children == []
    ensures s.h[p].parent.Some? ==> s.h[p].parent.value in s.h && s.h[p].parent.value != p
    ensures WellFormed(Schema(Pruned(s.h, p), s.created), hashOf) && Destroyed(s.h, p) == Pruned(s.h, p)
  {
    RemovalKeeps(s, p, hashOf);
    DestroyedIsPruned(s.h, p);
  }

  lemma PartlyDestroyedStart(h: Heap, p: nat)
    requires IsTree(h) && p in h
    ensures PartlyDestroyed(h, h, p)
  {
  }

  lemma PartlyDestroyedStays(h: Heap, g: Heap, p: nat)
    requires IsTree(h) && PartlyDestroyed(h, g, p)
    ensures p in g
  {
  }

  lemma BelowCreated(s: Schema, p: nat, hashOf: string -> nat)
    requires HashesHold(s, hashOf) && p in s.h
    ensures p < s.created
  {
  }

  datatype Outcome = Done | NotFound | Nested | NullParent

  function DeRegisterOutcome(h: Heap, p: nat): Outcome
    requires ParentsHold(h) && p in h
  {
    if h[p].order > 1 then Nested else if h[Top(h, p)].parent.None? then NullParent else Done
  }

  lemma ParentStays(h: Heap, p: nat)
    requires IsTree(h) && p in h && h[p].parent.Some?
    ensures h[p].parent.value in Pruned(h, p)
  {
    if Under(h, p, h[p].parent.value) {
      UnderIsLater(h, p, h[p].parent.value);
      assert false;
    }
  }

  lemma ClimbStep(h: Heap, c: nat)
    requires IsTree(h) && c in h && h[c].parent.Some?
    requires h[c].parent.value in Pruned(h, c) && Pruned(h, c)[h[c].parent.value].children == []
    ensures var up := h[c].parent.value;
            && up < c && Top(h, c) == Top(h, up) && Pruned(h, c)[up].parent == h[up].parent
            && ParentsHold(Pruned(h, c)) && Pruned(Pruned(h, c), up) == Pruned(h, up)
            && up in h && (h[up].parent.Some? ==> h[up].parent.value in Pruned(h, up))
  {
    var up := h[c].parent.value;
    if |h[up].children| != 1 {
      PruneStops(h, c, up);
      assert false;
    }
    PruneUp(h, c, up);
    if h[up].parent.Some? {
      ParentStays(h, up);
    }
  }

  lemma ClimbStops(h: Heap, c: nat)
    requires IsTree(h) && c in h
    requires h[c].parent.Some? ==> h[c].parent.value in Pruned(h, c) && Pruned(h, c)[h[c].parent.value].children != []
    ensures Top(h, c) == c
  {
    if h[c].parent.Some? && |h[h[c].parent.value].children| == 1 {
      PruneUp(h, c, h[c].parent.value);
      assert false;
    }
  }

  class DataModel {
    const hashOf: string -> nat
    var nodes: Heap
    var next: Links
    var buckets: seq<Option<nat>>
    var created: nat
    ghost var chains: seq<seq<nat>>

    ghost predicate MapOk(linked: set<nat>)
      reads this
    {
      IsMap(nodes, next, buckets, chains, linked)
    }

    ghost function Value(): Schema
      reads this
    {
      Schema(nodes, created)
    }

    /** Tree and map agree: each node is in the map exactly once, in the bucket of the hash of its own path. */
    ghost predicate Valid()
      reads this
    {
      WellFormed(Value(), hashOf) && MapOk(nodes.Keys)
    }

    constructor (size: nat, hashOf: string -> nat)
      requires size > 0
      ensures Valid() && Value() == Schema(map[], 0) && this.hashOf == hashOf
    {
      this.hashOf := hashOf;
      nodes, next, created := map[], map[], 0;
      buckets := seq(size, _ => None);
      chains := seq(size, _ => []);
      new;
      EmptyKeeps(hashOf);
    }

    /** The map gives the linked node with this hash whenever there is one, as a plain map would. */
    method FindNodeFromHash(hash: nat, ghost linked: set<nat>) returns (r: Option<nat>)
      requires MapOk(linked)
      ensures r.Some? ==> r.value in linked && r.value in nodes && nodes[r.value].hash == hash
      ensures r.None? ==> forall p :: p in linked && p in nodes ==> nodes[p].hash != hash
    {
      var b := Rem(hash, |buckets|);
      ghost var c, k := chains[b], 0;
      assert IsChain(next, buckets[b], c) && InBucket(nodes, |buckets|, c, b, linked);
      r := buckets[b];
      while r.Some? && nodes[r.value].hash != hash
        invariant 0 <= k <= |c| && r == At(c, k)
        invariant forall i :: 0 <= i < k ==> c[i] in nodes && nodes[c[i]].hash != hash
        decreases |c| - k
      {
        r := next[r.value];
        k := k + 1;
      }
      if r.None? {
        forall p | p in linked && p in nodes ensures nodes[p].hash != hash {
          assert p in chains[Rem(nodes[p].hash, |buckets|)];
        }
      }
    }

    /** LinkToNodeMap: with the hash free, the node joins the map; otherwise the map is left as it was. */
    method LinkToNodeMap(p: nat, path: string, ghost linked: set<nat>) returns (ok: bool)
      requires MapOk(linked) && p in nodes && p !in linked && p in next && next[p] == None
      modifies `nodes, `next, `buckets, `chains
      ensures nodes == old(nodes)[p := old(nodes)[p].(hash := hashOf(path))]
      ensures ok <==> forall q :: q in linked && q in old(nodes) ==> old(nodes)[q].hash != hashOf(path)
      ensures ok ==> MapOk(linked + {p})
      ensures !ok ==> MapOk(linked) && next == old(next) && buckets == old(buckets) && chains == old(chains)
    {
      nodes := nodes[p := nodes[p].(hash := hashOf(path))];
      MapFrame(old(nodes), nodes, next, next, buckets, chains, linked);
      var n := FindNodeFromHash(hashOf(path), linked);
      if n.Some? {
        return false;
      }
      var b := Rem(nodes[p].hash, |buckets|);
      PushKeepsMap(nodes, next, buckets, chains, linked, p, b);
      var existing := buckets[b];
      if existing.Some? {
        next := next[p := existing];
      }
      assert next == old(next)[p := existing];
      buckets := buckets[b := Some(p)];
      chains := chains[b := [p] + chains[b]];
      ok := true;
    }

    /** UnlinkFromNodeMap: the node leaves its chain, wherever in it it is. */
    method UnlinkFromNodeMap(p: nat, ghost linked: set<nat>)
      requires MapOk(linked) && p in nodes
      requires p in linked || (p in next && next[p] == None && buckets[Rem(nodes[p].hash, |buckets|)].Some?)
      modifies `next, `buckets, `chains
      ensures MapOk(linked - {p}) && p in next && next[p] == None
      ensures p !in linked ==> next == old(next) && buckets == old(buckets)
    {
      var b := Rem(nodes[p].hash, |buckets|);
      ghost var c := chains[b];
      assert IsChain(next, buckets[b], c) && InBucket(nodes, |buckets|, c, b, linked);
      assert p in linked ==> p in c;
      ghost var k := 0;
      if buckets[b] == Some(p) {
        CutKeepsMap(nodes, next, buckets, chains, linked, b, 0);
        buckets := buckets[b := next[p]];
      } else {
        var before := buckets[b].value;
        var cur := next[before];
        k := 1;
        while cur != Some(p)
          invariant 1 <= k <= |c| && before == c[k - 1] && cur == At(c, k)
          invariant forall i :: 0 <= i < k ==> c[i] != p
          decreases |c| - k
        {
          if cur.None? {
            assert p !in c;
            assert linked - {p} == linked;
            return;
          }
          before := cur.value;
          cur := next[before];
          k := k + 1;
        }
        CutKeepsMap(nodes, next, buckets, chains, linked, b, k);
        next := next[before := next[p]];
      }
      next := next[p := None];
      chains := chains[b := Cut(c, k)];
    }

    /** CreateNode: a fresh node, in the map and not yet in the tree, unless its hash is taken. */
    method CreateNode(name: string, kind: NodeType, path: string) returns (r: Option<nat>)
      requires Valid()
      modifies this
      ensures Valid() && Value() == Apply(old(Value()), Create(name, kind, path), hashOf)
      ensures r == if HashTaken(old(nodes), hashOf(path)) then None else Some(old(created))
      ensures r.None? ==> next == old(next) && buckets == old(buckets)
    {
      hide IsMap, WellFormed, Apply, HashTaken;
      var p, was, links := created, nodes, next;
      CreateStep(Value(), name, kind, path, hashOf);
      var node := Node(name, path, 0, kind, None, [], 0);
      var ok := LinkFresh(p, node, path);
      if !ok {
        nodes, next := was, links;
        return None;
      }
      created := created + 1;
      r := Some(p);
    }

    /** Allocation and LinkToNodeMap together */
    method LinkFresh(p: nat, node: Node, path: string) returns (ok: bool)
      requires MapOk(nodes.Keys) && p !in nodes
      modifies `nodes, `next, `buckets, `chains
      ensures ok <==> !HashTaken(old(nodes), hashOf(path))
      ensures ok ==> nodes == old(nodes)[p := node.(hash := hashOf(path))] && MapOk(nodes.Keys)
      ensures !ok ==> buckets == old(buckets) && chains == old(chains)
    {
      ghost var was, keys := nodes, nodes.Keys;
      hide IsMap, HashTaken;
      nodes, next := nodes[p := node], next[p := None];
      MapFrame(was, nodes, old(next), next, buckets, chains, keys);
      AnyHash(was, nodes, hashOf(path));
      ok := LinkToNodeMap(p, path, keys);
      WriteTwice(was, p, node, nodes[p]);
      assert ok ==> nodes.Keys == keys + {p};
    }

    /** FindLinkToFirstObject */
    method FindLinkToFirstObject(c: seq<nat>) returns (k: nat)
      requires forall i :: 0 <= i < |c| ==> c[i] in nodes
      ensures k == FirstObject(nodes, c)
    {
      k := 0;
      while k < |c| && !IsObject(nodes[c[k]].kind)
        invariant k <= |c| && FirstObject(nodes, c) == k + FirstObject(nodes, c[k..])
      {
        assert c[k..][1..] == c[k + 1..];
        k := k + 1;
      }
    }

    /** The step of DM_PRIV_AddSchemaPath that adds a missing segment below the node up */
    method AddNode(up: nat, name: string, kind: NodeType, path: string, order: nat) returns (r: Option<nat>)
      requires Valid() && up in nodes
      modifies this
      ensures Valid() && Value() == Apply(old(Value()), AddChild(up, name, kind, path, order), hashOf)
      ensures r == if HashTaken(old(nodes), hashOf(path)) then None else Some(old(created))
    {
      hide IsMap, WellFormed, Apply, HashTaken, IsTree, ParentsHold, ChildrenHold, Inserted, InsertAt;
      AddChildStep(Value(), up, name, kind, path, order, hashOf);
      r := CreateNode(name, kind, path);
      if r.Some? {
        var p, was := r.value, nodes;
        AddToChildren(up, p, order);
        MapFrame(was, nodes, next, next, buckets, chains, nodes.Keys);
      }
    }

    /** The new child goes before the first object if it is a parameter, and to the tail if it is an object. */
    method AddToChildren(up: nat, p: nat, order: nat)
      requires ChildrenHold(nodes) && up in nodes && p in nodes && up != p
      modifies `nodes
      ensures nodes == Attached(old(nodes), up, p, order) && nodes.Keys == old(nodes).Keys
      ensures forall q :: q in nodes ==> nodes[q].hash == old(nodes)[q].hash
    {
      var c := nodes[up].children;
      var k := |c|;
      if !IsObject(nodes[p].kind) {
        k := FindLinkToFirstObject(c);
      }
      nodes := nodes[p := nodes[p].(parent := Some(up), order := order)];
      nodes := nodes[up := nodes[up].(children := InsertAt(c, k, p))];
    }

    /** OverrideNodeType: the node moves to the bucket of its new path, or nothing changes when that hash is taken. */
    method OverrideNodeType(p: nat, kind: NodeType, path: string, order: nat) returns (ok: bool)
      requires Valid() && p in nodes
      modifies this
      ensures Valid() && Value() == Apply(old(Value()), Override(p, kind, path, order), hashOf)
      ensures ok <==> path == old(nodes)[p].path || !HashTaken(old(nodes), hashOf(path))
      ensures !ok ==> next == old(next) && buckets == old(buckets)
    {
      hide IsMap, WellFormed, Apply, HashTaken;
      OverrideStep(Value(), p, kind, path, order, hashOf);
      ghost var was := nodes;
      AnyHash(was, was, hashOf(path));
      if nodes[p].path != path {
        var n := FindNodeFromHash(hashOf(path), nodes.Keys);
        if n.Some? {
          return false;
        }
        ReHome(p, path);
      }
      ghost var mid := nodes;
      nodes := nodes[p := nodes[p].(kind := kind, order := order)];
      assert nodes.Keys == mid.Keys;
      MapFrame(mid, nodes, next, next, buckets, chains, mid.Keys);
      WriteTwice(was, p, mid[p], nodes[p]);
      ok := true;
    }

    method ReHome(p: nat, path: string)
      requires MapOk(nodes.Keys) && p in nodes && forall q :: q in nodes ==> nodes[q].hash != hashOf(path)
      modifies `nodes, `next, `buckets, `chains
      ensures MapOk(nodes.Keys) && nodes == old(nodes)[p := old(nodes)[p].(path := path, hash := hashOf(path))]
    {
      hide IsMap;
      ghost var was, keys := nodes, nodes.Keys;
      UnlinkFromNodeMap(p, keys);
      var ok := LinkToNodeMap(p, path, keys - {p});
      ghost var mid := nodes;
      nodes := nodes[p := nodes[p].(path := path)];
      WriteTwice(was, p, mid[p], nodes[p]);
      assert keys - {p} + {p} == keys;
      assert nodes.Keys == keys;
      MapFrame(mid, nodes, next, next, buckets, chains, keys);
    }

    /** DestroyNode on a node without children */
    method DestroyNode(p: nat)
      requires Valid() && p in nodes && nodes[p].children == []
      modifies this
      ensures Valid() && nodes == Pruned(old(nodes), p) && created == old(created)
    {
      hide IsMap, WellFormed, HashesHold, Pruned, Destroyed;
      DestroyStep(Value(), p, hashOf);
      ghost var keys := nodes.Keys;
      UnlinkFromNodeMap(p, keys);
      RemoveNode(p);
      MapFrame(old(nodes), nodes, next, next, buckets, chains, keys - {p});
    }

    method RemoveNode(p: nat)
      requires p in nodes && (nodes[p].parent.Some? ==> nodes[p].parent.value in nodes && nodes[p].parent.value != p)
      modifies `nodes
      ensures nodes == Destroyed(old(nodes), p) && nodes.Keys == old(nodes).Keys - {p}
      ensures forall q :: q in nodes ==> nodes[q].hash == old(nodes)[q].hash
    {
      var parent := nodes[p].parent;
      if parent.Some? {
        nodes := nodes[parent.value := nodes[parent.value].(children := Without(nodes[parent.value].children, p))];
      }
      nodes := nodes - {p};
    }

    /** DestroySchemaRecursive: exactly the subtree goes, and only the parent's child list changes. */
    method DestroySchemaRecursive(p: nat)
      requires Valid() && p in nodes
      modifies this
      ensures Valid() && Value() == Apply(old(Value()), DestroySubtree(p), hashOf)
      decreases created - p
    {
      hide IsMap, Pruned, PartlyDestroyed, HashesHold, NoRepeats, ParentsHold, ChildrenHold;
      ghost var was := nodes;
      PartlyDestroyedStart(was, p);
      while nodes[p].children != []
        invariant Valid() && created == old(created) && p in nodes && PartlyDestroyed(was, nodes, p)
        decreases |nodes[p].children|
      {
        var c := nodes[p].children[0];
        DestroyChild(was, nodes, p, c);
        BelowCreated(Value(), c, hashOf);
        DestroySchemaRecursive(c);
        PartlyDestroyedStays(was, nodes, p);
      }
      DestroyLast(was, nodes, p);
      DestroyNode(p);
    }

    /**
     DATA_MODEL_DeRegisterPath once the node is found: the subtree goes, and then every ancestor left without children.
     The climb reads through a null parent pointer exactly when it has removed a root.
     */
    method DeRegisterNode(p: nat) returns (outcome: Outcome)
      requires Valid() && p in nodes
      modifies this
      ensures Valid() && Value() == Apply(old(Value()), DeRegister(p), hashOf)
      ensures outcome == DeRegisterOutcome(old(nodes), p)
    {
      hide IsMap, Top, Pruned, HashesHold, NoRepeats, ParentsHold, ChildrenHold;
      ghost var was := nodes;
      if nodes[p].order > 1 {
        return Nested;
      }
      var node := nodes[p].parent;
      DestroySchemaRecursive(p);
      ghost var c := p;
      if was[c].parent.Some? {
        ParentStays(was, c);
      }
      while node.Some? && nodes[node.value].children == []
        invariant Valid() && created == old(created)
        invariant c in was && nodes == Pruned(was, c) && Top(was, c) == Top(was, p)
        invariant node == was[c].parent && (node.Some? ==> node.value in nodes)
        decreases c
      {
        ClimbStep(was, c);
        var parent := nodes[node.value].parent;
        DestroyNode(node.value);
        c := node.value;
        node := parent;
      }
      ClimbStops(was, c);
      outcome := if node.None? then NullParent else Done;
    }
  }
}
