/** Paths and orders in the schema tree: each node's are its parent's, its own name and, for a table, an {i}. */
module SchemaNames {
  import opened CommonDefs
  import opened SchemaTree

  function ChildPath(up: Node, name: string, table: bool): string {
    up.path + "." + name + (if table then ".{i}" else "")
  }

  function ChildOrder(up: Node, table: bool): nat {
    up.order + if table then 1 else 0
  }

  /** Path and order of p are those of its place in the tree; a root is a single object, and its are its name and 0. */
  predicate Agrees(h: Heap, p: nat)
    requires p in h
  {
    match h[p].parent
    case None => h[p].path == h[p].name && h[p].order == 0 && h[p].kind.SingleInstance?
    case Some(up) =>
      && up in h && h[p].path == ChildPath(h[up], h[p].name, h[p].kind.MultiInstance?)
      && h[p].order == ChildOrder(h[up], h[p].kind.MultiInstance?)
  }

  predicate AllAgree(h: Heap) {
    forall p :: p in h ==> Agrees(h, p)
  }

  /** The override says of p what its place says, as a table or not. */
  predicate Placed(h: Heap, p: nat, path: string, order: nat, table: bool) {
    && p in h && h[p].parent.Some? && h[p].parent.value in h
    && path == ChildPath(h[h[p].parent.value], h[p].name, table) && order == ChildOrder(h[h[p].parent.value], table)
  }

  /** The arguments that DM_PRIV_AddSchemaPath builds up while it walks down from a root */
  predicate Built(h: Heap, op: Operation) {
    match op
    case Create(name, kind, path) => path == name && kind.SingleInstance?
    case AddChild(up, name, kind, path, order) =>
      && up in h && path == ChildPath(h[up], name, kind.MultiInstance?)
      && order == ChildOrder(h[up], kind.MultiInstance?)
    case Override(p, _, path, order) => Placed(h, p, path, order, false) || Placed(h, p, path, order, true)
    case _ => true
  }

  predicate CarriedOut(h: Heap, p: nat, path: string, hashOf: string -> nat)
    requires p in h
  {
    path == h[p].path || !HashTaken(h, hashOf(path))
  }

  /** As a table or not, this is what the path says; and what it was, if anything is registered below p. */
  predicate SuitsPath(h: Heap, p: nat, kind: NodeType, table: bool)
    requires p in h
  {
    kind.MultiInstance? == table && (h[p].children == [] || h[p].kind.MultiInstance? == table)
  }

  /** The operation is not an override that is carried out and does not suit the path. */
  predicate KeepsPaths(h: Heap, op: Operation, hashOf: string -> nat) {
    op.Override? && op.p in h && CarriedOut(h, op.p, op.path, hashOf) ==>
      SuitsPath(h, op.p, op.kind, Placed(h, op.p, op.path, op.order, true))
  }

  // ---------------------------------------------------------------- one operation

  lemma CreatedAgrees(h: Heap, p: nat, name: string, hash: nat, kind: NodeType)
    requires ParentsHold(h) && AllAgree(h) && p !in h && kind.SingleInstance?
    ensures AllAgree(Created(h, p, name, name, hash, kind))
  {
    var g := Created(h, p, name, name, hash, kind);
    forall q | q in g ensures Agrees(g, q) {
      assert q != p ==> Agrees(h, q);
    }
  }

  lemma AddedAgrees(s: Schema, up: nat, name: string, kind: NodeType, path: string, order: nat, hashOf: string -> nat)
    requires WellFormed(s, hashOf) && up in s.h && AllAgree(s.h) && !HashTaken(s.h, hashOf(path))
    requires Built(s.h, AddChild(up, name, kind, path, order))
    ensures AllAgree(Apply(s, AddChild(up, name, kind, path, order), hashOf).h)
  {
    var p := s.created;
    assert p !in s.h;
    hide Apply, Attached, HashTaken, NoRepeats, HashesHold, Inserted;
    AddChildIs(s, up, name, kind, path, order, hashOf);
    var h := Created(s.h, p, name, path, hashOf(path), kind);
    AttachedFields(h, up, p, order);
    var g := Attached(h, up, p, order);
    forall q | q in g ensures Agrees(g, q) {
      assert q != p ==> Agrees(s.h, q);
    }
  }

  lemma PrunedAgrees(h: Heap, p: nat)
    requires IsTree(h) && p in h && AllAgree(h)
    ensures AllAgree(Pruned(h, p))
  {
    hide Without;
    var g := Pruned(h, p);
    forall q | q in g ensures Agrees(g, q) {
      assert Agrees(h, q);
      if h[q].parent.Some? {
        assert !Under(h, p, h[q].parent.value);
      }
    }
  }

  /** Whether p agrees depends on a few fields of p and of its parent. */
  lemma AgreesSame(h: Heap, g: Heap, q: nat)
    requires q in h && q in g && Agrees(h, q)
    requires g[q].name == h[q].name && g[q].path == h[q].path && g[q].kind == h[q].kind && g[q].order == h[q].order
    requires g[q].parent == h[q].parent
    requires forall up :: h[q].parent == Some(up) && up in h ==>
        up in g && g[up].path == h[up].path && g[up].order == h[up].order
    ensures Agrees(g, q)
  {
  }

  /** An override that is carried out keeps all paths right if and only if it suits the path. */
  lemma RetypedAgreesExactly(h: Heap, p: nat, kind: NodeType, path: string, hash: nat, order: nat, table: bool)
    requires IsTree(h) && p in h && AllAgree(h) && Placed(h, p, path, order, table)
    ensures AllAgree(Retyped(h, p, kind, path, hash, order)) <==> SuitsPath(h, p, kind, table)
  {
    hide NoRepeats, ChildPath;
    var g, up := Retyped(h, p, kind, path, hash, order), h[p].parent.value;
    assert Agrees(h, p) && up != p;
    PathOfSame(h[up], g[up], h[p].name);
    assert Agrees(g, p) <==> kind.MultiInstance? == table;
    if h[p].children != [] {
      var c := h[p].children[0];
      assert c in h && h[c].parent == Some(p) && c != p;
      assert Agrees(h, c);
      assert Agrees(g, c) ==> order == h[p].order;
    }
    if SuitsPath(h, p, kind, table) {
      forall q | q in g ensures Agrees(g, q) {
        if q != p {
          assert Agrees(h, q);
          AgreesSame(h, g, q);
        }
      }
    }
  }

  lemma PathOfSame(a: Node, b: Node, name: string)
    requires a.path == b.path
    ensures ChildPath(a, name, true) == ChildPath(b, name, true)
    ensures ChildPath(a, name, false) == ChildPath(b, name, false)
  {
  }

  /** Every operation with such arguments keeps paths and orders right, except the overrides that do not suit them. */
  lemma ApplyAgrees(s: Schema, op: Operation, hashOf: string -> nat)
    requires WellFormed(s, hashOf) && Possible(s, op) && AllAgree(s.h) && Built(s.h, op)
    ensures AllAgree(Apply(s, op, hashOf).h) <==> KeepsPaths(s.h, op, hashOf)
  {
    hide AllAgree, HashTaken, IsTree, HashesHold;
    WellFormedIsTree(s, hashOf);
    match op
    case Create(name, kind, path) =>
      if !HashTaken(s.h, hashOf(path)) {
        FreshNumber(s, hashOf);
        CreatedAgrees(s.h, s.created, name, hashOf(path), kind);
      }
    case AddChild(up, name, kind, path, order) =>
      if !HashTaken(s.h, hashOf(path)) {
        AddedAgrees(s, up, name, kind, path, order, hashOf);
      }
    case Override(p, kind, path, order) =>
      if CarriedOut(s.h, p, path, hashOf) {
        RetypedAgreesExactly(s.h, p, kind, path, hashOf(path), order, Placed(s.h, p, path, order, true));
      }
    case DestroySubtree(p) => PrunedAgrees(s.h, p);
    case DeRegister(p) => PrunedAgrees(s.h, Top(s.h, p));
  }

  lemma FreshNumber(s: Schema, hashOf: string -> nat)
    requires WellFormed(s, hashOf)
    ensures s.created !in s.h && ParentsHold(s.h)
  {
  }

  // ---------------------------------------------------------------- over runs

  /** The first n operations have such arguments, and keep paths and orders right. */
  predicate AllKeepPaths(ss: seq<Schema>, ops: seq<Operation>, hashOf: string -> nat, n: nat)
    requires n <= |ops| <= |ss|
  {
    forall i :: 0 <= i < n ==> KeepsPaths(ss[i].h, ops[i], hashOf)
  }

  /**
   Over every run from the empty schema: every node's path is its parent's path and its own name, and its order the
   number of tables down to it, as long as every override suits the path; and the first one that does not breaks it.
   */
  lemma {:induction false} RunAgrees(ss: seq<Schema>, ops: seq<Operation>, hashOf: string -> nat, n: nat)
    requires IsRun(ss, ops, hashOf) && n <= |ops| && forall i :: 0 <= i < n ==> Built(ss[i].h, ops[i])
    ensures AllKeepPaths(ss, ops, hashOf, n) ==> AllAgree(ss[n].h)
    ensures n > 0 && AllKeepPaths(ss, ops, hashOf, n - 1) ==>
              (AllAgree(ss[n].h) <==> KeepsPaths(ss[n - 1].h, ops[n - 1], hashOf))
  {
    hide WellFormed, AllOrdered, AllAgree, KeepsPaths, Built, Possible, Apply;
    if n == 0 {
      assert AllAgree(map[]) by { NoNodes(); }
    } else {
      RunAgrees(ss, ops, hashOf, n - 1);
      RunKeeps(ss, ops, hashOf, n - 1);
      if AllKeepPaths(ss, ops, hashOf, n - 1) {
        ApplyAgrees(ss[n - 1], ops[n - 1], hashOf);
      }
    }
  }

  lemma NoNodes()
    ensures AllAgree(map[])
  {
  }
}
