/**
 The schema tree of data_model.c as a value: a heap of nodes, the operations on it, and what every run of them keeps.

 Pointers are numbers handed out in the order nodes are created, so a parent is always numbered below its children.
 */
module SchemaTree {
  import opened CommonDefs

  datatype NodeType = SingleInstance | MultiInstance | NotObject(kind: nat)

  predicate IsObject(t: NodeType) {
    !t.NotObject?
  }

  /** dm_node_t without next_node_map_link */
  datatype Node = Node(
    name: string, path: string, hash: nat, kind: NodeType, parent: Option<nat>, children: seq<nat>, order: nat)

  type Heap = map<nat, Node>

  // ---------------------------------------------------------------- the shape of the tree

  predicate ParentsHold(h: Heap) {
    forall p :: p in h && h[p].parent.Some? ==>
      h[p].parent.value in h && p in h[h[p].parent.value].children && h[p].parent.value < p
  }

  predicate ChildrenHold(h: Heap) {
    forall p, i :: p in h && 0 <= i < |h[p].children| ==>
      h[p].children[i] in h && h[h[p].children[i]].parent == Some(p)
  }

  predicate NoRepeats(c: seq<nat>) {
    forall i, j :: 0 <= i < j < |c| ==> c[i] != c[j]
  }

  /** Parents and child lists agree. */
  predicate IsTree(h: Heap) {
    ParentsHold(h) && ChildrenHold(h) && forall p :: p in h ==> NoRepeats(h[p].children)
  }

  /** q is p or below it. */
  predicate Under(h: Heap, p: nat, q: nat)
    requires ParentsHold(h) && q in h
    decreases q
  {
    q == p || (h[q].parent.Some? && Under(h, p, h[q].parent.value))
  }

  lemma {:induction false} UnderIsLater(h: Heap, p: nat, q: nat)
    requires ParentsHold(h) && q in h && Under(h, p, q)
    ensures p <= q && p in h
    decreases q
  {
    if q != p {
      UnderIsLater(h, p, h[q].parent.value);
    }
  }

  /** If g is part of h with the same parents, the same nodes are below each other. */
  lemma {:induction false} UnderSame(g: Heap, h: Heap, p: nat, q: nat)
    requires ParentsHold(g) && ParentsHold(h) && q in g
    requires forall x :: x in g ==> x in h && g[x].parent == h[x].parent
    ensures Under(g, p, q) == Under(h, p, q)
    decreases q
  {
    if q != p && g[q].parent.Some? {
      UnderSame(g, h, p, g[q].parent.value);
    }
  }

  lemma {:induction false} UnderTrans(h: Heap, a: nat, b: nat, c: nat)
    requires ParentsHold(h) && b in h && c in h && Under(h, a, b) && Under(h, b, c)
    ensures Under(h, a, c)
    decreases c
  {
    if c != b {
      UnderTrans(h, a, b, h[c].parent.value);
    }
  }

  /** A node strictly below p is at or below one of p's children. */
  lemma {:induction false} UnderChild(h: Heap, p: nat, q: nat) returns (c: nat)
    requires IsTree(h) && p in h && q in h && Under(h, p, q) && q != p
    ensures c in h[p].children && c in h && h[c].parent == Some(p) && Under(h, c, q)
    decreases q
  {
    var up := h[q].parent.value;
    if up == p {
      c := q;
    } else {
      c := UnderChild(h, p, up);
    }
  }

  // ---------------------------------------------------------------- child lists

  function Without(s: seq<nat>, x: nat): (r: seq<nat>)
    ensures forall y :: y in r <==> y in s && y != x
  {
    if s == [] then [] else (if s[0] == x then [] else [s[0]]) + Without(s[1..], x)
  }

  /** Removing x keeps the order of the rest: indices of the result come from increasing indices of s. */
  lemma {:induction false} WithoutOrder(s: seq<nat>, x: nat, i: nat, j: nat) returns (k: nat, l: nat)
    requires i < j < |Without(s, x)|
    ensures k < l < |s| && s[k] == Without(s, x)[i] && s[l] == Without(s, x)[j]
  {
    if s[0] == x {
      k, l := WithoutOrder(s[1..], x, i, j);
      k, l := k + 1, l + 1;
    } else if i == 0 {
      var y := Without(s[1..], x)[j - 1];
      assert y in s[1..];
      var m :| 0 <= m < |s[1..]| && s[1..][m] == y;
      k, l := 0, m + 1;
    } else {
      k, l := WithoutOrder(s[1..], x, i - 1, j - 1);
      k, l := k + 1, l + 1;
    }
  }

  lemma WithoutNoRepeats(s: seq<nat>, x: nat)
    requires NoRepeats(s)
    ensures NoRepeats(Without(s, x))
  {
    forall i, j | 0 <= i < j < |Without(s, x)| ensures Without(s, x)[i] != Without(s, x)[j] {
      var k, l := WithoutOrder(s, x, i, j);
    }
  }

  /** FindLinkToFirstObject: the index of the first object, or the length. */
  function FirstObject(h: Heap, c: seq<nat>): (k: nat)
    requires forall i :: 0 <= i < |c| ==> c[i] in h
    ensures k <= |c|
    ensures forall i :: 0 <= i < k ==> !IsObject(h[c[i]].kind)
    ensures k < |c| ==> IsObject(h[c[k]].kind)
  {
    if c == [] || IsObject(h[c[0]].kind) then 0 else 1 + FirstObject(h, c[1..])
  }

  function InsertAt(c: seq<nat>, k: nat, p: nat): (r: seq<nat>)
    requires k <= |c|
    ensures |r| == |c| + 1 && r[k] == p
    ensures forall i :: 0 <= i < k ==> r[i] == c[i]
    ensures forall i :: k < i < |r| ==> r[i] == c[i - 1]
  {
    c[..k] + [p] + c[k..]
  }

  /** Where a new child goes: a parameter before the first object, an object at the tail. */
  function Inserted(h: Heap, c: seq<nat>, p: nat, kind: NodeType): seq<nat>
    requires forall i :: 0 <= i < |c| ==> c[i] in h
  {
    InsertAt(c, if IsObject(kind) then |c| else FirstObject(h, c), p)
  }

  /** All parameters, then all objects, each kind in the order of registration. */
  predicate Ordered(h: Heap, c: seq<nat>) {
    && (forall i :: 0 <= i < |c| ==> c[i] in h)
    && forall i, j :: 0 <= i < j < |c| ==>
         && (IsObject(h[c[i]].kind) ==> IsObject(h[c[j]].kind))
         && (IsObject(h[c[i]].kind) == IsObject(h[c[j]].kind) ==> c[i] < c[j])
  }

  predicate AllOrdered(h: Heap) {
    forall p :: p in h ==> Ordered(h, h[p].children)
  }

  // ---------------------------------------------------------------- operations

  /** CreateNode, once its hash is known to be free */
  function Created(h: Heap, p: nat, name: string, path: string, hash: nat, kind: NodeType): Heap {
    h[p := Node(name, path, hash, kind, None, [], 0)]
  }

  /** The part of DM_PRIV_AddSchemaPath that puts a created node under its parent */
  function Attached(h: Heap, up: nat, p: nat, order: nat): Heap
    requires ChildrenHold(h) && up in h && p in h
  {
    var g := h[p := h[p].(parent := Some(up), order := order)];
    g[up := g[up].(children := Inserted(h, g[up].children, p, h[p].kind))]
  }

  function Retyped(h: Heap, p: nat, kind: NodeType, path: string, hash: nat, order: nat): Heap
    requires p in h
  {
    h[p := h[p].(kind := kind, path := path, hash := hash, order := order)]
  }

  /** DestroyNode */
  function Destroyed(h: Heap, p: nat): Heap
    requires p in h
  {
    (match h[p].parent
     case None => h
     case Some(up) => if up in h then h[up := h[up].(children := Without(h[up].children, p))] else h) - {p}
  }

  /** h without p and everything below it; p leaves its parent's child list and nothing else changes. */
  function Pruned(h: Heap, p: nat): Heap
    requires ParentsHold(h) && p in h
  {
    map q | q in h && !Under(h, p, q) ::
      if h[p].parent == Some(q) then h[q].(children := Without(h[q].children, p)) else h[q]
  }

  /** The topmost node that ends up without children when p goes: p itself, or the last of a line of only children. */
  function Top(h: Heap, p: nat): (c: nat)
    requires ParentsHold(h) && p in h
    ensures c in h && Under(h, c, p)
    decreases p
  {
    if h[p].parent.Some? && |h[h[p].parent.value].children| == 1 then
      var c := Top(h, h[p].parent.value);
      UnderTrans(h, c, h[p].parent.value, p);
      c
    else p
  }

  // ---------------------------------------------------------------- each operation keeps the tree

  lemma CreatedIsTree(h: Heap, p: nat, name: string, path: string, hash: nat, kind: NodeType)
    requires IsTree(h) && p !in h
    ensures IsTree(Created(h, p, name, path, hash, kind))
    ensures AllOrdered(h) ==> AllOrdered(Created(h, p, name, path, hash, kind))
  {
    var g := Created(h, p, name, path, hash, kind);
    if AllOrdered(h) {
      forall q | q in g ensures Ordered(g, g[q].children) {
        if q != p {
          assert Ordered(h, h[q].children);
        }
      }
    }
  }

  lemma InsertAtNoRepeats(c: seq<nat>, k: nat, p: nat)
    requires k <= |c| && NoRepeats(c) && p !in c
    ensures NoRepeats(InsertAt(c, k, p))
  {
    var r := InsertAt(c, k, p);
    forall i, j | 0 <= i < j < |r| ensures r[i] != r[j] {
      assert i < k ==> r[i] == c[i];
      assert i > k ==> r[i] == c[i - 1];
      assert j < k ==> r[j] == c[j];
      assert j > k ==> r[j] == c[j - 1];
    }
  }

  lemma AttachedIsTree(h: Heap, up: nat, p: nat, order: nat)
    requires IsTree(h) && up in h && p in h && up < p && h[p].parent == None
    ensures IsTree(Attached(h, up, p, order))
  {
    var g := Attached(h, up, p, order);
    var c := h[up].children;
    var k := if IsObject(h[p].kind) then |c| else FirstObject(h, c);
    assert p !in c;
    InsertAtNoRepeats(c, k, p);
    InsertAtMembers(c, k, p);
    AttachedShape(h, up, p, g, InsertAt(c, k, p));
  }

  lemma InsertAtMembers(c: seq<nat>, k: nat, p: nat)
    requires k <= |c|
    ensures forall x :: x in InsertAt(c, k, p) <==> x in c || x == p
  {
    assert c == c[..k] + c[k..];
  }

  lemma AttachedShape(h: Heap, up: nat, p: nat, g: Heap, r: seq<nat>)
    requires IsTree(h) && up in h && p in h && up < p && h[p].parent == None
    requires g.Keys == h.Keys && g[p].parent == Some(up) && g[p].children == h[p].children
    requires g[up].parent == h[up].parent && g[up].children == r
    requires forall q :: q in h && q != p && q != up ==> g[q] == h[q]
    requires NoRepeats(r) && forall x :: x in r <==> x in h[up].children || x == p
    ensures IsTree(g)
  {
    hide NoRepeats;
    forall q | q in g && g[q].parent.Some?
      ensures g[q].parent.value in g && q in g[g[q].parent.value].children && g[q].parent.value < q
    {
      assert q != p ==> g[q].parent == h[q].parent;
    }
    forall q, i | q in g && 0 <= i < |g[q].children|
      ensures g[q].children[i] in g && g[g[q].children[i]].parent == Some(q)
    {
      var x := g[q].children[i];
      if q == up {
        assert x in r;
      } else {
        assert g[q].children == h[q].children;
        assert h[x].parent == Some(q);
      }
    }
  }

  /** A newly created node, numbered above all others, goes to the end of its kind. */
  lemma AttachedOrdered(h: Heap, up: nat, p: nat, order: nat)
    requires ChildrenHold(h) && up in h && p in h && up != p && AllOrdered(h)
    requires forall q :: q in h && q != p ==> q < p
    requires p !in h[up].children
    ensures AllOrdered(Attached(h, up, p, order))
  {
    var g := Attached(h, up, p, order);
    forall q | q in g ensures Ordered(g, g[q].children) {
      AttachedOrderedAt(h, up, p, order, q);
    }
  }

  lemma AttachedOrderedAt(h: Heap, up: nat, p: nat, order: nat, q: nat)
    requires ChildrenHold(h) && up in h && p in h && up != p && q in h && Ordered(h, h[q].children)
    requires forall x :: x in h && x != p ==> x < p
    requires p !in h[up].children
    ensures Ordered(Attached(h, up, p, order), Attached(h, up, p, order)[q].children)
  {
    hide Ordered, InsertAt, FirstObject;
    var g := Attached(h, up, p, order);
    var c := h[q].children;
    if q == up {
      var k := if IsObject(h[p].kind) then |c| else FirstObject(h, c);
      InsertedOrdered(h, c, p, k);
      assert g[q].children == InsertAt(c, k, p);
    } else {
      assert g[q].children == c;
    }
    OrderedSame(h, g, g[q].children);
  }

  lemma OrderedSame(h: Heap, g: Heap, c: seq<nat>)
    requires Ordered(h, c) && forall x :: x in h && x in c ==> x in g && g[x].kind == h[x].kind
    ensures Ordered(g, c)
  {
  }

  lemma InsertedOrdered(h: Heap, c: seq<nat>, p: nat, k: nat)
    requires p in h && Ordered(h, c) && forall i :: 0 <= i < |c| ==> c[i] < p
    requires k == if IsObject(h[p].kind) then |c| else FirstObject(h, c)
    ensures Ordered(h, InsertAt(c, k, p))
  {
    var r := InsertAt(c, k, p);
    forall i | 0 <= i < |r| ensures r[i] in h {
      assert i < k ==> r[i] == c[i];
      assert i > k ==> r[i] == c[i - 1];
    }
    forall i, j | 0 <= i < j < |r|
      ensures IsObject(h[r[i]].kind) ==> IsObject(h[r[j]].kind)
      ensures IsObject(h[r[i]].kind) == IsObject(h[r[j]].kind) ==> r[i] < r[j]
    {
      assert i < k ==> r[i] == c[i];
      assert i > k ==> r[i] == c[i - 1];
      assert j < k ==> r[j] == c[j];
      assert j > k ==> r[j] == c[j - 1];
      if j > k && !IsObject(h[p].kind) {
        assert j - 1 > k ==> IsObject(h[c[k]].kind) ==> IsObject(h[c[j - 1]].kind);
      }
    }
  }

  lemma RetypedIsTree(h: Heap, p: nat, kind: NodeType, path: string, hash: nat, order: nat)
    requires IsTree(h) && p in h
    ensures IsTree(Retyped(h, p, kind, path, hash, order))
  {
    var g := Retyped(h, p, kind, path, hash, order);
    assert forall q :: q in g ==> q in h && g[q].children == h[q].children && g[q].parent == h[q].parent;
  }

  /**
   The new kind suits the place p has in its parent's list: it is an object as before or as little as before, or p has
   no parent, or it becomes an object with only later-numbered objects behind it, or becomes a parameter with only
   earlier-numbered parameters in front of it.
   */
  predicate SuitsPlace(h: Heap, p: nat, kind: NodeType)
    requires ParentsHold(h) && p in h
  {
    || IsObject(kind) == IsObject(h[p].kind) || h[p].parent.None?
    || SuitsIn(h, p, kind, h[h[p].parent.value].children)
  }

  predicate SuitsIn(h: Heap, p: nat, kind: NodeType, c: seq<nat>) {
    forall i, j :: 0 <= i < |c| && 0 <= j < |c| && c[i] == p && c[j] in h ==>
      if IsObject(kind) then j > i ==> IsObject(h[c[j]].kind) && p < c[j]
      else j < i ==> !IsObject(h[c[j]].kind) && c[j] < p
  }

  /** An override keeps the order of the child lists if and only if the new kind suits the node's place. */
  lemma RetypedOrderedExactly(h: Heap, p: nat, kind: NodeType, path: string, hash: nat, order: nat)
    requires IsTree(h) && p in h && AllOrdered(h)
    ensures AllOrdered(Retyped(h, p, kind, path, hash, order)) <==> SuitsPlace(h, p, kind)
  {
    hide Ordered, ChildrenHold, NoRepeats, Retyped, SuitsPlace, SuitsIn, ParentsHold;
    var g := Retyped(h, p, kind, path, hash, order);
    RetypedFields(h, p, kind, path, hash, order);
    forall q | q in g && h[p].parent != Some(q) ensures Ordered(g, g[q].children) {
      ChildOfOne(h, p, q);
      OrderedElsewhere(h, g, p, h[q].children);
    }
    if h[p].parent.Some? {
      ChildOfParent(h, p);
      var up := h[p].parent.value;
      if IsObject(kind) == IsObject(h[p].kind) {
        OrderedSameKind(h, g, p, h[up].children);
      } else {
        OrderedAtPlace(h, g, p, kind, h[up].children);
      }
      assert AllOrdered(g) <==> Ordered(g, g[up].children);
    }
    PlaceCases(h, p, kind);
  }

  lemma RetypedFields(h: Heap, p: nat, kind: NodeType, path: string, hash: nat, order: nat)
    requires p in h
    ensures var g := Retyped(h, p, kind, path, hash, order);
      && g.Keys == h.Keys && g[p].kind == kind
      && forall q :: q in h ==> g[q].children == h[q].children && (q != p ==> g[q].kind == h[q].kind)
  {
  }

  lemma ChildOfOne(h: Heap, p: nat, q: nat)
    requires IsTree(h) && p in h && q in h && h[p].parent != Some(q)
    ensures p !in h[q].children
  {
  }

  lemma ChildOfParent(h: Heap, p: nat)
    requires IsTree(h) && p in h && h[p].parent.Some?
    ensures h[p].parent.value in h && p in h[h[p].parent.value].children
  {
  }

  lemma PlaceCases(h: Heap, p: nat, kind: NodeType)
    requires ParentsHold(h) && p in h
    ensures IsObject(kind) == IsObject(h[p].kind) || h[p].parent.None? ==> SuitsPlace(h, p, kind)
    ensures IsObject(kind) != IsObject(h[p].kind) && h[p].parent.Some? ==>
              (SuitsPlace(h, p, kind) <==> SuitsIn(h, p, kind, h[h[p].parent.value].children))
  {
  }

  lemma OrderedElsewhere(h: Heap, g: Heap, p: nat, c: seq<nat>)
    requires Ordered(h, c) && p !in c && forall x :: x in h && x != p ==> x in g && g[x].kind == h[x].kind
    ensures Ordered(g, c)
  {
  }

  lemma OrderedSameKind(h: Heap, g: Heap, p: nat, c: seq<nat>)
    requires Ordered(h, c) && forall x :: x in h ==> x in g && IsObject(g[x].kind) == IsObject(h[x].kind)
    ensures Ordered(g, c)
  {
  }

  lemma OrderedAtPlace(h: Heap, g: Heap, p: nat, kind: NodeType, c: seq<nat>)
    requires Ordered(h, c) && p in c && p in h && p in g && g[p].kind == kind && IsObject(kind) != IsObject(h[p].kind)
    requires forall x :: x in h && x != p ==> x in g && g[x].kind == h[x].kind
    ensures Ordered(g, c) <==> SuitsIn(h, p, kind, c)
  {
    assert forall i :: 0 <= i < |c| ==> c[i] in h && c[i] in g;
    assert forall i, j :: 0 <= i < j < |c| ==> c[i] != c[j];
  }

  lemma PrunedIsTree(h: Heap, p: nat)
    requires IsTree(h) && p in h
    ensures IsTree(Pruned(h, p))
  {
    var g := Pruned(h, p);
    forall q | q in g && g[q].parent.Some?
      ensures g[q].parent.value in g && q in g[g[q].parent.value].children && g[q].parent.value < q
    {
      assert g[q].parent == h[q].parent;
    }
    forall q, i | q in g && 0 <= i < |g[q].children|
      ensures g[q].children[i] in g && g[g[q].children[i]].parent == Some(q)
    {
      var x := g[q].children[i];
      assert x in h[q].children && x != p by {
        if h[p].parent == Some(q) {
          assert x in Without(h[q].children, p);
        }
      }
      assert h[x].parent == Some(q);
    }
    forall q | q in g ensures NoRepeats(g[q].children) {
      WithoutNoRepeats(h[q].children, p);
    }
  }

  lemma PrunedOrdered(h: Heap, p: nat)
    requires IsTree(h) && p in h && AllOrdered(h)
    ensures AllOrdered(Pruned(h, p))
  {
    var g := Pruned(h, p);
    PrunedIsTree(h, p);
    hide Ordered;
    forall q | q in g ensures Ordered(g, g[q].children) {
      assert Ordered(h, h[q].children);
      OrderedWithout(h, h[q].children, p);
      OrderedSame(h, g, g[q].children);
    }
  }

  lemma OrderedWithout(h: Heap, c: seq<nat>, p: nat)
    requires Ordered(h, c)
    ensures Ordered(h, Without(c, p))
  {
    var r := Without(c, p);
    forall i | 0 <= i < |r| ensures r[i] in h {
      assert r[i] in c;
    }
    forall i, j | 0 <= i < j < |r|
      ensures IsObject(h[r[i]].kind) ==> IsObject(h[r[j]].kind)
      ensures IsObject(h[r[i]].kind) == IsObject(h[r[j]].kind) ==> r[i] < r[j]
    {
      var k, l := WithoutOrder(c, p, i, j);
    }
  }

  /** Destroying a childless node prunes it. */
  lemma DestroyedIsPruned(h: Heap, p: nat)
    requires IsTree(h) && p in h && h[p].children == []
    ensures Destroyed(h, p) == Pruned(h, p)
  {
    forall q | q in h ensures Under(h, p, q) <==> q == p {
      if q != p && Under(h, p, q) {
        var c := UnderChild(h, p, q);
      }
    }
  }

  // ---------------------------------------------------------------- destroying a subtree

  /** Part way through DestroySchemaRecursive: only nodes strictly below p are gone, and only p has changed. */
  predicate PartlyDestroyed(h: Heap, g: Heap, p: nat)
    requires IsTree(h)
  {
    && p in h && p in g && g[p] == h[p].(children := g[p].children)
    && (forall q :: q in g ==> q in h && (q != p ==> g[q] == h[q]))
    && (forall q :: q in h && q !in g ==> Under(h, p, q) && q != p)
  }

  lemma DestroyChild(h: Heap, g: Heap, p: nat, c: nat)
    requires IsTree(h) && IsTree(g) && PartlyDestroyed(h, g, p) && c in g[p].children
    ensures c in g && p < c
    ensures PartlyDestroyed(h, Pruned(g, c), p)
    ensures |Pruned(g, c)[p].children| < |g[p].children|
  {
    assert g[c].parent == Some(p) && h[c].parent == Some(p);
    var f := Pruned(g, c);
    if Under(g, c, p) {
      UnderIsLater(g, c, p);
    }
    WithoutShorter(g[p].children, c);
    forall q | q in h && q !in f ensures Under(h, p, q) && q != p {
      if q in g {
        UnderSame(g, h, c, q);
        UnderTrans(h, p, c, q);
      }
    }
  }

  lemma {:induction false} WithoutShorter(s: seq<nat>, x: nat)
    ensures |Without(s, x)| <= |s|
    ensures x in s ==> |Without(s, x)| < |s|
  {
    if s == [] {
    } else {
      WithoutShorter(s[1..], x);
    }
  }

  lemma DestroyLast(h: Heap, g: Heap, p: nat)
    requires IsTree(h) && IsTree(g) && PartlyDestroyed(h, g, p) && g[p].children == []
    ensures Pruned(g, p) == Pruned(h, p)
  {
    hide ChildrenHold, NoRepeats, ParentsHold, Without;
    forall q | q in h ensures (q in g && !Under(g, p, q)) <==> !Under(h, p, q) {
      if q in g {
        UnderSame(g, h, p, q);
      }
    }
    hide PartlyDestroyed;
    assert Pruned(g, p).Keys == Pruned(h, p).Keys;
  }

  // ---------------------------------------------------------------- deregistering

  /** Removing an only child and then its parent removes the parent's subtree. */
  lemma PruneUp(h: Heap, p: nat, up: nat)
    requires IsTree(h) && p in h && h[p].parent == Some(up) && |h[up].children| == 1
    ensures up in Pruned(h, p) && Pruned(h, p)[up].children == []
    ensures IsTree(Pruned(h, p)) && Pruned(Pruned(h, p), up) == Pruned(h, up)
  {
    PrunedIsTree(h, p);
    var g := Pruned(h, p);
    assert h[up].children[0] == p;
    if Under(h, p, up) {
      UnderIsLater(h, p, up);
    }
    WithoutShorter(h[up].children, p);
    forall q | q in h ensures (q in g && !Under(g, up, q)) <==> !Under(h, up, q) {
      if q in g {
        UnderSame(g, h, up, q);
      } else {
        UnderTrans(h, up, p, q);
      }
    }
  }

  /** With another child left, the parent stays. */
  lemma PruneStops(h: Heap, p: nat, up: nat)
    requires IsTree(h) && p in h && h[p].parent == Some(up) && |h[up].children| != 1
    ensures up in Pruned(h, p) && Pruned(h, p)[up].children != []
  {
    if Under(h, p, up) {
      UnderIsLater(h, p, up);
    }
    var c := h[up].children;
    assert p in c;
    var other := AnotherMember(c, p);
    assert other in Without(c, p);
  }

  /** Every node under q is under p or above it: q holds nothing but p and the way to it. */
  predicate LeadsOnlyTo(h: Heap, p: nat, q: nat)
    requires ParentsHold(h) && p in h && q in h
  {
    Under(h, q, p) && forall x :: x in h && Under(h, q, x) ==> Under(h, p, x) || Under(h, x, p)
  }

  /** Deregistering p removes its subtree and exactly those ancestors that led to nothing else. */
  lemma {:induction false} DeregisterExact(h: Heap, p: nat, q: nat)
    requires IsTree(h) && p in h && q in h
    ensures q !in Pruned(h, Top(h, p)) <==> Under(h, p, q) || LeadsOnlyTo(h, p, q)
  {
    if Under(h, Top(h, p), q) {
      TopLine(h, p, q);
    }
    if Under(h, p, q) {
      UnderTrans(h, Top(h, p), p, q);
    } else if LeadsOnlyTo(h, p, q) {
      LeadsToTop(h, p, q);
    }
  }

  /** Everything under Top is below p, or above p with nothing else below it. */
  lemma {:induction false} TopLine(h: Heap, p: nat, q: nat)
    requires IsTree(h) && p in h && q in h && Under(h, Top(h, p), q)
    ensures Under(h, p, q) || LeadsOnlyTo(h, p, q)
    decreases p
  {
    if h[p].parent.Some? && |h[h[p].parent.value].children| == 1 {
      var up := h[p].parent.value;
      TopLine(h, up, q);
      if Under(h, up, q) {
        OnlyChild(h, p, up, q);
      }
      if !Under(h, p, q) {
        assert LeadsOnlyTo(h, up, q) by {
          if q == up {
            UnderSelf(h, up);
          }
        }
        UnderTrans(h, q, up, p);
        forall x | x in h && Under(h, q, x) ensures Under(h, p, x) || Under(h, x, p) {
          if Under(h, up, x) {
            OnlyChild(h, p, up, x);
          }
          if Under(h, x, up) {
            UnderTrans(h, x, up, p);
          }
        }
      }
    }
  }

  lemma UnderSelf(h: Heap, p: nat)
    requires ParentsHold(h) && p in h
    ensures LeadsOnlyTo(h, p, p)
  {
  }

  lemma OnlyChild(h: Heap, p: nat, up: nat, q: nat)
    requires IsTree(h) && p in h && h[p].parent == Some(up) && |h[up].children| == 1 && q in h && Under(h, up, q)
    ensures q == up || Under(h, p, q)
  {
    if q != up {
      var c := UnderChild(h, up, q);
      assert h[up].children[0] == p;
    }
  }

  lemma AnotherMember(c: seq<nat>, p: nat) returns (x: nat)
    requires NoRepeats(c) && |c| > 1
    ensures x in c && x != p
  {
    x := if c[0] == p then c[1] else c[0];
  }

  /** A node that leads only to p is under Top. */
  lemma {:induction false} LeadsToTop(h: Heap, p: nat, q: nat)
    requires IsTree(h) && p in h && q in h && LeadsOnlyTo(h, p, q)
    ensures Under(h, Top(h, p), q)
    decreases p
  {
    if q == p {
      return;
    }
    var up := h[p].parent.value;
    assert Under(h, q, up);
    forall c | c in h[up].children ensures c == p {
      assert h[c].parent == Some(up);
      UnderTrans(h, q, up, c);
      if Under(h, c, p) {
        UnderIsLater(h, c, p);
        if c != p { UnderIsLater(h, c, up); }
      } else if c != p {
        UnderIsLater(h, p, c);
        assert Under(h, p, up);
        UnderIsLater(h, p, up);
      }
    }
    var c := h[up].children;
    if |c| != 1 {
      assert p in c;
      var x := AnotherMember(c, p);
      assert false;
    }
    assert LeadsOnlyTo(h, up, q) by {
      forall x | x in h && Under(h, q, x) ensures Under(h, up, x) || Under(h, x, up) {
        if Under(h, p, x) {
          UnderTrans(h, up, p, x);
        }
      }
    }
    LeadsToTop(h, up, q);
  }

  // ---------------------------------------------------------------- whole runs

  /** The nodes, and the number the next one gets */
  datatype Schema = Schema(h: Heap, created: nat)

  datatype Operation =
    | Create(name: string, kind: NodeType, path: string)
    | AddChild(up: nat, name: string, kind: NodeType, path: string, order: nat)
    | Override(p: nat, kind: NodeType, path: string, order: nat)
    | DestroySubtree(p: nat)
    | DeRegister(p: nat)

  predicate HashTaken(h: Heap, hash: nat) {
    exists p :: p in h && h[p].hash == hash
  }

  /** Every hash is that of the node's own path, no two nodes share one, and pointers are those handed out. */
  predicate HashesHold(s: Schema, hashOf: string -> nat) {
    && (forall p :: p in s.h ==> s.h[p].hash == hashOf(s.h[p].path) && p < s.created)
    && (forall p, q :: p in s.h && q in s.h && s.h[p].hash == s.h[q].hash ==> p == q)
  }

  predicate WellFormed(s: Schema, hashOf: string -> nat) {
    IsTree(s.h) && HashesHold(s, hashOf)
  }

  /** An operation names nodes that exist. */
  predicate Possible(s: Schema, op: Operation) {
    match op
    case Create(_, _, _) => true
    case AddChild(up, _, _, _, _) => up in s.h
    case Override(p, _, _, _) => p in s.h
    case DestroySubtree(p) => p in s.h
    case DeRegister(p) => p in s.h
  }

  /** What an operation leaves: one refused for its hash, or for being nested, changes nothing. */
  function Apply(s: Schema, op: Operation, hashOf: string -> nat): Schema
    requires WellFormed(s, hashOf) && Possible(s, op)
  {
    match op
    case Create(name, kind, path) =>
      if HashTaken(s.h, hashOf(path)) then s
      else Schema(Created(s.h, s.created, name, path, hashOf(path), kind), s.created + 1)
    case AddChild(up, name, kind, path, order) =>
      if HashTaken(s.h, hashOf(path)) then s
      else
        var h := Created(s.h, s.created, name, path, hashOf(path), kind);
        Schema(Attached(h, up, s.created, order), s.created + 1)
    case Override(p, kind, path, order) =>
      if path != s.h[p].path && HashTaken(s.h, hashOf(path)) then s
      else Schema(Retyped(s.h, p, kind, path, hashOf(path), order), s.created)
    case DestroySubtree(p) => Schema(Pruned(s.h, p), s.created)
    case DeRegister(p) => if s.h[p].order > 1 then s else Schema(Pruned(s.h, Top(s.h, p)), s.created)
  }

  /** The operation is not an override that is carried out and does not suit the node's place. */
  predicate Suits(s: Schema, op: Operation, hashOf: string -> nat)
    requires ParentsHold(s.h)
  {
    op.Override? && op.p in s.h && (op.path == s.h[op.p].path || !HashTaken(s.h, hashOf(op.path))) ==>
      SuitsPlace(s.h, op.p, op.kind)
  }

  lemma CreateKeepsHashes(s: Schema, name: string, kind: NodeType, path: string, hashOf: string -> nat)
    requires HashesHold(s, hashOf) && !HashTaken(s.h, hashOf(path))
    ensures HashesHold(Schema(Created(s.h, s.created, name, path, hashOf(path), kind), s.created + 1), hashOf)
  {
  }

  lemma OverrideKeepsHashes(s: Schema, p: nat, kind: NodeType, path: string, order: nat, hashOf: string -> nat)
    requires HashesHold(s, hashOf) && p in s.h && (path == s.h[p].path || !HashTaken(s.h, hashOf(path)))
    ensures HashesHold(Schema(Retyped(s.h, p, kind, path, hashOf(path), order), s.created), hashOf)
  {
  }

  /** Hashes only depend on which nodes there are and on their paths. */
  lemma SameHashes(h: Heap, g: Heap, created: nat, hashOf: string -> nat)
    requires HashesHold(Schema(h, created), hashOf)
    requires forall q :: q in g ==> q in h && g[q].hash == h[q].hash && g[q].path == h[q].path
    ensures HashesHold(Schema(g, created), hashOf)
  {
  }

  lemma AddChildKeeps(s: Schema, up: nat, name: string, kind: NodeType, path: string, order: nat, hashOf: string -> nat)
    requires WellFormed(s, hashOf) && up in s.h && !HashTaken(s.h, hashOf(path))
    ensures WellFormed(Apply(s, AddChild(up, name, kind, path, order), hashOf), hashOf)
    ensures AllOrdered(s.h) ==> AllOrdered(Apply(s, AddChild(up, name, kind, path, order), hashOf).h)
  {
    var p := s.created;
    assert s.h.Keys == set q | q in s.h && q < p;
    CreatedIsTree(s.h, p, name, path, hashOf(path), kind);
    CreateKeepsHashes(s, name, kind, path, hashOf);
    var h := Created(s.h, p, name, path, hashOf(path), kind);
    hide HashesHold, HashTaken, AllOrdered, Attached;
    AttachedIsTree(h, up, p, order);
    NotYetChild(h, up, p);
    if AllOrdered(s.h) {
      AttachedOrdered(h, up, p, order);
    }
    AttachedHashes(h, up, p, order, s.created + 1, hashOf);
  }

  lemma AttachedHashes(h: Heap, up: nat, p: nat, order: nat, created: nat, hashOf: string -> nat)
    requires ChildrenHold(h) && up in h && p in h && HashesHold(Schema(h, created), hashOf)
    ensures HashesHold(Schema(Attached(h, up, p, order), created), hashOf)
  {
    hide HashesHold, ChildrenHold, Inserted;
    SameHashes(h, Attached(h, up, p, order), created, hashOf);
  }

  lemma NotYetChild(h: Heap, up: nat, p: nat)
    requires ChildrenHold(h) && up in h && p in h && h[p].parent == None
    ensures p !in h[up].children
  {
  }

  lemma RemovalKeeps(s: Schema, p: nat, hashOf: string -> nat)
    requires WellFormed(s, hashOf) && p in s.h
    ensures WellFormed(Schema(Pruned(s.h, p), s.created), hashOf)
    ensures AllOrdered(s.h) ==> AllOrdered(Pruned(s.h, p))
  {
    PrunedIsTree(s.h, p);
    if AllOrdered(s.h) {
      PrunedOrdered(s.h, p);
    }
    hide HashesHold, IsTree, AllOrdered, Without;
    SameHashes(s.h, Pruned(s.h, p), s.created, hashOf);
  }

  lemma ApplyKeeps(s: Schema, op: Operation, hashOf: string -> nat)
    requires WellFormed(s, hashOf) && Possible(s, op)
    ensures WellFormed(Apply(s, op, hashOf), hashOf)
    ensures AllOrdered(s.h) ==> (AllOrdered(Apply(s, op, hashOf).h) <==> Suits(s, op, hashOf))
  {
    match op {
      case Create(name, kind, path) =>
        if !HashTaken(s.h, hashOf(path)) {
          CreatedIsTree(s.h, s.created, name, path, hashOf(path), kind);
          CreateKeepsHashes(s, name, kind, path, hashOf);
        }
        hide IsTree, AllOrdered, HashesHold, HashTaken;
      case AddChild(up, name, kind, path, order) =>
        hide IsTree, AllOrdered, HashesHold, HashTaken;
        if !HashTaken(s.h, hashOf(path)) {
          AddChildKeeps(s, up, name, kind, path, order, hashOf);
        }
      case Override(p, kind, path, order) =>
        hide IsTree, AllOrdered, HashesHold, HashTaken;
        if path == s.h[p].path || !HashTaken(s.h, hashOf(path)) {
          OverrideKeepsHashes(s, p, kind, path, order, hashOf);
          RetypedIsTree(s.h, p, kind, path, hashOf(path), order);
          if AllOrdered(s.h) {
            RetypedOrderedExactly(s.h, p, kind, path, hashOf(path), order);
          }
        }
      case DestroySubtree(p) =>
        RemovalKeeps(s, p, hashOf);
      case DeRegister(p) =>
        RemovalKeeps(s, Top(s.h, p), hashOf);
    }
  }

  lemma AddChildIs(s: Schema, up: nat, name: string, kind: NodeType, path: string, order: nat, hashOf: string -> nat)
    requires WellFormed(s, hashOf) && up in s.h && !HashTaken(s.h, hashOf(path))
    ensures var h := Created(s.h, s.created, name, path, hashOf(path), kind);
      && ChildrenHold(h)
      && Apply(s, AddChild(up, name, kind, path, order), hashOf) == Schema(Attached(h, up, s.created, order),
        s.created + 1)
  {
    CreatedIsTree(s.h, s.created, name, path, hashOf(path), kind);
  }

  lemma AttachedFields(h: Heap, up: nat, p: nat, order: nat)
    requires ChildrenHold(h) && up in h && p in h && up != p
    ensures var g := Attached(h, up, p, order);
      && g.Keys == h.Keys && g[p] == h[p].(parent := Some(up), order := order)
      && g[up] == h[up].(children := Inserted(h, h[up].children, p, h[p].kind))
      && forall q :: q in h && q != p && q != up ==> g[q] == h[q]
  {
    hide ChildrenHold, Inserted;
  }

  /** A node in more than one table is refused; otherwise it goes with its subtree and what led nowhere else. */
  lemma DeregisterApplied(s: Schema, p: nat, q: nat, hashOf: string -> nat)
    requires WellFormed(s, hashOf) && p in s.h && q in s.h
    ensures s.h[p].order > 1 ==> Apply(s, DeRegister(p), hashOf) == s
    ensures s.h[p].order <= 1 ==>
              (q !in Apply(s, DeRegister(p), hashOf).h <==> Under(s.h, p, q) || LeadsOnlyTo(s.h, p, q))
  {
    hide Pruned, Under, LeadsOnlyTo;
    DeregisterExact(s.h, p, q);
  }

  predicate IsRun(ss: seq<Schema>, ops: seq<Operation>, hashOf: string -> nat) {
    && |ss| == |ops| + 1 && ss[0] == Schema(map[], 0)
    && forall i :: 0 <= i < |ops| ==>
         Possible(ss[i], ops[i]) && (WellFormed(ss[i], hashOf) ==> ss[i + 1] == Apply(ss[i], ops[i], hashOf))
  }

  /**
   Over every run from the empty schema: the tree is sound, every node carries the hash of its own path and no other
   node has it. Every child list is all parameters and then all objects, each in the order of registration, as long as
   every override suits the place of its node; and the first one that does not suit it breaks the order.
   */
  lemma {:induction false} RunKeeps(ss: seq<Schema>, ops: seq<Operation>, hashOf: string -> nat, n: nat)
    requires IsRun(ss, ops, hashOf) && n <= |ops|
    ensures forall i :: 0 <= i <= n ==> WellFormed(ss[i], hashOf)
    ensures AllSuit(ss, ops, hashOf, n) ==> AllOrdered(ss[n].h)
    ensures n > 0 && AllSuit(ss, ops, hashOf, n - 1) ==>
              (AllOrdered(ss[n].h) <==> Suits(ss[n - 1], ops[n - 1], hashOf))
  {
    hide WellFormed, AllOrdered, Suits, Possible, Apply;
    if n == 0 {
      EmptyKeeps(hashOf);
    } else {
      RunKeeps(ss, ops, hashOf, n - 1);
      WellFormedIsTree(ss[n - 1], hashOf);
      ApplyKeeps(ss[n - 1], ops[n - 1], hashOf);
      forall i | 0 <= i <= n ensures WellFormed(ss[i], hashOf) {}
    }
  }

  /** The first n overrides that are carried out all suit the place of their node. */
  predicate AllSuit(ss: seq<Schema>, ops: seq<Operation>, hashOf: string -> nat, n: nat)
    requires n <= |ops| <= |ss|
  {
    forall i :: 0 <= i < n ==> ParentsHold(ss[i].h) && Suits(ss[i], ops[i], hashOf)
  }

  lemma WellFormedIsTree(s: Schema, hashOf: string -> nat)
    requires WellFormed(s, hashOf)
    ensures IsTree(s.h)
  {
  }

  lemma EmptyKeeps(hashOf: string -> nat)
    ensures WellFormed(Schema(map[], 0), hashOf) && AllOrdered(map[])
  {
  }
}
