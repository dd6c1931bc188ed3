/** DM_PRIV_AddSchemaPath: walking the segments of a path down the tree, adding what is missing. */
module SchemaPath {
  import opened CommonDefs
  import opened SchemaTree
  import opened NodeMap
  import opened SchemaNames

  /** A segment of the path with the type ParseSchemaPath gave it */
  datatype Segment = Segment(name: string, kind: NodeType)

  datatype Flags = Flags(suppressPreExistence: bool, suppressLastTypeCheck: bool, overrideLastType: bool)

  /** The schema path of the segments: names joined by dots, a table followed by {i} */
  function PathText(segs: seq<Segment>): string {
    if segs == [] then ""
    else if |segs| == 1 then segs[0].name
    else
      var seg := segs[|segs| - 1];
      PathText(segs[..|segs| - 1]) + "." + seg.name + (if seg.kind.MultiInstance? then ".{i}" else "")
  }

  /** The number of tables below the root in the path */
  function Order(segs: seq<Segment>): nat {
    if |segs| <= 1 then 0 else Order(segs[..|segs| - 1]) + if segs[|segs| - 1].kind.MultiInstance? then 1 else 0
  }

  /** What is known of the node reached by a path of more than the root, from the old nodes h to the new nodes g. */
  predicate Fits(h: Heap, g: Heap, p: nat, segs: seq<Segment>, anyType: bool, retyped: bool)
    requires segs != []
  {
    && p in g
    && (!retyped ==> g[p].order == Order(segs))
    && (!anyType && !retyped ==> g[p].kind == segs[|segs| - 1].kind)
    && (p !in h ==> g[p].path == PathText(segs) && g[p].kind == segs[|segs| - 1].kind && g[p].order == Order(segs))
  }

  /** No two children of a node have the same name. */
  predicate SiblingsDiffer(h: Heap) {
    forall p, i, j :: p in h && 0 <= i < j < |h[p].children| && h[p].children[i] in h && h[p].children[j] in h ==>
      h[h[p].children[i]].name != h[h[p].children[j]].name
  }

  /** Every node of h is still in g, with its name and its parent. */
  predicate Kept(h: Heap, g: Heap) {
    forall p :: p in h ==> p in g && g[p].name == h[p].name && g[p].parent == h[p].parent
  }

  /** Every node of h is still in g, and but for x only its list of children may have changed. */
  predicate Same(h: Heap, g: Heap, x: Option<nat>) {
    forall p :: p in h ==> p in g && (x != Some(p) ==> g[p] == h[p].(children := g[p].children))
  }

  lemma SameTwice(a: Heap, b: Heap, c: Heap, x: Option<nat>)
    requires Same(a, b, None) && Same(b, c, x)
    ensures Same(a, c, x)
  {
  }

  lemma SameBut(h: Heap, g: Heap, x: Option<nat>)
    requires Same(h, g, None)
    ensures Same(h, g, x)
  {
  }

  lemma SameAt(h: Heap, g: Heap, p: nat)
    requires Same(h, g, None) && p in h
    ensures p in g && g[p].path == h[p].path && g[p].order == h[p].order
  {
  }

  /** p is reached from root by exactly these names. */
  predicate Trail(h: Heap, root: nat, segs: seq<Segment>, p: nat)
  {
    if segs == [] then p == root
    else
      p in h && h[p].name == segs[|segs| - 1].name && h[p].parent.Some? && Trail(h, root, segs[..|segs| - 1],
        h[p].parent.value)
  }

  lemma {:induction false} TrailKept(h: Heap, g: Heap, root: nat, segs: seq<Segment>, p: nat)
    requires Trail(h, root, segs, p) && Kept(h, g)
    ensures Trail(g, root, segs, p)
  {
    if segs == [] {
    } else {
      TrailKept(h, g, root, segs[..|segs| - 1], h[p].parent.value);
    }
  }

  /** A path names at most one node. */
  lemma {:induction false} TrailUnique(h: Heap, root: nat, segs: seq<Segment>, p: nat, q: nat)
    requires IsTree(h) && SiblingsDiffer(h) && Trail(h, root, segs, p) && Trail(h, root, segs, q)
    ensures p == q
  {
    if segs == [] {
    } else {
      TrailUnique(h, root, segs[..|segs| - 1], h[p].parent.value, h[q].parent.value);
      var c := h[h[p].parent.value].children;
      var i :| 0 <= i < |c| && c[i] == p;
      var j :| 0 <= j < |c| && c[j] == q;
    }
  }

  /** Every node of g that is not in h lies on the way along the first i names. */
  ghost predicate Grown(h: Heap, g: Heap, root: nat, segs: seq<Segment>, i: nat)
    requires i <= |segs|
  {
    forall p :: p in g && p !in h ==> OnTheWay(g, root, segs, i, p)
  }

  ghost predicate OnTheWay(g: Heap, root: nat, segs: seq<Segment>, i: nat, p: nat)
    requires i <= |segs|
  {
    exists j :: 1 < j <= i && Trail(g, root, segs[1..j], p)
  }

  lemma GrownNot(h: Heap, root: nat, segs: seq<Segment>, i: nat)
    requires i <= |segs|
    ensures Grown(h, h, root, segs, i)
  {
  }

  /** A step from b to g that adds at most p, which is reached by one more name. */
  lemma GrownStep(h: Heap, b: Heap, g: Heap, root: nat, segs: seq<Segment>, i: nat, next: Option<nat>)
    requires 1 <= i < |segs| && Grown(h, b, root, segs, i) && Kept(b, g)
    requires forall q :: q in g && q !in b ==> next == Some(q)
    requires next.Some? ==> Trail(g, root, segs[1..i + 1], next.value)
    ensures Grown(h, g, root, segs, i + 1)
  {
    hide Trail, Kept;
    forall q | q in g && q !in h ensures OnTheWay(g, root, segs, i + 1, q) {
      if q in b {
        assert OnTheWay(b, root, segs, i, q);
        var j :| 1 < j <= i && Trail(b, root, segs[1..j], q);
        TrailKept(b, g, root, segs[1..j], q);
      } else {
        assert Trail(g, root, segs[1..i + 1], q);
      }
    }
  }

  lemma GrownLonger(h: Heap, g: Heap, root: nat, segs: seq<Segment>, i: nat)
    requires i <= |segs| && Grown(h, g, root, segs, i)
    ensures Grown(h, g, root, segs, |segs|)
  {
    hide Trail;
    forall q | q in g && q !in h ensures OnTheWay(g, root, segs, |segs|, q) {
      assert OnTheWay(g, root, segs, i, q);
    }
  }

  lemma AddKeeps(s: Schema, up: nat, name: string, kind: NodeType, path: string, order: nat, hashOf: string -> nat)
    requires WellFormed(s, hashOf) && up in s.h && SiblingsDiffer(s.h) && !HashTaken(s.h, hashOf(path))
    requires forall i :: 0 <= i < |s.h[up].children| && s.h[up].children[i] in s.h ==>
        s.h[s.h[up].children[i]].name != name
    ensures var g := Apply(s, AddChild(up, name, kind, path, order), hashOf).h;
            && Kept(s.h, g) && SiblingsDiffer(g)
            && s.created in g && g[s.created].name == name && g[s.created].parent == Some(up)
            && g[s.created].path == path && g[s.created].kind == kind && g[s.created].order == order
            && g[s.created].hash == hashOf(path)
            && s.created !in s.h && g[s.created].children == []
            && Same(s.h, g, None) && g.Keys == s.h.Keys + {s.created}
  {
    hide IsTree, ParentsHold, HashesHold, HashTaken, Apply, Attached, FirstObject, InsertAt;
    var p := s.created;
    AddChildIs(s, up, name, kind, path, order, hashOf);
    FreshPointer(s, hashOf);
    var h := Created(s.h, p, name, path, hashOf(path), kind);
    AttachedFields(h, up, p, order);
    var c := h[up].children;
    var k := if IsObject(kind) then |c| else FirstObject(h, c);
    AddedSiblings(s.h, Attached(h, up, p, order), up, p, k, name);
  }

  lemma FreshPointer(s: Schema, hashOf: string -> nat)
    requires WellFormed(s, hashOf)
    ensures s.created !in s.h && ChildrenHold(s.h)
  {
  }

  lemma AddedSiblings(h: Heap, g: Heap, up: nat, p: nat, k: nat, name: string)
    requires ChildrenHold(h) && SiblingsDiffer(h) && up in h && p !in h && k <= |h[up].children|
    requires g.Keys == h.Keys + {p} && g[p].children == [] && g[p].name == name
    requires g[up].name == h[up].name && g[up].children == InsertAt(h[up].children, k, p)
    requires forall q :: q in h && q != up ==> g[q] == h[q]
    requires forall i :: 0 <= i < |h[up].children| && h[up].children[i] in h ==> h[h[up].children[i]].name != name
    ensures SiblingsDiffer(g)
  {
    var c, r := h[up].children, g[up].children;
    forall q, i, j | q in g && 0 <= i < j < |g[q].children| && g[q].children[i] in g && g[q].children[j] in g
      ensures g[g[q].children[i]].name != g[g[q].children[j]].name
    {
      if q == up {
        InsertedDiffer(h, c, k, p, i, j, name);
        assert r[i] != p ==> r[i] in h && g[r[i]].name == h[r[i]].name;
        assert r[j] != p ==> r[j] in h && g[r[j]].name == h[r[j]].name;
      }
    }
  }

  lemma InsertedDiffer(h: Heap, c: seq<nat>, k: nat, p: nat, i: nat, j: nat, name: string)
    requires k <= |c| && p !in h && i < j <= |c| && forall a :: 0 <= a < |c| ==> c[a] in h && h[c[a]].name != name
    requires forall a, b :: 0 <= a < b < |c| ==> h[c[a]].name != h[c[b]].name
    ensures var r := InsertAt(c, k, p);
            && (r[i] != p ==> r[i] in h && h[r[i]].name != name) && (r[j] != p ==> r[j] in h && h[r[j]].name != name)
            && (r[i] == p ==> r[j] != p) && (r[i] != p && r[j] != p ==> h[r[i]].name != h[r[j]].name)
  {
    var r := InsertAt(c, k, p);
    var a, b := if i < k then i else i - 1, if j < k then j else j - 1;
    assert i != k ==> r[i] == c[a];
    assert j != k ==> r[j] == c[b];
  }

  lemma OverrideKeeps(s: Schema, p: nat, kind: NodeType, path: string, order: nat, hashOf: string -> nat)
    requires WellFormed(s, hashOf) && p in s.h && SiblingsDiffer(s.h)
    ensures var g := Apply(s, Override(p, kind, path, order), hashOf).h;
            Kept(s.h, g) && SiblingsDiffer(g) && Same(s.h, g, Some(p)) && g.Keys == s.h.Keys
  {
    var g := Apply(s, Override(p, kind, path, order), hashOf).h;
    assert forall q :: q in g ==> q in s.h && g[q].name == s.h[q].name && g[q].children == s.h[q].children;
  }

  /** DM_PRIV_FindMatchingChild */
  method FindMatchingChild(h: Heap, up: nat, name: string) returns (r: Option<nat>)
    requires ChildrenHold(h) && up in h
    ensures r.Some? ==> r.value in h && h[r.value].name == name && h[r.value].parent == Some(up)
    ensures r.None? ==> forall i :: 0 <= i < |h[up].children| && h[up].children[i] in h ==>
        h[h[up].children[i]].name != name
  {
    var c := h[up].children;
    for i := 0 to |c|
      invariant forall j :: 0 <= j < i ==> h[c[j]].name != name
    {
      if h[c[i]].name == name {
        return Some(c[i]);
      }
    }
    r := None;
  }

  /**
   DM_PRIV_AddSchemaPath after the path has been split: the node it returns is the one that the names lead to. Every
   node that was there is as before, but for its list of children and for the last node of the path if it is to be
   overridden; every node that was not there lies on the way; and siblings still have different names. The walk may
   fail part way and leave what it added. Paths and orders stay right unless an override does not suit them. It
   succeeds exactly if the first name is a root's, the type fits the last segment, and every segment is accepted.
   */
  method AddSchemaPath(m: DataModel, deviceRoot: nat, internalRoot: nat, segs: seq<Segment>, kind: NodeType,
    flags: Flags)
    returns (r: Option<nat>, root: nat)
    requires m.Valid() && SiblingsDiffer(m.nodes) && deviceRoot in m.nodes && internalRoot in m.nodes
    modifies m
    ensures m.Valid() && SiblingsDiffer(m.nodes) && Kept(old(m.nodes), m.nodes)
    ensures Same(old(m.nodes), m.nodes, if flags.overrideLastType then r else None)
    ensures Grown(old(m.nodes), m.nodes, root, segs, |segs|)
    ensures var h := old(m.nodes);
      AllAgree(h) && h[deviceRoot].parent.None? && h[internalRoot].parent.None? ==>
        (AllAgree(m.nodes) <==> !Misfit(h, segs, kind, flags, r, m.hashOf))
    ensures var start := RootOf(old(m.nodes), deviceRoot, internalRoot, segs);
      r.Some? <==>
        && start.Some? && TypeFits(segs, kind)
        && AllAccepted(old(m.nodes), start.value, segs, flags, |segs|, m.hashOf)
    ensures r.Some? && |segs| > 1 && flags.overrideLastType && r.value in old(m.nodes) ==>
              Overridden(old(m.nodes), m.nodes, r.value, kind, PathText(segs), Order(segs), m.hashOf)
    ensures r.Some? ==> segs != [] && root in old(m.nodes) && old(m.nodes)[root].name == segs[0].name
    ensures r.Some? ==> Trail(m.nodes, root, segs[1..], r.value)
    ensures r.Some? && |segs| > 1 ==>
              Fits(old(m.nodes), m.nodes, r.value, segs, flags.suppressLastTypeCheck, flags.overrideLastType)
  {
    hide SiblingsDiffer, Kept, IsMap, WellFormed, Trail, Fits, Same, Grown, AllAgree, AllAccepted, Overridden;
    ghost var was := m.nodes;
    r, root := None, deviceRoot;
    KeptSelf(m.nodes);
    GrownNot(m.nodes, root, segs, |segs|);
    if segs == [] {
      return;
    }
    var parent := deviceRoot;
    if segs[0].name != m.nodes[deviceRoot].name {
      if segs[0].name != m.nodes[internalRoot].name {
        return;
      }
      parent := internalRoot;
    }
    root := parent;
    GrownNot(m.nodes, root, segs, |segs|);
    if AllAgree(was) && was[root].parent.None? {
      RootArrived(was, root);
    }
    var last := segs[|segs| - 1];
    if (kind.MultiInstance? && !last.kind.MultiInstance?) || (kind.SingleInstance? && !last.kind.SingleInstance?) {
      return;
    }
    r := WalkSegments(m, root, segs, kind, flags);
  }

  lemma RootArrived(h: Heap, root: nat)
    requires AllAgree(h) && root in h && h[root].parent.None?
    ensures Arrived(h, root, h[root].name, 0)
  {
    assert Agrees(h, root);
  }

  /** The last node was there, is overridden, and its new type does not suit the path. */
  predicate Misfit(h: Heap, segs: seq<Segment>, kind: NodeType, flags: Flags, r: Option<nat>, hashOf: string -> nat) {
    && r.Some? && r.value in h && |segs| > 1 && flags.overrideLastType
    && CarriedOut(h, r.value, PathText(segs), hashOf)
    && !SuitsPath(h, r.value, kind, segs[|segs| - 1].kind.MultiInstance?)
  }

  /** The walk has arrived at p with the path and order that p has. */
  predicate Arrived(h: Heap, p: nat, path: string, order: nat) {
    p in h && AllAgree(h) && h[p].path == path && h[p].order == order
  }

  /** The path and order of the child that a segment names */
  predicate Names(h: Heap, up: nat, seg: Segment, path: string, order: nat) {
    && up in h && path == ChildPath(h[up], seg.name, seg.kind.MultiInstance?)
    && order == ChildOrder(h[up], seg.kind.MultiInstance?)
  }

  /** What a step of the walk does to paths and orders: an override of a node of h is carried out, or all is well. */
  predicate StepAgrees(h: Heap, g: Heap, next: Option<nat>, seg: Segment, retype: bool, kind: NodeType, path: string,
    hashOf: string -> nat)
  {
    if next.Some? && next.value in h && retype && CarriedOut(h, next.value, path, hashOf) then
      AllAgree(g) <==> SuitsPath(h, next.value, kind, seg.kind.MultiInstance?)
    else AllAgree(g)
  }

  /** The node p has the new type, path and order, unless the path's hash is taken: then nothing has changed. */
  predicate Overridden(h: Heap, g: Heap, p: nat, kind: NodeType, path: string, order: nat, hashOf: string -> nat)
    requires p in h
  {
    if CarriedOut(h, p, path, hashOf) then
      p in g && g[p] == h[p].(kind := kind, path := path, hash := hashOf(path), order := order)
    else g == h
  }

  /** What one step of the walk from the node up makes of the nodes h. */
  predicate Descended(h: Heap, g: Heap, up: nat, seg: Segment, isLast: bool, kind: NodeType, flags: Flags,
    path: string, order: nat, next: Option<nat>, hashOf: string -> nat)
  {
    var retype := isLast && flags.overrideLastType;
    && Kept(h, g) && Same(h, g, if retype then next else None)
    && (forall q :: q in g && q !in h ==> next == Some(q))
    && (AllAgree(h) && Names(h, up, seg, path, order) ==> StepAgrees(h, g, next, seg, retype, kind, path, hashOf))
    && (next.Some? ==>
          && next.value in g && g[next.value].name == seg.name && g[next.value].parent == Some(up)
          && Reached(h, g, up, seg, next.value, retype, isLast && flags.suppressLastTypeCheck, path, order)
          && (retype && next.value in h ==> Overridden(h, g, next.value, kind, path, order, hashOf)))
  }

  /** What is known of the node p that the step reached. */
  predicate Reached(h: Heap, g: Heap, up: nat, seg: Segment, p: nat, retype: bool, anyType: bool, path: string,
    order: nat)
  {
    && p in g && (!retype ==> g[p].order == order) && (!retype && !anyType ==> g[p].kind == seg.kind)
    && (p in h ==> up in h && h[up].children != [] && (!retype ==> g == h))
    && (p !in h ==> g[p].path == path && g[p].kind == seg.kind && g[p].order == order && g[p].children == [])
  }

  // ---------------------------------------------------------------- which paths are accepted

  /** No node is reached by the first i names below the root. */
  ghost predicate Missing(h: Heap, root: nat, segs: seq<Segment>, i: nat)
    requires i < |segs|
  {
    forall p :: p in h ==> !Trail(h, root, segs[1..i + 1], p)
  }

  /** An existing node suits a segment: its type and order, as far as they are checked, and that it may exist. */
  predicate Suitable(n: Node, seg: Segment, isLast: bool, order: nat, flags: Flags) {
    && (isLast ==> flags.suppressPreExistence || flags.overrideLastType)
    && (n.kind == seg.kind || (isLast && (flags.suppressLastTypeCheck || flags.overrideLastType)))
    && (n.order == order || (isLast && flags.overrideLastType))
  }

  function HashAt(segs: seq<Segment>, i: nat, hashOf: string -> nat): nat
    requires i < |segs|
  {
    hashOf(PathText(segs[..i + 1]))
  }

  /** The hash belongs to a node, or to one that the walk adds before segment i. */
  ghost predicate Taken(h: Heap, root: nat, segs: seq<Segment>, i: nat, hash: nat, hashOf: string -> nat)
    requires i <= |segs|
  {
    HashTaken(h, hash) || exists j :: 1 <= j < i && Missing(h, root, segs, j) && HashAt(segs, j, hashOf) == hash
  }

  /** Segment i is accepted: its node suits it, or is missing, no table inside the path, and its hash is free. */
  ghost predicate Accepted(h: Heap, root: nat, segs: seq<Segment>, flags: Flags, i: nat, hashOf: string -> nat)
    requires 1 <= i < |segs|
  {
    var isLast := i == |segs| - 1;
    && (forall p :: p in h && Trail(h, root, segs[1..i + 1], p) ==>
          Suitable(h[p], segs[i], isLast, Order(segs[..i + 1]), flags))
    && (Missing(h, root, segs, i) ==>
          (segs[i].kind.MultiInstance? ==> isLast) && !Taken(h, root, segs, i, HashAt(segs, i, hashOf), hashOf))
  }

  ghost predicate AllAccepted(h: Heap, root: nat, segs: seq<Segment>, flags: Flags, i: nat, hashOf: string -> nat)
    requires i <= |segs|
  {
    forall j :: 1 <= j < i ==> Accepted(h, root, segs, flags, j, hashOf)
  }

  /** The root that the first name gives */
  function RootOf(h: Heap, deviceRoot: nat, internalRoot: nat, segs: seq<Segment>): Option<nat>
    requires deviceRoot in h && internalRoot in h
  {
    if segs == [] then None
    else if h[deviceRoot].name == segs[0].name then Some(deviceRoot)
    else if h[internalRoot].name == segs[0].name then Some(internalRoot)
    else None
  }

  /** A path for a table must end as one, and a path for an object that is none must not. */
  predicate TypeFits(segs: seq<Segment>, kind: NodeType)
    requires segs != []
  {
    var last := segs[|segs| - 1].kind;
    (kind.MultiInstance? ==> last.MultiInstance?) && (kind.SingleInstance? ==> last.SingleInstance?)
  }

  predicate IsNamed(h: Heap, c: nat, up: nat, name: string) {
    c in h && h[c].parent == Some(up) && h[c].name == name
  }

  /** One step of the walk succeeds: said of the nodes it starts from. */
  ghost predicate MayDescend(h: Heap, up: nat, seg: Segment, isLast: bool, flags: Flags, path: string, order: nat,
    hashOf: string -> nat)
  {
    && (forall c :: IsNamed(h, c, up, seg.name) ==> Suitable(h[c], seg, isLast, order, flags))
    && ((forall c :: !IsNamed(h, c, up, seg.name)) ==>
          (seg.kind.MultiInstance? ==> isLast) && !HashTaken(h, hashOf(path)))
  }

  /** The hashes in use after a step that overrides nothing */
  ghost predicate HashesGrow(h: Heap, g: Heap, next: nat, path: string, hashOf: string -> nat) {
    forall x :: HashTaken(g, x) <==> HashTaken(h, x) || (next !in h && x == hashOf(path))
  }

  /** The walk has come to p by segment i, and all hashes taken are those of old nodes and of the missing ones. */
  ghost predicate OnTrack(h: Heap, g: Heap, root: nat, segs: seq<Segment>, i: nat, p: nat, hashOf: string -> nat)
    requires 1 <= i <= |segs|
  {
    && (if p in h then g == h && Trail(h, root, segs[1..i], p) else i > 1 && Missing(h, root, segs, i - 1))
    && (p !in h ==> p in g && g[p].children == [])
    && forall x :: HashTaken(g, x) <==> Taken(h, root, segs, i, x, hashOf)
  }

  lemma OnTrackStarts(h: Heap, root: nat, segs: seq<Segment>, hashOf: string -> nat)
    requires root in h && segs != []
    ensures OnTrack(h, h, root, segs, 1, root, hashOf)
  {
    TrailStart(h, root, segs);
  }

  /** Whoever is named below up is reached by one more name. */
  lemma NamedIsReached(h: Heap, root: nat, segs: seq<Segment>, i: nat, up: nat, c: nat)
    requires 1 <= i < |segs| && IsTree(h) && SiblingsDiffer(h) && Trail(h, root, segs[1..i], up)
    ensures IsNamed(h, c, up, segs[i].name) <==> c in h && Trail(h, root, segs[1..i + 1], c)
  {
    hide SiblingsDiffer, IsTree;
    var s := segs[1..i + 1];
    assert s[..|s| - 1] == segs[1..i] && s[|s| - 1] == segs[i];
    if Trail(h, root, s, c) {
      TrailUnique(h, root, segs[1..i], up, h[c].parent.value);
    }
  }

  lemma MissingBelow(h: Heap, root: nat, segs: seq<Segment>, i: nat)
    requires 1 <= i && i + 1 < |segs| && ParentsHold(h) && Missing(h, root, segs, i)
    ensures Missing(h, root, segs, i + 1)
  {
    var s := segs[1..i + 2];
    assert s[..|s| - 1] == segs[1..i + 1];
  }

  lemma NoneNamed(h: Heap, up: nat, name: string)
    requires ParentsHold(h) && up in h && h[up].children == []
    ensures forall c :: !IsNamed(h, c, up, name)
  {
  }

  /** Whether a step succeeds is whether its segment is accepted. */
  lemma StepDecides(h: Heap, b: Heap, root: nat, segs: seq<Segment>, i: nat, up: nat, flags: Flags,
    hashOf: string -> nat)
    requires 1 <= i < |segs| && IsTree(h) && SiblingsDiffer(h) && IsTree(b) && OnTrack(h, b, root, segs, i, up, hashOf)
    ensures MayDescend(b, up, segs[i], i == |segs| - 1, flags, PathText(segs[..i + 1]), Order(segs[..i + 1]), hashOf)
            <==> Accepted(h, root, segs, flags, i, hashOf)
  {
    hide SiblingsDiffer, ChildrenHold, NoRepeats, Trail, HashTaken, PathText, Order, Suitable, Taken;
    if up in h {
      forall c ensures IsNamed(h, c, up, segs[i].name) <==> c in h && Trail(h, root, segs[1..i + 1], c) {
        NamedIsReached(h, root, segs, i, up, c);
      }
    } else {
      MissingBelow(h, root, segs, i - 1);
      NoneNamed(b, up, segs[i].name);
    }
  }

  /** The walk goes on to the next node, found or added. */
  lemma OnTrackNext(h: Heap, b: Heap, g: Heap, root: nat, segs: seq<Segment>, i: nat, up: nat, p: nat,
    hashOf: string -> nat)
    requires 1 <= i < |segs| && IsTree(h) && SiblingsDiffer(h) && IsTree(g) && SiblingsDiffer(g)
    requires OnTrack(h, b, root, segs, i, up, hashOf) && HashesGrow(b, g, p, PathText(segs[..i + 1]), hashOf)
    requires Kept(h, g) && Trail(g, root, segs[1..i + 1], p) && p in g
    requires p in b ==> g == b && up in b && b[up].children != []
    requires p !in b ==> p !in h && g[p].children == []
    ensures OnTrack(h, g, root, segs, i + 1, p, hashOf)
  {
    hide SiblingsDiffer, IsTree, Trail, HashTaken, PathText, Kept;
    if p in b {
      assert g == h;
      TakenSame(h, root, segs, i, p, hashOf);
    } else {
      forall q | q in h ensures !Trail(h, root, segs[1..i + 1], q) {
        if Trail(h, root, segs[1..i + 1], q) {
          TrailKept(h, g, root, segs[1..i + 1], q);
          TrailUnique(g, root, segs[1..i + 1], p, q);
        }
      }
      TakenMore(h, root, segs, i, hashOf);
    }
  }

  lemma TakenSame(h: Heap, root: nat, segs: seq<Segment>, i: nat, p: nat, hashOf: string -> nat)
    requires 1 <= i < |segs| && p in h && Trail(h, root, segs[1..i + 1], p)
    ensures forall x :: Taken(h, root, segs, i + 1, x, hashOf) <==> Taken(h, root, segs, i, x, hashOf)
  {
    hide Trail, HashTaken, HashAt;
    assert !Missing(h, root, segs, i);
  }

  lemma TakenMore(h: Heap, root: nat, segs: seq<Segment>, i: nat, hashOf: string -> nat)
    requires 1 <= i < |segs| && Missing(h, root, segs, i)
    ensures forall x :: Taken(h, root, segs, i + 1, x, hashOf) <==>
        Taken(h, root, segs, i, x, hashOf) || x == HashAt(segs, i, hashOf)
  {
    hide Missing, HashTaken, HashAt;
    forall x
      ensures Taken(h, root, segs, i + 1, x, hashOf) <==>
              Taken(h, root, segs, i, x, hashOf) || x == HashAt(segs, i, hashOf)
    {
      assert HashAt(segs, i, hashOf) == x ==> Taken(h, root, segs, i + 1, x, hashOf);
    }
  }

  // ---------------------------------------------------------------- the walk

  /** The nodes of the walk after i segments, at the node p: nothing was added yet, or p was. */
  ghost predicate Walking(h: Heap, g: Heap, root: nat, segs: seq<Segment>, i: nat, p: nat)
    requires i <= |segs|
  {
    && 1 <= i && p in g && Kept(h, g) && Trail(g, root, segs[1..i], p) && Grown(h, g, root, segs, i)
    && Same(h, g, None) && (g == h || (p !in h && g[p].children == []))
    && (Arrived(h, root, segs[0].name, 0) ==> Arrived(g, p, PathText(segs[..i]), Order(segs[..i])))
  }

  /** What the walk leaves: the node at its end, or part of the way to it. */
  ghost predicate Walked(h: Heap, g: Heap, root: nat, segs: seq<Segment>, kind: NodeType, flags: Flags, r: Option<nat>,
    hashOf: string -> nat)
    requires segs != []
  {
    && Kept(h, g) && Same(h, g, if flags.overrideLastType then r else None) && Grown(h, g, root, segs, |segs|)
    && (Arrived(h, root, segs[0].name, 0) ==> (AllAgree(g) <==> !Misfit(h, segs, kind, flags, r, hashOf)))
    && (r.Some? ==> Trail(g, root, segs[1..], r.value))
    && (r.Some? && |segs| > 1 ==>
          Fits(h, g, r.value, segs, flags.suppressLastTypeCheck, flags.overrideLastType))
    && (r.Some? && |segs| > 1 && flags.overrideLastType && r.value in h ==>
          Overridden(h, g, r.value, kind, PathText(segs), Order(segs), hashOf))
  }

  lemma WalkStarts(h: Heap, root: nat, segs: seq<Segment>)
    requires root in h && segs != []
    ensures Walking(h, h, root, segs, 1, root)
  {
    hide Kept, Same, Grown, AllAgree;
    KeptSelf(h);
    GrownNot(h, root, segs, 1);
    TrailStart(h, root, segs);
    assert segs[..1] == [segs[0]];
  }

  /** A path of the root alone */
  lemma WalkedNowhere(h: Heap, root: nat, segs: seq<Segment>, kind: NodeType, flags: Flags, hashOf: string -> nat)
    requires |segs| == 1 && root in h
    ensures Walked(h, h, root, segs, kind, flags, Some(root), hashOf)
  {
    hide AllAgree;
    KeptSelf(h);
    GrownNot(h, root, segs, 1);
    TrailStart(h, root, segs);
    assert segs[1..1] == segs[1..];
  }

  lemma NamesNext(h: Heap, p: nat, segs: seq<Segment>, i: nat)
    requires 1 <= i < |segs| && Arrived(h, p, PathText(segs[..i]), Order(segs[..i]))
    ensures AllAgree(h) && Names(h, p, segs[i], PathText(segs[..i + 1]), Order(segs[..i + 1]))
  {
    hide AllAgree, PathText, Order;
    PathStep(segs, i);
  }

  lemma ArrivedNext(h: Heap, g: Heap, up: nat, p: nat, seg: Segment, path: string, order: nat)
    requires Names(h, up, seg, path, order) && AllAgree(g) && Same(h, g, None)
    requires p in g && g[p].name == seg.name && g[p].parent == Some(up) && g[p].kind == seg.kind
    ensures Arrived(g, p, path, order)
  {
    hide Same;
    SameAt(h, g, up);
    assert Agrees(g, p);
  }

  /** A segment before the last */
  lemma WalkGoesOn(h: Heap, b: Heap, g: Heap, root: nat, segs: seq<Segment>, i: nat, up: nat, kind: NodeType,
    flags: Flags, p: nat, hashOf: string -> nat)
    requires i + 1 < |segs| && Walking(h, b, root, segs, i, up)
    requires Descended(b, g, up, segs[i], false, kind, flags, PathText(segs[..i + 1]), Order(segs[..i + 1]), Some(p),
                       hashOf)
    ensures Walking(h, g, root, segs, i + 1, p)
  {
    hide Kept, Same, Grown, AllAgree, Trail, PathText, Order, Names;
    KeptTwice(h, b, g);
    SameTwice(h, b, g, None);
    TrailStep(b, g, root, segs, i, up, p);
    GrownStep(h, b, g, root, segs, i, Some(p));
    if p !in b {
      NewStaysNew(h, b, p);
    }
    if Arrived(h, root, segs[0].name, 0) {
      NamesNext(b, up, segs, i);
      ArrivedNext(b, g, up, p, segs[i], PathText(segs[..i + 1]), Order(segs[..i + 1]));
    }
  }

  /** The last segment, or one at which the walk fails */
  lemma WalkEnds(h: Heap, b: Heap, g: Heap, root: nat, segs: seq<Segment>, i: nat, up: nat, kind: NodeType,
    flags: Flags, r: Option<nat>, hashOf: string -> nat)
    requires i < |segs| && Walking(h, b, root, segs, i, up) && (r.Some? ==> i == |segs| - 1)
    requires Descended(b, g, up, segs[i], i == |segs| - 1, kind, flags, PathText(segs[..i + 1]), Order(segs[..i + 1]),
                       r, hashOf)
    ensures Walked(h, g, root, segs, kind, flags, r, hashOf)
  {
    hide Kept, Same, Grown, AllAgree, Trail, PathText, Order, Names, Fits, SuitsPath, CarriedOut, Overridden;
    KeptTwice(h, b, g);
    SameTwice(h, b, g, if flags.overrideLastType then r else None);
    if r.Some? {
      TrailStep(b, g, root, segs, i, up, r.value);
      assert segs[..i + 1] == segs && segs[1..i + 1] == segs[1..];
      if r.value !in b {
        NewStaysNew(h, b, r.value);
      }
      LastFits(h, b, g, r.value, segs, flags.suppressLastTypeCheck, flags.overrideLastType);
    }
    GrownStep(h, b, g, root, segs, i, r);
    GrownLonger(h, g, root, segs, i + 1);
    if Arrived(h, root, segs[0].name, 0) {
      NamesNext(b, up, segs, i);
    }
  }

  /** The loop over the segments below the root */
  method WalkSegments(m: DataModel, root: nat, segs: seq<Segment>, kind: NodeType, flags: Flags)
    returns (r: Option<nat>)
    requires m.Valid() && SiblingsDiffer(m.nodes) && root in m.nodes && segs != []
    modifies m
    ensures m.Valid() && SiblingsDiffer(m.nodes)
    ensures Walked(old(m.nodes), m.nodes, root, segs, kind, flags, r, m.hashOf)
    ensures r.Some? <==> AllAccepted(old(m.nodes), root, segs, flags, |segs|, m.hashOf)
  {
    hide SiblingsDiffer, IsMap, HashesHold, IsTree, Walking, Walked, Descended, Accepted, OnTrack, MayDescend;
    hide HashesGrow;
    var parent := root;
    var path, order, i := segs[0].name, 0, 1;
    WalkStarts(m.nodes, root, segs);
    OnTrackStarts(m.nodes, root, segs, m.hashOf);
    WalkingAt(m.nodes, m.nodes, root, segs, 1, root);
    assert segs[..1] == [segs[0]];
    if |segs| == 1 {
      WalkedNowhere(m.nodes, root, segs, kind, flags, m.hashOf);
    }
    while i < |segs|
      invariant 1 <= i <= |segs| && m.Valid() && SiblingsDiffer(m.nodes)
      invariant path == PathText(segs[..i]) && order == Order(segs[..i])
      invariant i < |segs| ==> parent in m.nodes && Kept(old(m.nodes), m.nodes)
      invariant i < |segs| ==> Walking(old(m.nodes), m.nodes, root, segs, i, parent)
      invariant AllAccepted(old(m.nodes), root, segs, flags, i, m.hashOf)
      invariant i < |segs| ==> OnTrack(old(m.nodes), m.nodes, root, segs, i, parent, m.hashOf)
      invariant i == |segs| ==> Walked(old(m.nodes), m.nodes, root, segs, kind, flags, Some(parent), m.hashOf)
    {
      var seg := segs[i];
      path := path + "." + seg.name + (if seg.kind.MultiInstance? then ".{i}" else "");
      if seg.kind.MultiInstance? {
        order := order + 1;
      }
      PathStep(segs, i);
      ghost var before := m.nodes;
      StepDecides(old(m.nodes), before, root, segs, i, parent, flags, m.hashOf);
      var next := Descend(m, parent, seg, i == |segs| - 1, kind, flags, path, order);
      if next.None? || i == |segs| - 1 {
        WalkEnds(old(m.nodes), before, m.nodes, root, segs, i, parent, kind, flags, next, m.hashOf);
      } else {
        WalkGoesOn(old(m.nodes), before, m.nodes, root, segs, i, parent, kind, flags, next.value, m.hashOf);
        StaysOnTrack(old(m.nodes), before, m.nodes, root, segs, i, parent, kind, flags, next.value, m.hashOf);
        WalkingAt(old(m.nodes), m.nodes, root, segs, i + 1, next.value);
      }
      if next.None? {
        return None;
      }
      parent := next.value;
      i := i + 1;
    }
    r := Some(parent);
  }

  lemma StaysOnTrack(h: Heap, b: Heap, g: Heap, root: nat, segs: seq<Segment>, i: nat, up: nat, kind: NodeType,
    flags: Flags, p: nat, hashOf: string -> nat)
    requires i + 1 < |segs| && IsTree(h) && SiblingsDiffer(h) && IsTree(g) && SiblingsDiffer(g)
    requires 1 <= i && OnTrack(h, b, root, segs, i, up, hashOf) && Walking(h, g, root, segs, i + 1, p)
    requires Descended(b, g, up, segs[i], false, kind, flags, PathText(segs[..i + 1]), Order(segs[..i + 1]), Some(p),
                       hashOf)
    requires HashesGrow(b, g, p, PathText(segs[..i + 1]), hashOf) && Kept(h, b)
    ensures OnTrack(h, g, root, segs, i + 1, p, hashOf)
  {
    hide SiblingsDiffer, IsTree, OnTrack, Kept, Same, Grown, Trail, AllAgree, HashesGrow, PathText, Order;
    if p !in b {
      NewStaysNew(h, b, p);
    }
    OnTrackNext(h, b, g, root, segs, i, up, p, hashOf);
  }

  lemma WalkingAt(h: Heap, g: Heap, root: nat, segs: seq<Segment>, i: nat, p: nat)
    requires i <= |segs| && Walking(h, g, root, segs, i, p)
    ensures p in g && Kept(h, g)
  {
  }

  /** One segment of the walk, with order already counting it: the child of that name, found or added */
  method Descend(m: DataModel, up: nat, seg: Segment, isLast: bool, kind: NodeType, flags: Flags, path: string,
    order: nat)
    returns (next: Option<nat>)
    requires m.Valid() && SiblingsDiffer(m.nodes) && up in m.nodes
    modifies m
    ensures m.Valid() && SiblingsDiffer(m.nodes)
    ensures Descended(old(m.nodes), m.nodes, up, seg, isLast, kind, flags, path, order, next, m.hashOf)
    ensures next.Some? <==> MayDescend(old(m.nodes), up, seg, isLast, flags, path, order, m.hashOf)
    ensures next.Some? && !(isLast && flags.overrideLastType) ==>
              HashesGrow(old(m.nodes), m.nodes, next.value, path, m.hashOf)
  {
    hide SiblingsDiffer, Kept, IsMap, HashesHold, Same, AllAgree, Names, SuitsPath, CarriedOut, Apply, HashesGrow;
    hide Descended, MayDescend, HashTaken, Suitable, StepAgrees, Overridden;
    NothingDone(m.nodes, up, seg, isLast, kind, flags, path, order, m.hashOf);
    var child := FindMatchingChild(m.nodes, up, seg.name);
    ChildDecides(m.nodes, up, seg, child, isLast, flags, path, order, m.hashOf);
    if child.None? {
      if seg.kind.MultiInstance? && !isLast {
        return None;
      }
      next := Extend(m, up, seg, path, order);
      if next.Some? {
        AddedDescends(old(m.nodes), m.nodes, up, seg, isLast, kind, flags, path, order, next.value, m.hashOf);
      }
    } else {
      NotSuitable(m.nodes[child.value], seg, isLast, order, flags);
      if isLast && !flags.suppressPreExistence && !flags.overrideLastType {
        return None;
      }
      var check := !(isLast && (flags.suppressLastTypeCheck || flags.overrideLastType));
      if check && m.nodes[child.value].kind != seg.kind {
        return None;
      }
      if AllAgree(m.nodes) && Names(m.nodes, up, seg, path, order) {
        OverrideAgrees(m.Value(), up, child.value, seg, kind, path, order, m.hashOf);
      }
      OverrideSets(m.Value(), child.value, kind, path, order, m.hashOf);
      next := Visit(m, child.value, isLast && flags.overrideLastType, kind, path, order);
      HashesStay(old(m.nodes), child.value, path, m.hashOf);
      if next.Some? {
        HasChild(old(m.nodes), up, child.value);
        VisitedDescends(old(m.nodes), m.nodes, up, seg, isLast, kind, flags, path, order, child.value, m.hashOf);
      }
    }
  }

  lemma OverrideSets(s: Schema, p: nat, kind: NodeType, path: string, order: nat, hashOf: string -> nat)
    requires WellFormed(s, hashOf) && p in s.h
    ensures Overridden(s.h, Apply(s, Override(p, kind, path, order), hashOf).h, p, kind, path, order, hashOf)
  {
    hide HashTaken;
  }

  lemma HasChild(h: Heap, up: nat, c: nat)
    requires IsTree(h) && c in h && h[c].parent == Some(up)
    ensures up in h && h[up].children != []
  {
  }

  lemma NotSuitable(n: Node, seg: Segment, isLast: bool, order: nat, flags: Flags)
    ensures Suitable(n, seg, isLast, order, flags) <==>
            && !(isLast && !flags.suppressPreExistence && !flags.overrideLastType)
            && !(!(isLast && (flags.suppressLastTypeCheck || flags.overrideLastType)) && n.kind != seg.kind)
            && ((isLast && flags.overrideLastType) || n.order == order)
  {
  }

  lemma NothingDone(h: Heap, up: nat, seg: Segment, isLast: bool, kind: NodeType, flags: Flags, path: string,
    order: nat, hashOf: string -> nat)
    ensures Descended(h, h, up, seg, isLast, kind, flags, path, order, None, hashOf)
  {
    hide AllAgree;
    KeptSelf(h);
  }

  lemma AddedDescends(h: Heap, g: Heap, up: nat, seg: Segment, isLast: bool, kind: NodeType, flags: Flags,
    path: string, order: nat, p: nat, hashOf: string -> nat)
    requires Kept(h, g) && Same(h, g, None) && p !in h && (forall q :: q in g && q !in h ==> q == p)
    requires AllAgree(h) && Names(h, up, seg, path, order) ==> AllAgree(g)
    requires p in g && g[p].name == seg.name && g[p].parent == Some(up)
    requires g[p].path == path && g[p].kind == seg.kind && g[p].order == order && g[p].children == []
    ensures Descended(h, g, up, seg, isLast, kind, flags, path, order, Some(p), hashOf)
  {
    hide AllAgree, Kept, Same, Names;
    SameBut(h, g, Some(p));
  }

  lemma VisitedDescends(h: Heap, g: Heap, up: nat, seg: Segment, isLast: bool, kind: NodeType, flags: Flags,
    path: string, order: nat, p: nat, hashOf: string -> nat)
    requires p in h && h[p].name == seg.name && h[p].parent == Some(up) && up in h && h[up].children != []
    requires var retype := isLast && flags.overrideLastType;
      && Kept(h, g) && Same(h, g, if retype then Some(p) else None) && g.Keys == h.Keys
      && (!retype ==> g == h && h[p].order == order)
      && (retype && AllAgree(h) && Names(h, up, seg, path, order) ==>
            (AllAgree(g) <==> (CarriedOut(h, p, path, hashOf) ==>
               SuitsPath(h, p, kind, seg.kind.MultiInstance?))))
    requires !(isLast && (flags.suppressLastTypeCheck || flags.overrideLastType)) ==> h[p].kind == seg.kind
    requires isLast && flags.overrideLastType ==> Overridden(h, g, p, kind, path, order, hashOf)
    ensures Descended(h, g, up, seg, isLast, kind, flags, path, order, Some(p), hashOf)
  {
    hide AllAgree, Kept, Same, Names, CarriedOut, SuitsPath, Overridden;
    KeptAt(h, g, p);
  }

  /** The child of that name is the only node that decides. */
  lemma ChildDecides(h: Heap, up: nat, seg: Segment, child: Option<nat>, isLast: bool, flags: Flags, path: string,
    order: nat, hashOf: string -> nat)
    requires IsTree(h) && SiblingsDiffer(h) && up in h
    requires child.Some? ==> IsNamed(h, child.value, up, seg.name)
    requires child.None? ==> forall i :: 0 <= i < |h[up].children| && h[up].children[i] in h ==>
        h[h[up].children[i]].name != seg.name
    ensures MayDescend(h, up, seg, isLast, flags, path, order, hashOf) <==>
            if child.Some? then Suitable(h[child.value], seg, isLast, order, flags)
            else (seg.kind.MultiInstance? ==> isLast) && !HashTaken(h, hashOf(path))
  {
    hide HashTaken, Suitable, NoRepeats;
    forall c: nat | IsNamed(h, c, up, seg.name) ensures child == Some(c) {
      var i :| 0 <= i < |h[up].children| && h[up].children[i] == c;
      if child.Some? {
        var j :| 0 <= j < |h[up].children| && h[up].children[j] == child.value;
      }
    }
  }

  /** Overriding the node that a segment names keeps paths and orders right exactly if the new type suits the path. */
  lemma OverrideAgrees(s: Schema, up: nat, p: nat, seg: Segment, kind: NodeType, path: string, order: nat,
    hashOf: string -> nat)
    requires WellFormed(s, hashOf) && p in s.h && s.h[p].name == seg.name && s.h[p].parent == Some(up)
    requires AllAgree(s.h) && Names(s.h, up, seg, path, order)
    ensures var g := Apply(s, Override(p, kind, path, order), hashOf).h;
      AllAgree(g) <==> (CarriedOut(s.h, p, path, hashOf) ==> SuitsPath(s.h, p, kind, seg.kind.MultiInstance?))
  {
    hide WellFormed, Apply, AllAgree, SuitsPath, ChildPath, CarriedOut;
    ApplyAgrees(s, Override(p, kind, path, order), hashOf);
  }

  /** A missing segment is added, unless its hash is taken. */
  method Extend(m: DataModel, up: nat, seg: Segment, path: string, order: nat) returns (r: Option<nat>)
    requires m.Valid() && SiblingsDiffer(m.nodes) && up in m.nodes
    requires forall i :: 0 <= i < |m.nodes[up].children| && m.nodes[up].children[i] in m.nodes ==>
               m.nodes[m.nodes[up].children[i]].name != seg.name
    modifies m
    ensures m.Valid() && SiblingsDiffer(m.nodes) && Kept(old(m.nodes), m.nodes)
    ensures r.Some? ==> r.value in m.nodes && m.nodes[r.value].name == seg.name && m.nodes[r.value].parent == Some(up)
    ensures r.Some? ==>
              var n := m.nodes[r.value];
              n.path == path && n.kind == seg.kind && n.order == order && n.children == []
    ensures r.Some? ==> r.value !in old(m.nodes)
    ensures Same(old(m.nodes), m.nodes, None)
    ensures forall q :: q in m.nodes && q !in old(m.nodes) ==> r == Some(q)
    ensures AllAgree(old(m.nodes)) && Names(old(m.nodes), up, seg, path, order) ==> AllAgree(m.nodes)
    ensures r.Some? <==> !HashTaken(old(m.nodes), m.hashOf(path))
    ensures r.None? ==> m.nodes == old(m.nodes)
    ensures r.Some? ==> HashesGrow(old(m.nodes), m.nodes, r.value, path, m.hashOf)
  {
    hide SiblingsDiffer, Kept, IsMap, WellFormed, Apply, HashTaken, AllAgree, Same, HashesGrow;
    AddChildStep(m.Value(), up, seg.name, seg.kind, path, order, m.hashOf);
    if !HashTaken(m.nodes, m.hashOf(path)) {
      AddKeeps(m.Value(), up, seg.name, seg.kind, path, order, m.hashOf);
      if AllAgree(m.nodes) && Names(m.nodes, up, seg, path, order) {
        ApplyAgrees(m.Value(), AddChild(up, seg.name, seg.kind, path, order), m.hashOf);
      }
    }
    KeptSelf(m.nodes);
    r := m.AddNode(up, seg.name, seg.kind, path, order);
    if r.Some? {
      HashesAdded(old(m.nodes), m.nodes, r.value, path, m.hashOf);
    }
  }

  lemma HashesAdded(h: Heap, g: Heap, p: nat, path: string, hashOf: string -> nat)
    requires Same(h, g, None) && g.Keys == h.Keys + {p} && p !in h && g[p].hash == hashOf(path)
    ensures HashesGrow(h, g, p, path, hashOf)
  {
    forall x ensures HashTaken(g, x) <==> HashTaken(h, x) || x == hashOf(path) {
      if q :| q in h && h[q].hash == x {
        assert g[q].hash == x;
      }
    }
  }

  lemma HashesStay(h: Heap, p: nat, path: string, hashOf: string -> nat)
    requires p in h
    ensures HashesGrow(h, h, p, path, hashOf)
  {
  }

  /** A segment that exists is retyped, or has its order checked; a retyping refused for its hash goes unnoticed. */
  method Visit(m: DataModel, p: nat, retype: bool, kind: NodeType, path: string, order: nat) returns (r: Option<nat>)
    requires m.Valid() && SiblingsDiffer(m.nodes) && p in m.nodes
    modifies m
    ensures m.Valid() && SiblingsDiffer(m.nodes) && Kept(old(m.nodes), m.nodes)
    ensures r.Some? ==> r.value == p
    ensures !retype ==> m.nodes == old(m.nodes) && (r.Some? <==> old(m.nodes)[p].order == order)
    ensures retype ==> r.Some? && m.Value() == Apply(old(m.Value()), Override(p, kind, path, order), m.hashOf)
    ensures Same(old(m.nodes), m.nodes, if retype then Some(p) else None) && m.nodes.Keys == old(m.nodes).Keys
  {
    hide SiblingsDiffer, Kept, IsMap, WellFormed, Apply, HashTaken, Same;
    KeptSelf(m.nodes);
    if retype {
      OverrideKeeps(m.Value(), p, kind, path, order, m.hashOf);
      var ok := m.OverrideNodeType(p, kind, path, order);
    } else if m.nodes[p].order != order {
      return None;
    }
    r := Some(p);
  }

  lemma KeptSelf(h: Heap)
    ensures Kept(h, h) && Same(h, h, None)
  {
  }

  lemma KeptAt(h: Heap, g: Heap, p: nat)
    requires Kept(h, g) && p in h
    ensures p in g && g[p].name == h[p].name && g[p].parent == h[p].parent
  {
  }

  lemma KeptTwice(a: Heap, b: Heap, c: Heap)
    requires Kept(a, b) && Kept(b, c)
    ensures Kept(a, c)
  {
  }

  lemma PathStep(segs: seq<Segment>, i: nat)
    requires 1 <= i < |segs|
    ensures PathText(segs[..i + 1]) ==
            PathText(segs[..i]) + "." + segs[i].name + (if segs[i].kind.MultiInstance? then ".{i}" else "")
    ensures Order(segs[..i + 1]) == Order(segs[..i]) + if segs[i].kind.MultiInstance? then 1 else 0
  {
    assert segs[..i + 1][..i] == segs[..i];
  }

  lemma NewStaysNew(h: Heap, b: Heap, p: nat)
    requires Kept(h, b) && p !in b
    ensures p !in h
  {
  }

  lemma LastFits(h: Heap, b: Heap, g: Heap, p: nat, segs: seq<Segment>, anyType: bool, retyped: bool)
    requires segs != [] && p in g
    requires !retyped ==> g[p].order == Order(segs)
    requires !anyType && !retyped ==> g[p].kind == segs[|segs| - 1].kind
    requires p !in b ==> g[p].path == PathText(segs) && g[p].kind == segs[|segs| - 1].kind && g[p].order == Order(segs)
    requires p in b ==> p in h
    ensures Fits(h, g, p, segs, anyType, retyped)
  {
  }

  lemma TrailStart(h: Heap, root: nat, segs: seq<Segment>)
    requires segs != []
    ensures Trail(h, root, segs[1..1], root)
  {
  }

  lemma TrailStep(h: Heap, g: Heap, root: nat, segs: seq<Segment>, i: nat, up: nat, p: nat)
    requires 1 <= i < |segs| && Kept(h, g) && Trail(h, root, segs[1..i], up)
    requires p in g && g[p].name == segs[i].name && g[p].parent == Some(up)
    ensures Trail(g, root, segs[1..i + 1], p)
  {
    TrailKept(h, g, root, segs[1..i], up);
    var s := segs[1..i + 1];
    assert s[..|s| - 1] == segs[1..i] && s[|s| - 1] == segs[i];
  }
}
