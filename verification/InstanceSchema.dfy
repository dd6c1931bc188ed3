/** The schema subtree that the functions on instances walk, taken from the schema tree. */
module InstanceSchema {
  import opened CommonDefs
  import opened SchemaTree
  import I = Instances
  import PathHash

  /** What the registered part of a parameter node says: whether it is in the database, and its first value */
  datatype Storage = InDatabase(auto: bool, initial: string) | NotInDatabase

  type Storages = map<nat, Storage>

  /** The node p with everything below it; tables are told apart by their pointers. */
  function Subtree(h: Heap, limit: nat, info: Storages, p: nat): I.SNode
    requires IsTree(h) && p in h && forall q :: q in h ==> q < limit
    decreases limit - p, 0
  {
    match h[p].kind
    case SingleInstance => I.Single(Subtrees(h, limit, info, p, |h[p].children|))
    case MultiInstance => I.Table(p, Subtrees(h, limit, info, p, |h[p].children|))
    case NotObject(_) =>
      if p in info && info[p].InDatabase? then I.DbParam(h[p].hash, info[p].auto, info[p].initial) else I.NotStored
  }

  /** The first i children of p */
  function Subtrees(h: Heap, limit: nat, info: Storages, p: nat, i: nat): (r: seq<I.SNode>)
    requires IsTree(h) && p in h && i <= |h[p].children| && forall q :: q in h ==> q < limit
    ensures |r| == i
    decreases limit - p - 1, i + 1
  {
    if i == 0 then [] else
    var c := h[p].children[i - 1];
    Subtrees(h, limit, info, p, i - 1) + [Subtree(h, limit, info, c)]
  }

  lemma {:induction false} SubtreesAt(h: Heap, limit: nat, info: Storages, p: nat, i: nat, j: nat)
    requires IsTree(h) && p in h && j < i <= |h[p].children| && forall q :: q in h ==> q < limit
    ensures Subtrees(h, limit, info, p, i)[j] == Subtree(h, limit, info, h[p].children[j])
  {
    if j == i - 1 {
    } else {
      SubtreesAt(h, limit, info, p, i - 1, j);
    }
  }

  /** The number of tables from the root down to p */
  function Nesting(h: Heap, p: nat): nat
    requires ParentsHold(h) && p in h
    decreases p
  {
    (if h[p].kind.MultiInstance? then 1 else 0)
    + (if h[p].parent.Some? then Nesting(h, h[p].parent.value) else 0)
  }

  // ---------------------------------------------------------------- tables below different children differ

  /** Two nodes above the same node are above each other. */
  lemma {:induction false} UnderLinear(h: Heap, a: nat, b: nat, c: nat)
    requires ParentsHold(h) && c in h && Under(h, a, c) && Under(h, b, c)
    ensures a in h && b in h && (Under(h, a, b) || Under(h, b, a))
    decreases c
  {
    UnderIsLater(h, a, c);
    UnderIsLater(h, b, c);
    if c == a || c == b {
    } else {
      UnderLinear(h, a, b, h[c].parent.value);
    }
  }

  /** Nothing is below two children of one node. */
  lemma SiblingsApart(h: Heap, p: nat, a: nat, b: nat, q: nat)
    requires IsTree(h) && p in h && a in h[p].children && b in h[p].children && a != b
    requires q in h && Under(h, a, q)
    ensures !Under(h, b, q)
  {
    assert h[a].parent == Some(p) && h[b].parent == Some(p);
    if Under(h, b, q) {
      UnderLinear(h, a, b, q);
      if Under(h, a, b) {
        UnderIsLater(h, a, p);
        assert false;
      } else {
        UnderIsLater(h, b, p);
        assert false;
      }
    }
  }

  lemma {:induction false} TablesAreUnder(h: Heap, limit: nat, info: Storages, p: nat, t: nat)
    requires IsTree(h) && p in h && forall q :: q in h ==> q < limit
    requires t in I.Tables(Subtree(h, limit, info, p))
    ensures t in h && Under(h, p, t)
    decreases limit - p, 0
  {
    if h[p].kind.SingleInstance? {
      TablesInAreUnder(h, limit, info, p, |h[p].children|, t);
    }
  }

  lemma {:induction false} TablesInAreUnder(h: Heap, limit: nat, info: Storages, p: nat, i: nat, t: nat)
    requires IsTree(h) && p in h && IsObject(h[p].kind) && i <= |h[p].children| && forall q :: q in h ==> q < limit
    requires t in I.TablesIn(Subtree(h, limit, info, p), i)
    ensures exists j :: 0 <= j < i && t in h && Under(h, h[p].children[j], t)
    ensures t in h && Under(h, p, t)
    decreases limit - p - 1, i + 1
  {
    var s := Subtree(h, limit, info, p);
    if t in I.TablesIn(s, i - 1) {
      TablesInAreUnder(h, limit, info, p, i - 1, t);
    } else {
      var c := h[p].children[i - 1];
      SubtreesAt(h, limit, info, p, |h[p].children|, i - 1);
      assert h[c].parent == Some(p);
      TablesAreUnder(h, limit, info, c, t);
      UnderTrans(h, p, c, t);
    }
  }

  /** The subtree of any node of a sound tree, nested no deeper than an instance structure holds, is well formed. */
  lemma {:induction false} SubtreeWellFormed(h: Heap, limit: nat, info: Storages, p: nat)
    requires IsTree(h) && p in h && forall q :: q in h ==> q < limit
    requires forall q :: q in h ==> Nesting(h, q) <= PathHash.MAX_DM_INSTANCE_ORDER
    ensures I.MembersWellFormed(Subtree(h, limit, info, p), Nesting(h, p))
    ensures I.WellFormed(Subtree(h, limit, info, p), Nesting(h, p) - if h[p].kind.MultiInstance? then 1 else 0)
    decreases limit - p
  {
    var s := Subtree(h, limit, info, p);
    if IsObject(h[p].kind) {
      var c := h[p].children;
      forall i | 0 <= i < |c|
        ensures I.WellFormed(I.Members(s)[i], Nesting(h, p)) && I.TablesIn(s, i) !! I.Tables(I.Members(s)[i])
      {
        SubtreesAt(h, limit, info, p, |c|, i);
        assert h[c[i]].parent == Some(p);
        SubtreeWellFormed(h, limit, info, c[i]);
        forall t | t in I.TablesIn(s, i) ensures t !in I.Tables(I.Members(s)[i]) {
          TablesInAreUnder(h, limit, info, p, i, t);
          var j :| 0 <= j < i && t in h && Under(h, c[j], t);
          SiblingsApart(h, p, c[j], c[i], t);
          if t in I.Tables(I.Members(s)[i]) {
            TablesAreUnder(h, limit, info, c[i], t);
            assert false;
          }
        }
      }
    }
  }
}
