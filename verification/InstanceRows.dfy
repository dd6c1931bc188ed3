/**
 The database rows of an instance said in terms of the schema tree and of paths: which rows adding writes and deleting
 removes.
 */
module InstanceRows {
  import opened CommonDefs
  import opened SchemaTree
  import opened SchemaNames
  import opened InstanceSchema
  import I = Instances
  import K = DbKeys
  import PH = PathHash
  import L = SchemaLookup

  // ---------------------------------------------------------------- nodes reached from a node

  /** The tables from the root down to p, p itself included */
  function TablesTo(h: Heap, p: nat): seq<nat>
    requires ParentsHold(h) && p in h
    decreases p
  {
    Above(h, p) + if h[p].kind.MultiInstance? then [p] else []
  }

  /** The tables from the root down to the parent of p */
  function Above(h: Heap, p: nat): seq<nat>
    requires ParentsHold(h) && p in h
    decreases p, 0
  {
    if h[p].parent.Some? then TablesTo(h, h[p].parent.value) else []
  }

  function Ids(inst: I.Inst): (r: seq<nat>)
    ensures |r| == |inst| && forall i :: 0 <= i < |r| ==> r[i] == inst[i].table
  {
    seq(|inst|, i requires 0 <= i < |inst| => inst[i].table)
  }

  /** A parameter kept in the database */
  predicate Stored(h: Heap, info: Storages, q: nat) {
    q in h && h[q].kind.NotObject? && q in info && info[q].InDatabase?
  }

  lemma IdsAppend(a: I.Inst, b: I.Inst)
    ensures Ids(a + b) == Ids(a) + Ids(b)
  {
  }

  predicate Bounded(h: Heap, limit: nat) {
    forall q :: q in h ==> q < limit
  }

  /** q is p, or below it with nothing but objects in between. */
  predicate Below(h: Heap, p: nat, q: nat)
    requires ParentsHold(h) && q in h
    decreases q
  {
    q == p || (h[q].parent.Some? && IsObject(h[h[q].parent.value].kind) && Below(h, p, h[q].parent.value))
  }

  lemma {:induction false} BelowTrans(h: Heap, a: nat, b: nat, c: nat)
    requires ParentsHold(h) && b in h && c in h && Below(h, a, b) && Below(h, b, c)
    ensures Below(h, a, c)
    decreases c
  {
    if c != b {
      BelowTrans(h, a, b, h[c].parent.value);
    }
  }

  lemma {:induction false} BelowIsUnder(h: Heap, p: nat, q: nat)
    requires ParentsHold(h) && q in h && Below(h, p, q)
    ensures Under(h, p, q) && p in h && p <= q && (q != p ==> IsObject(h[p].kind))
    decreases q
  {
    if q != p {
      BelowIsUnder(h, p, h[q].parent.value);
    }
  }

  /** What is below p is p, or below one of its children. */
  lemma {:induction false} BelowChild(h: Heap, p: nat, q: nat) returns (i: nat)
    requires IsTree(h) && q in h && Below(h, p, q) && q != p
    ensures p in h && IsObject(h[p].kind) && i < |h[p].children| && h[p].children[i] in h
    ensures Below(h, h[p].children[i], q)
    decreases q
  {
    var up := h[q].parent.value;
    BelowIsUnder(h, p, q);
    if up == p {
      i :| 0 <= i < |h[p].children| && h[p].children[i] == q;
    } else {
      i := BelowChild(h, p, up);
    }
  }

  /** The tables down to a node begin with those down to the nodes above it. */
  lemma {:induction false} TablesBelow(h: Heap, p: nat, q: nat)
    requires ParentsHold(h) && q in h && Below(h, p, q)
    ensures p in h && |TablesTo(h, p)| <= |TablesTo(h, q)| && TablesTo(h, q)[..|TablesTo(h, p)|] == TablesTo(h, p)
    decreases q
  {
    if q != p {
      TablesBelow(h, p, h[q].parent.value);
    }
  }

  lemma ChildOf(h: Heap, p: nat, i: nat)
    requires IsTree(h) && p in h && i < |h[p].children|
    ensures var c := h[p].children[i]; c in h && h[c].parent == Some(p) && p < c && Above(h, c) == TablesTo(h, p)
    ensures IsObject(h[p].kind) ==> Below(h, p, h[p].children[i])
  {
    assert h[h[p].children[i]].parent == Some(p);
  }

  /** What a node leads to in the subtree is a stored parameter below it in the tree. */
  lemma {:induction false} LeadsToNode(h: Heap, limit: nat, info: Storages, p: nat, hops: I.Inst, hash: int)
    returns (q: nat)
    requires IsTree(h) && p in h && Bounded(h, limit) && I.Leads(Subtree(h, limit, info, p), hops, hash)
    ensures Stored(h, info, q) && Below(h, p, q) && h[q].hash == hash && TablesTo(h, q) == Above(h, p) + Ids(hops)
    decreases limit - p, 0
  {
    hide NoRepeats, ChildrenHold;
    match h[p].kind
    case NotObject(_) =>
      q := p;
      assert Ids([]) == [];
    case SingleInstance =>
      q := LeadsInToNode(h, limit, info, p, |h[p].children|, hops, hash);
      assert TablesTo(h, p) == Above(h, p);
    case MultiInstance =>
      q := LeadsInToNode(h, limit, info, p, |h[p].children|, hops[1..], hash);
      FirstHop(hops, p);
      assert Above(h, p) + [p] + Ids(hops[1..]) == Above(h, p) + Ids(hops);
  }

  lemma FirstHop(hops: I.Inst, p: nat)
    requires hops != []
    ensures Ids(hops) == [hops[0].table] + Ids(hops[1..])
  {
  }

  lemma {:induction false} LeadsInToNode(h: Heap, limit: nat, info: Storages, p: nat, i: nat, hops: I.Inst, hash: int)
    returns (q: nat)
    requires IsTree(h) && p in h && Bounded(h, limit) && IsObject(h[p].kind) && i <= |h[p].children|
    requires I.LeadsIn(Subtree(h, limit, info, p), i, hops, hash)
    ensures Stored(h, info, q) && Below(h, p, q) && q != p && h[q].hash == hash
    ensures TablesTo(h, q) == TablesTo(h, p) + Ids(hops)
    decreases limit - p - 1, i + 1
  {
    hide NoRepeats, ChildrenHold;
    var s := Subtree(h, limit, info, p);
    if I.LeadsIn(s, i - 1, hops, hash) {
      q := LeadsInToNode(h, limit, info, p, i - 1, hops, hash);
    } else {
      var c := h[p].children[i - 1];
      SubtreesAt(h, limit, info, p, |h[p].children|, i - 1);
      ChildOf(h, p, i - 1);
      q := LeadsToNode(h, limit, info, c, hops, hash);
      BelowIsUnder(h, c, q);
      BelowTrans(h, p, c, q);
    }
  }

  lemma NextTable(above: seq<nat>, p: nat, tables: seq<nat>, hops: I.Inst)
    requires tables == above + Ids(hops) && |above| < |tables| && tables[..|above| + 1] == above + [p]
    ensures hops != [] && hops[0].table == p && tables == above + [p] + Ids(hops[1..])
  {
    assert hops != [];
    FirstHop(hops, p);
    hide Ids;
    Regroup(above, p, hops[0].table, Ids(hops[1..]), tables);
  }

  lemma Regroup(above: seq<nat>, p: nat, x: nat, more: seq<nat>, tables: seq<nat>)
    requires tables == above + ([x] + more) && tables[..|above| + 1] == above + [p]
    ensures x == p && tables == above + [p] + more
  {
    assert tables[|above|] == x;
    assert tables[..|above| + 1][|above|] == p;
  }

  /** Every stored parameter below a node is led to, through the tables in between. */
  lemma {:induction false} NodeLeads(h: Heap, limit: nat, info: Storages, p: nat, q: nat, hops: I.Inst)
    requires IsTree(h) && p in h && Bounded(h, limit) && Stored(h, info, q) && Below(h, p, q)
    requires TablesTo(h, q) == Above(h, p) + Ids(hops)
    ensures I.Leads(Subtree(h, limit, info, p), hops, h[q].hash)
    decreases limit - p, 0
  {
    hide NoRepeats, ChildrenHold;
    BelowIsUnder(h, p, q);
    match h[p].kind
    case NotObject(_) =>
      assert Ids(hops) == [];
    case SingleInstance =>
      assert TablesTo(h, p) == Above(h, p);
      NodeLeadsIn(h, limit, info, p, q, hops);
    case MultiInstance =>
      TablesBelow(h, p, q);
      NextTable(Above(h, p), p, TablesTo(h, q), hops);
      NodeLeadsIn(h, limit, info, p, q, hops[1..]);
  }

  lemma {:induction false} NodeLeadsIn(h: Heap, limit: nat, info: Storages, p: nat, q: nat, hops: I.Inst)
    requires IsTree(h) && p in h && Bounded(h, limit) && Stored(h, info, q) && Below(h, p, q) && q != p
    requires IsObject(h[p].kind) && TablesTo(h, q) == TablesTo(h, p) + Ids(hops)
    ensures I.LeadsIn(Subtree(h, limit, info, p), |h[p].children|, hops, h[q].hash)
    decreases limit - p - 1, 1
  {
    hide NoRepeats, ChildrenHold;
    var i := BelowChild(h, p, q);
    ChildOf(h, p, i);
    NodeLeads(h, limit, info, h[p].children[i], q, hops);
    SubtreesAt(h, limit, info, p, |h[p].children|, i);
    MemberLeads(Subtree(h, limit, info, p), i, |h[p].children|, hops, h[q].hash);
  }

  lemma {:induction false} MemberLeads(c: I.SNode, i: nat, j: nat, hops: I.Inst, hash: int)
    requires i < j <= |I.Members(c)| && I.Leads(I.Members(c)[i], hops, hash)
    ensures I.LeadsIn(c, j, hops, hash)
    decreases j
  {
    if i < j - 1 {
      MemberLeads(c, i, j - 1, hops, hash);
    }
  }

  // ---------------------------------------------------------------- first values

  /** The parameter node q as the functions on instances see it */
  function Param(h: Heap, info: Storages, q: nat): I.SNode
    requires Stored(h, info, q)
  {
    I.DbParam(h[q].hash, info[q].auto, info[q].initial)
  }

  /** A stored parameter below p with no table in between */
  predicate Fresh(h: Heap, info: Storages, p: nat, q: nat)
    requires ParentsHold(h) && p in h
  {
    Stored(h, info, q) && Below(h, p, q) && q != p && TablesTo(h, q) == TablesTo(h, p)
  }

  lemma {:induction false} StoresToNode(h: Heap, limit: nat, info: Storages, p: nat, i: nat, x: I.SNode)
    returns (q: nat)
    requires IsTree(h) && p in h && Bounded(h, limit) && IsObject(h[p].kind) && i <= |h[p].children| && x.DbParam?
    requires I.Stores(Subtree(h, limit, info, p), i, x)
    ensures Fresh(h, info, p, q) && x == Param(h, info, q)
    decreases limit - p - 1, i
  {
    hide NoRepeats, ChildrenHold;
    var s := Subtree(h, limit, info, p);
    if I.Stores(s, i - 1, x) {
      q := StoresToNode(h, limit, info, p, i - 1, x);
    } else {
      var c := h[p].children[i - 1];
      SubtreesAt(h, limit, info, p, |h[p].children|, i - 1);
      ChildOf(h, p, i - 1);
      if h[c].kind.SingleInstance? {
        q := StoresToNode(h, limit, info, c, |h[c].children|, x);
        BelowIsUnder(h, c, q);
        BelowTrans(h, p, c, q);
      } else {
        q := c;
      }
    }
  }

  lemma {:induction false} NodeStores(h: Heap, limit: nat, info: Storages, p: nat, q: nat)
    requires IsTree(h) && p in h && Bounded(h, limit) && Fresh(h, info, p, q)
    ensures I.Stores(Subtree(h, limit, info, p), |I.Members(Subtree(h, limit, info, p))|, Param(h, info, q))
    decreases limit - p
  {
    hide NoRepeats, ChildrenHold;
    var i := BelowChild(h, p, q);
    var s, c := Subtree(h, limit, info, p), h[p].children[i];
    ChildOf(h, p, i);
    SubtreesAt(h, limit, info, p, |h[p].children|, i);
    TablesBelow(h, c, q);
    BelowIsUnder(h, c, q);
    assert TablesTo(h, c) == TablesTo(h, p);
    if c != q {
      NodeStores(h, limit, info, c, q);
    }
    MemberStores(s, i, |h[p].children|, Param(h, info, q));
  }

  lemma {:induction false} MemberStores(c: I.SNode, i: nat, j: nat, x: I.SNode)
    requires i < j <= |I.Members(c)| && x.DbParam?
    requires var m := I.Members(c)[i]; m == x || (m.Single? && I.Stores(m, |I.Members(m)|, x))
    ensures I.Stores(c, j, x)
    decreases j
  {
    if i < j - 1 {
      MemberStores(c, i, j - 1, x);
    }
  }

  // ---------------------------------------------------------------- rows by path

  /** A schema described by segments, with what is stored of each parameter and the hash the data model uses */
  datatype World = World(s: Schema, d: map<nat, K.Node>, info: Storages, f: L.Hashing, hashOf: string -> nat)

  /** Everything the runs of registration keep, and the two descriptions of a parameter agree. */
  ghost predicate Sound(w: World) {
    && WellFormed(w.s, w.hashOf) && L.Computes(w.f, w.hashOf) && L.Describes(w.s, w.d)
    && AllAgree(w.s.h) && L.Unbraced(w.s.h)
    && forall q :: q in w.d ==> w.d[q].isDbParam == Stored(w.s.h, w.info, q)
  }

  lemma SoundTree(w: World)
    requires Sound(w)
    ensures IsTree(w.s.h) && Bounded(w.s.h, w.s.created)
  {
  }

  /** The subtree of the node p, as the functions on instances walk it */
  ghost function Tree(w: World, p: nat): I.SNode
    requires Sound(w) && p in w.s.h
  {
    Subtree(w.s.h, w.s.created, w.info, p)
  }

  /** k is the database key of the path of parameter q with the instance numbers of inst. */
  ghost predicate IsKeyOf(w: World, q: nat, inst: I.Inst, k: K.Key)
    requires Sound(w) && q in w.s.h
  {
    && |inst| == K.Order(w.d[q].steps)
    && K.KeyOfPath(L.KeyView(w.s, w.hashOf, w.f, w.d), K.PathOf(w.d[q], I.Numbers(inst))) == Some(k)
  }

  lemma {:induction false} OrderIsTables(h: Heap, q: nat)
    requires ParentsHold(h) && AllAgree(h) && q in h
    ensures |TablesTo(h, q)| == h[q].order
    decreases q
  {
    assert Agrees(h, q);
    if h[q].parent.Some? {
      OrderIsTables(h, h[q].parent.value);
    }
  }

  lemma {:induction false} OrderIsInstances(steps: seq<PH.Step>)
    requires K.SchemaSteps(steps)
    ensures PH.AllValid(steps, false) && |PH.Instances(steps, false)| == K.Order(steps)
  {
    if steps == [] {
    } else {
      OrderIsInstances(steps[1..]);
      assert PH.ValidSegment(steps[0].seg, false);
      assert forall i :: 0 < i < |steps| ==> steps[i] == steps[1..][i - 1];
    }
  }

  /** The key of a stored parameter's path is its hash and its instance numbers. */
  lemma KeyOfNode(w: World, q: nat, inst: I.Inst, k: K.Key)
    requires Sound(w) && Stored(w.s.h, w.info, q) && |inst| == |TablesTo(w.s.h, q)|
    ensures IsKeyOf(w, q, inst, k) <==> k == K.Key(w.s.h[q].hash, K.InstanceString(I.Numbers(inst)))
  {
    hide PH.HashFrom, K.InstanceString, K.KeyOfPath, IsTree, PH.NormalRest, PH.ValidName, I.Numbers, K.SchemaSteps;
    var n := w.d[q];
    SoundTree(w);
    RegisteredNode(w, q);
    OrderIsTables(w.s.h, q);
    OrderIsInstances(n.steps);
    PathOrder(w, q);
    K.KeyRoundTrip(L.KeyView(w.s, w.hashOf, w.f, w.d), n, I.Numbers(inst));
  }

  lemma RegisteredNode(w: World, q: nat)
    requires Sound(w) && q in w.s.h
    ensures K.Registered(L.KeyView(w.s, w.hashOf, w.f, w.d), w.d[q]) && K.SchemaSteps(w.d[q].steps)
    ensures K.HashOf(L.KeyView(w.s, w.hashOf, w.f, w.d), w.d[q]) == w.s.h[q].hash
  {
    hide IsTree, PH.HashFrom, PH.ValidName, K.SchemaSteps;
    L.WellFormedRegisters(w.s, w.hashOf, w.f, w.d, q);
  }

  lemma NameIsName(name: string)
    requires PH.ValidName(name)
    ensures PH.IsName(name, false)
  {
  }

  lemma PathOrder(w: World, q: nat)
    requires Sound(w) && q in w.s.h
    ensures w.s.h[q].order == K.Order(w.d[q].steps)
  {
    hide PH.NormalRest, PH.Instances, PH.AllValid, PH.IsName, PH.ValidName, K.Order, K.SchemaSteps;
    hide ParentsHold, ChildrenHold, NoRepeats, HashesHold, AllAgree, L.Unbraced, L.Computes;
    var n := w.d[q];
    assert PH.ValidName(n.first) && K.SchemaSteps(n.steps) && w.s.h[q].path == n.first + PH.NormalRest(n.steps);
    NameIsName(n.first);
    OrderIsInstances(n.steps);
    L.NothingBehind(n.first + PH.NormalRest(n.steps));
    L.PathCount(w.s.h, n.first, n.steps, false, q, "");
  }

  /** q is a stored parameter below p, and full an instance for it: inst, or one that exists and is nested in inst. */
  predicate HasRow(h: Heap, info: Storages, p: nat, v: seq<I.Inst>, inst: I.Inst, q: nat, full: I.Inst)
    requires ParentsHold(h)
  {
    && Stored(h, info, q) && Below(h, p, q) && q != p && Ids(full) == TablesTo(h, q)
    && I.HasPrefix(full, inst) && (full == inst || I.Existing(v, full))
  }

  lemma DeletedFrom(w: World, p: nat, v: seq<I.Inst>, inst: I.Inst, k: K.Key) returns (q: nat, full: I.Inst)
    requires Sound(w) && p in w.s.h && IsObject(w.s.h[p].kind) && Ids(inst) == TablesTo(w.s.h, p)
    requires var c := Tree(w, p); k in I.DoomedIn(c, |I.Members(c)|, v, inst)
    ensures IsTree(w.s.h) && HasRow(w.s.h, w.info, p, v, inst, q, full) && IsKeyOf(w, q, full, k)
  {
    hide IsTree, IsKeyOf, L.KeyView, AllAgree, L.Unbraced, L.Describes, K.InstanceString, I.Numbers;
    SoundTree(w);
    var c := Tree(w, p);
    var hops, hash := I.DoomedInToPath(c, |I.Members(c)|, v, inst, k);
    q := LeadsInToNode(w.s.h, w.s.created, w.info, p, |I.Members(c)|, hops, hash);
    full := inst + hops;
    IdsAppend(inst, hops);
    assert full[..|inst|] == inst;
    assert hops == [] ==> full == inst;
    KeyOfNode(w, q, full, k);
  }

  /**
   Deleting the instance inst of p deletes exactly the rows of the stored parameters below p, at inst and at the
   existing instances nested in it, each under the key of its instantiated path.
   */
  lemma DeletedExactly(w: World, p: nat, v: seq<I.Inst>, inst: I.Inst, k: K.Key)
    requires Sound(w) && p in w.s.h && IsObject(w.s.h[p].kind) && Ids(inst) == TablesTo(w.s.h, p)
    ensures IsTree(w.s.h)
    ensures var c := Tree(w, p);
      k in I.DoomedIn(c, |I.Members(c)|, v, inst) <==>
      exists q, full :: HasRow(w.s.h, w.info, p, v, inst, q, full) && IsKeyOf(w, q, full, k)
  {
    hide IsTree, IsKeyOf, L.KeyView, AllAgree, L.Unbraced, L.Describes, K.InstanceString, I.Numbers, I.DoomedIn;
    SoundTree(w);
    var c := Tree(w, p);
    if k in I.DoomedIn(c, |I.Members(c)|, v, inst) {
      var q, full := DeletedFrom(w, p, v, inst, k);
    }
    if q, full :| HasRow(w.s.h, w.info, p, v, inst, q, full) && IsKeyOf(w, q, full, k) {
      var hops := full[|inst|..];
      assert full == inst + hops;
      IdsAppend(inst, hops);
      assert TablesTo(w.s.h, q) == TablesTo(w.s.h, p) + Ids(hops);
      NodeLeadsIn(w.s.h, w.s.created, w.info, p, q, hops);
      KeyOfNode(w, q, full, k);
      I.PathToDoomedIn(c, |I.Members(c)|, v, inst, hops, w.s.h[q].hash, k);
    }
  }

  /** No row of a parameter that is not below p is deleted, whatever its instance numbers. */
  lemma OtherParametersStay(w: World, p: nat, v: seq<I.Inst>, inst: I.Inst, q: nat, numbers: seq<nat>)
    requires Sound(w) && p in w.s.h && IsObject(w.s.h[p].kind) && q in w.s.h
    requires ParentsHold(w.s.h) && !Below(w.s.h, p, q)
    ensures var c := Tree(w, p);
      K.Key(w.s.h[q].hash, K.InstanceString(numbers)) !in I.DoomedIn(c, |I.Members(c)|, v, inst)
  {
    hide IsTree, L.KeyView, AllAgree, L.Unbraced, L.Describes, K.InstanceString, I.Numbers, I.DoomedIn;
    SoundTree(w);
    var c, k := Tree(w, p), K.Key(w.s.h[q].hash, K.InstanceString(numbers));
    if k in I.DoomedIn(c, |I.Members(c)|, v, inst) {
      var hops, hash := I.DoomedInToPath(c, |I.Members(c)|, v, inst, k);
      var r := LeadsInToNode(w.s.h, w.s.created, w.info, p, |I.Members(c)|, hops, hash);
      assert false;
    }
  }

  /** The first value of a parameter: what its hook answers, or the value it was registered with */
  function FirstOf(h: Heap, info: Storages, q: nat, inst: I.Inst, hook: I.AutoValue): Option<string>
    requires Stored(h, info, q)
  {
    if info[q].auto then hook(h[q].hash, inst) else Some(info[q].initial)
  }

  ghost predicate First(w: World, q: nat, inst: I.Inst, hook: I.AutoValue, value: string)
    requires Stored(w.s.h, w.info, q)
  {
    FirstOf(w.s.h, w.info, q, inst, hook) == Some(value)
  }

  lemma WrittenFrom(w: World, p: nat, inst: I.Inst, hook: I.AutoValue, k: K.Key) returns (q: nat)
    requires Sound(w) && p in w.s.h && IsObject(w.s.h[p].kind) && Ids(inst) == TablesTo(w.s.h, p)
    requires var c := Tree(w, p); k in I.DefaultsIn(c, |I.Members(c)|, inst, hook)
    ensures IsTree(w.s.h) && Fresh(w.s.h, w.info, p, q) && IsKeyOf(w, q, inst, k)
    ensures var c := Tree(w, p);
      FirstOf(w.s.h, w.info, q, inst, hook) == Some(I.DefaultsIn(c, |I.Members(c)|, inst, hook)[k])
  {
    hide IsTree, IsKeyOf, L.KeyView, AllAgree, L.Unbraced, L.Describes, K.InstanceString, I.Numbers, I.DefaultsIn;
    SoundTree(w);
    var c := Tree(w, p);
    var x := I.DefaultsFrom(c, |I.Members(c)|, inst, hook, k);
    q := StoresToNode(w.s.h, w.s.created, w.info, p, |I.Members(c)|, x);
    KeyOfNode(w, q, inst, k);
  }

  /**
   Adding the instance inst of p writes exactly the rows of the stored parameters below p with no table in between,
   each under the key of its instantiated path and with its first value.
   */
  lemma WrittenExactly(w: World, p: nat, inst: I.Inst, hook: I.AutoValue, k: K.Key, value: string)
    requires Sound(w) && p in w.s.h && IsObject(w.s.h[p].kind) && Ids(inst) == TablesTo(w.s.h, p)
    ensures IsTree(w.s.h)
    ensures var c := Tree(w, p);
      var added := I.DefaultsIn(c, |I.Members(c)|, inst, hook);
      k in added && added[k] == value <==>
      exists q :: Fresh(w.s.h, w.info, p, q) && IsKeyOf(w, q, inst, k) && First(w, q, inst, hook, value)
  {
    hide IsTree, IsKeyOf, L.KeyView, AllAgree, L.Unbraced, L.Describes, K.InstanceString, I.Numbers, I.DefaultsIn;
    SoundTree(w);
    var c := Tree(w, p);
    var added := I.DefaultsIn(c, |I.Members(c)|, inst, hook);
    if k in added {
      var q := WrittenFrom(w, p, inst, hook, k);
    }
    if q :| Fresh(w.s.h, w.info, p, q) && IsKeyOf(w, q, inst, k) && First(w, q, inst, hook, value) {
      NodeStores(w.s.h, w.s.created, w.info, p, q);
      I.DefaultsHave(c, |I.Members(c)|, inst, hook, Param(w.s.h, w.info, q));
      KeyOfNode(w, q, inst, k);
      var r := WrittenFrom(w, p, inst, hook, k);
      KeyOfNode(w, r, inst, k);
      assert w.s.h[r].hash == w.s.h[q].hash;
    }
  }

  /** It succeeds, as far as the hooks go, if and only if every such parameter has a first value. */
  lemma WrittenIfAnswered(w: World, p: nat, inst: I.Inst, hook: I.AutoValue)
    requires Sound(w) && p in w.s.h && IsObject(w.s.h[p].kind)
    ensures IsTree(w.s.h)
    ensures var c := Tree(w, p);
      I.HooksAnswer(c, |I.Members(c)|, inst, hook) <==>
      forall q :: Fresh(w.s.h, w.info, p, q) ==> FirstOf(w.s.h, w.info, q, inst, hook).Some?
  {
    hide IsTree, L.KeyView, AllAgree, L.Unbraced, L.Describes, I.HooksAnswer;
    SoundTree(w);
    var c := Tree(w, p);
    I.HooksAnswerExactly(c, |I.Members(c)|, inst, hook);
    forall x: I.SNode | x.DbParam? && I.Stores(c, |I.Members(c)|, x)
      ensures exists q :: Fresh(w.s.h, w.info, p, q) && x == Param(w.s.h, w.info, q)
    {
      var q := StoresToNode(w.s.h, w.s.created, w.info, p, |I.Members(c)|, x);
    }
    forall q | Fresh(w.s.h, w.info, p, q) ensures I.Stores(c, |I.Members(c)|, Param(w.s.h, w.info, q)) {
      NodeStores(w.s.h, w.s.created, w.info, p, q);
    }
  }
}
