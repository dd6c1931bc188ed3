/**
 Finding nodes by path: DM_PRIV_GetNodeFromPath over the node map, and what it means for the spellings of a schema path
 and for database keys.
 */
module SchemaLookup {
  import opened CommonDefs
  import opened SchemaTree
  import opened NodeMap
  import opened SchemaNames
  import PH = PathHash
  import K = DbKeys
  import SchemaPath

  // ---------------------------------------------------------------- the hash function

  /** The hash the data model uses: a start value and a step for each character, never negative. */
  datatype Hashing = Hashing(step: PH.HashStep, basis: nat)

  /** hashOf is the hash of whole strings that f computes, character by character. */
  ghost predicate Computes(f: Hashing, hashOf: string -> nat) {
    && (forall h: int, c: char :: f.step(h, c) >= 0)
    && (forall s: string :: hashOf(s) == PH.HashFrom(f.step, f.basis, s))
  }

  lemma {:induction false} HashIsNat(f: Hashing, hashOf: string -> nat, h: int, s: string)
    requires Computes(f, hashOf) && h >= 0
    ensures PH.HashFrom(f.step, h, s) >= 0
    decreases |s|
  {
    if s == "" {
    } else {
      HashIsNat(f, hashOf, f.step(h, s[0]), s[1..]);
    }
  }

  lemma {:induction false} ScanIsNat(
    f: Hashing, hashOf: string -> nat, search: bool, c: char, p: string, h: int, inst: seq<int>)
    requires Computes(f, hashOf) && h >= 0
    ensures var r := PH.Scan(f.step, search, c, p, h, inst); r.Hashed? ==> r.hash >= 0
    decreases |p|, if c == PH.NUL then 0 else 1
  {
    hide PH.HashFrom;
    HashIsNat(f, hashOf, h, ".{i}");
    HashIsNat(f, hashOf, h, "{i}");
    if c == PH.NUL {
    } else if c == '.' {
      var q := PH.SkipDots(p);
      if q != "" {
        var n := PH.LeadingDigits(q);
        var r := q[n..];
        if n > 0 && (r == "" || r[0] == '.') {
          var i := PH.Stored(inst, PH.Value(q[..n]));
          if i.Some? {
            ScanIsNat(f, hashOf, search, PH.Head(r), PH.Tail(r), PH.HashFrom(f.step, h, ".{i}"), i.value);
          }
        } else {
          ScanIsNat(f, hashOf, search, PH.Head(q), PH.Tail(q), f.step(h, '.'), inst);
        }
      }
    } else {
      var i := PH.Stored(inst, PH.WILDCARD);
      var g := PH.HashFrom(f.step, h, "{i}");
      if c == '{' && |p| >= 2 && p[0] == 'i' && p[1] == '}' {
        if i.Some? {
          ScanIsNat(f, hashOf, search, PH.Head(p[2..]), PH.Tail(p[2..]), g, i.value);
        }
      } else if c == '*' {
        if i.Some? {
          ScanIsNat(f, hashOf, search, PH.Head(p), PH.Tail(p), g, i.value);
        }
      } else if c == '[' && search {
        var end := PH.FindClose(p);
        if i.Some? && end.Some? {
          var q := p[end.value + 1..];
          ScanIsNat(f, hashOf, search, PH.Head(q), q, g, i.value);
        }
      } else {
        ScanIsNat(f, hashOf, search, PH.Head(p), PH.Tail(p), f.step(h, c), inst);
      }
    }
  }

  // ---------------------------------------------------------------- the lookup

  /** The node with this hash, if there is one; in a well-formed schema there is no other. */
  ghost function NodeWith(h: Heap, hash: int): (r: Option<nat>)
    ensures r.Some? ==> r.value in h && h[r.value].hash == hash
    ensures r.None? ==> forall p :: p in h ==> h[p].hash != hash
  {
    if exists p :: p in h && h[p].hash == hash then
      var p :| p in h && h[p].hash == hash;
      Some(p)
    else None
  }

  /** The node of a hashed path, or of the path with {i} behind it: a table may be named without an instance. */
  ghost function FindByHash(f: Hashing, h: Heap, hash: int): (r: Option<nat>)
    ensures r.Some? ==> r.value in h
  {
    var p := NodeWith(h, hash);
    if p.Some? then p else NodeWith(h, PH.HashFrom(f.step, hash, ".{i}"))
  }

  /** What a path names: a node, the instance numbers in the path, and whether they are all there */
  datatype Named = Nothing | Names(node: nat, inst: seq<int>, qualified: bool)

  /** The check of the number of instances; only a table may lack the last one. */
  function Checked(n: Node, p: nat, inst: seq<int>): Named {
    if |inst| == n.order then Names(p, inst, true)
    else if n.kind.MultiInstance? && |inst| + 1 == n.order then Names(p, inst, false)
    else Nothing
  }

  /** DM_PRIV_GetNodeFromPath with an instance structure and a flag to fill in */
  ghost function GetNode(f: Hashing, h: Heap, search: bool, path: string): Named {
    var r := PH.CalcHash(f.step, f.basis, search, path);
    if r.Failed? then Nothing else
    var p := FindByHash(f, h, r.hash);
    if p.None? then Nothing else Checked(h[p.value], p.value, r.inst)
  }

  lemma OnlyNodeWith(s: Schema, hashOf: string -> nat, p: nat)
    requires WellFormed(s, hashOf) && p in s.h
    ensures NodeWith(s.h, s.h[p].hash) == Some(p)
  {
  }

  method FindNode(m: DataModel, f: Hashing, hash: nat) returns (p: Option<nat>)
    requires m.Valid() && Computes(f, m.hashOf)
    ensures p == FindByHash(f, m.nodes, hash)
  {
    hide IsMap, PH.HashFrom, Computes;
    p := m.FindNodeFromHash(hash, m.nodes.Keys);
    if p.Some? {
      OnlyNodeWith(m.Value(), m.hashOf, p.value);
    } else {
      HashIsNat(f, m.hashOf, hash, ".{i}");
      var next: nat := PH.HashFrom(f.step, hash, ".{i}");
      p := m.FindNodeFromHash(next, m.nodes.Keys);
      if p.Some? {
        OnlyNodeWith(m.Value(), m.hashOf, p.value);
      }
    }
  }

  method GetNodeFromPath(m: DataModel, f: Hashing, search: bool, path: string) returns (r: Named)
    requires m.Valid() && Computes(f, m.hashOf) && PH.NUL !in path
    ensures r == GetNode(f, m.nodes, search, path)
  {
    hide IsMap, WellFormed, Computes, FindByHash;
    var k := PH.CalcHashFromPath(f.step, f.basis, search, path);
    if k.Failed? {
      return Nothing;
    }
    ScanIsNat(f, m.hashOf, search, PH.Head(path), PH.Tail(path), f.basis, []);
    var p := FindNode(m, f, k.hash);
    if p.None? {
      return Nothing;
    }
    var n := m.nodes[p.value];
    if |k.inst| == n.order {
      return Names(p.value, k.inst, true);
    }
    if !n.kind.MultiInstance? || |k.inst| != n.order - 1 {
      return Nothing;
    }
    r := Names(p.value, k.inst, false);
  }

  /** DATA_MODEL_DeRegisterPath; the source gives no instance structure, so the number of instances is not checked. */
  method DeRegisterPath(m: DataModel, f: Hashing, path: string) returns (outcome: Outcome, p: Option<nat>)
    requires m.Valid() && Computes(f, m.hashOf) && PH.NUL !in path
    modifies m
    ensures m.Valid()
    ensures var k := PH.CalcHash(f.step, f.basis, false, path);
      p == if k.Failed? then None else FindByHash(f, old(m.nodes), k.hash)
    ensures p.None? ==> outcome == NotFound && m.Value() == old(m.Value())
    ensures p.Some? ==>
              && p.value in old(m.nodes) && m.Value() == Apply(old(m.Value()), DeRegister(p.value), m.hashOf)
              && outcome == DeRegisterOutcome(old(m.nodes), p.value)
    ensures AllAgree(old(m.nodes)) ==> AllAgree(m.nodes)
  {
    hide IsMap, Computes, AllAgree;
    var k := PH.CalcHashFromPath(f.step, f.basis, false, path);
    if k.Failed? {
      return NotFound, None;
    }
    ScanIsNat(f, m.hashOf, false, PH.Head(path), PH.Tail(path), f.basis, []);
    p := FindNode(m, f, k.hash);
    if p.None? {
      return NotFound, None;
    }
    if AllAgree(m.nodes) {
      ApplyAgrees(m.Value(), DeRegister(p.value), m.hashOf);
    }
    outcome := m.DeRegisterNode(p.value);
  }

  // ---------------------------------------------------------------- instances in a path

  /** The number of '{' in a path */
  function Braces(s: string): nat {
    if s == "" then 0 else (if s[0] == '{' then 1 else 0) + Braces(s[1..])
  }

  lemma {:induction false} BracesAppend(a: string, b: string)
    ensures Braces(a + b) == Braces(a) + Braces(b)
  {
    if a == "" {
      assert a + b == b;
    } else {
      assert (a + b)[1..] == a[1..] + b;
      BracesAppend(a[1..], b);
    }
  }

  lemma {:induction false} NoBraces(s: string)
    requires '{' !in s
    ensures Braces(s) == 0
  {
    if s == "" {
    } else {
      NoBraces(s[1..]);
    }
  }

  lemma TableBraces()
    ensures Braces(".{i}") == 1 && Braces("{i}") == 1 && Braces(".") == 0 && Braces("") == 0
  {
    NoBraces("i}");
    assert "{i}"[1..] == "i}" && ".{i}"[1..] == "{i}";
  }

  predicate Unbraced(h: Heap) {
    forall p :: p in h ==> '{' !in h[p].name
  }

  /** Registering a path without '{' in its names adds none. */
  lemma UnbracedGrows(h: Heap, g: Heap, root: nat, segs: seq<SchemaPath.Segment>)
    requires Unbraced(h) && SchemaPath.Kept(h, g) && SchemaPath.Grown(h, g, root, segs, |segs|)
    requires forall i :: 0 <= i < |segs| ==> '{' !in segs[i].name
    ensures Unbraced(g)
  {
    forall p | p in g ensures '{' !in g[p].name {
      if p !in h {
        assert SchemaPath.OnTheWay(g, root, segs, |segs|, p);
        var j :| 1 < j <= |segs| && SchemaPath.Trail(g, root, segs[1..j], p);
        assert segs[1..j][j - 2] == segs[j - 1];
      }
    }
  }

  /** Where paths and orders agree, the order of a node is the number of {i} in its path. */
  lemma {:induction false} OrderCounts(h: Heap, p: nat)
    requires ParentsHold(h) && AllAgree(h) && Unbraced(h) && p in h
    ensures Braces(h[p].path) == h[p].order
    decreases p
  {
    hide Braces;
    assert Agrees(h, p);
    NoBraces(h[p].name);
    if h[p].parent.Some? {
      var up := h[p].parent.value;
      OrderCounts(h, up);
      TableBraces();
      var c := if h[p].kind.MultiInstance? then ".{i}" else "";
      BracesAppend(h[up].path + "." + h[p].name, c);
      BracesAppend(h[up].path + ".", h[p].name);
      BracesAppend(h[up].path, ".");
    }
  }

  /** Every '{' begins an {i}. */
  predicate Tabled(t: string) {
    forall i :: 0 <= i < |t| && t[i] == '{' ==> i + 2 < |t| && t[i + 1] == 'i' && t[i + 2] == '}'
  }

  lemma TabledAppend(a: string, b: string)
    requires Tabled(b)
    ensures Tabled(a) ==> Tabled(a + b)
  {
    var t := a + b;
    forall i | Tabled(a) && 0 <= i < |t| && t[i] == '{'
      ensures i + 2 < |t| && t[i + 1] == 'i' && t[i + 2] == '}'
    {
      assert i >= |a| ==> t[i] == b[i - |a|];
    }
  }

  lemma TabledTail(a: string, b: string)
    requires Tabled(a + b)
    ensures Tabled(b)
  {
    var t := a + b;
    forall i | 0 <= i < |b| && b[i] == '{'
      ensures i + 2 < |b| && b[i + 1] == 'i' && b[i + 2] == '}'
    {
      assert t[i + |a|] == '{' && |t| == |a| + |b|;
      assert b[i + 1] == t[i + |a| + 1] && b[i + 2] == t[i + |a| + 2];
    }
  }

  lemma {:induction false} PathTabled(h: Heap, p: nat)
    requires ParentsHold(h) && AllAgree(h) && Unbraced(h) && p in h
    ensures Tabled(h[p].path)
    decreases p
  {
    assert Agrees(h, p);
    if h[p].parent.Some? {
      var up := h[p].parent.value;
      PathTabled(h, up);
      var c := if h[p].kind.MultiInstance? then ".{i}" else "";
      TabledAppend(h[up].path, ".");
      TabledAppend(h[up].path + ".", h[p].name);
      TabledAppend(h[up].path + "." + h[p].name, c);
    }
  }

  /** In such a path a name has no '{'. */
  lemma NameUnbraced(name: string, search: bool, p: string, k: nat)
    requires PH.Literal(name, search) && PH.AtBoundary(p) && Tabled(name + p) && k < |name|
    ensures name[k] != '{'
  {
    var t := name + p;
    assert t[k] == name[k];
    assert k + 1 < |name| ==> t[k + 1] == name[k + 1];
    assert k + 2 < |name| ==> t[k + 2] == name[k + 2];
    assert k + 2 == |name| && p != "" ==> t[k + 2] == p[0];
    assert k + 1 == |name| && p != "" ==> t[k + 1] == p[0];
  }

  lemma NameBraces(name: string, search: bool, p: string)
    requires PH.Literal(name, search) && PH.AtBoundary(p) && Tabled(name + p)
    ensures Braces(name) == 0
  {
    hide PH.Literal, Braces, Tabled;
    forall k | 0 <= k < |name| ensures name[k] != '{' {
      NameUnbraced(name, search, p, k);
    }
    NoBraces(name);
  }

  lemma {:induction false} InstancesCount(steps: seq<PH.Step>, search: bool)
    requires PH.AllValid(steps, search) && Tabled(PH.NormalRest(steps))
    ensures Braces(PH.NormalRest(steps)) == |PH.Instances(steps, search)| && PH.AtBoundary(PH.NormalRest(steps))
  {
    hide Braces, Tabled, PH.Literal;
    TableBraces();
    if steps == [] {
    } else {
      var g, more := steps[0].seg, PH.NormalRest(steps[1..]);
      assert "." + PH.Normal(g) + more == "." + (PH.Normal(g) + more);
      TabledTail("." + PH.Normal(g), more);
      TabledTail(".", PH.Normal(g) + more);
      InstancesCount(steps[1..], search);
      assert PH.ValidSegment(g, search);
      if g.Name? {
        NameBraces(g.name, search, more);
      }
      BracesAppend("." + PH.Normal(g), more);
      BracesAppend(".", PH.Normal(g));
    }
  }

  lemma PathCount(h: Heap, first: string, steps: seq<PH.Step>, search: bool, p: nat, c: string)
    requires ParentsHold(h) && AllAgree(h) && Unbraced(h) && p in h
    requires PH.IsName(first, search) && PH.AllValid(steps, search)
    requires h[p].path == first + PH.NormalRest(steps) + c && (c == "" || c == ".{i}")
    ensures h[p].order == |PH.Instances(steps, search)| + if c == "" then 0 else 1
  {
    hide Braces, Tabled, PH.NormalRest, PH.Instances, PH.Literal, AllAgree, ParentsHold;
    OrderCounts(h, p);
    PathTabled(h, p);
    var more := PH.NormalRest(steps);
    TabledFront(first + more, c);
    TabledTail(first, more);
    InstancesCount(steps, search);
    NameBraces(first, search, more);
    TableBraces();
    BracesAppend(first + more, c);
    BracesAppend(first, more);
  }

  lemma TabledFront(a: string, c: string)
    requires Tabled(a + c) && (c == "" || c == ".{i}")
    ensures Tabled(a)
  {
    var t := a + c;
    assert c != "" ==> t[|a|] == '.';
    forall i | 0 <= i < |a| && a[i] == '{'
      ensures i + 2 < |a| && a[i + 1] == 'i' && a[i + 2] == '}'
    {
      assert t[i] == '{';
      assert a[i + 1] == t[i + 1] && a[i + 2] == t[i + 2];
    }
  }

  /** A node whose path ends in {i} is a table. */
  lemma EndsAsTable(h: Heap, p: nat, a: string)
    requires AllAgree(h) && Unbraced(h) && p in h && h[p].path == a + ".{i}"
    ensures h[p].kind.MultiInstance? && h[p].parent.Some?
  {
    var t := h[p].path;
    assert Agrees(h, p);
    assert t[|t| - 3] == '{' && t[|t| - 2] == 'i' && t[|t| - 1] == '}';
    if h[p].parent.Some? {
      NameIsNoTable(h[h[p].parent.value].path, h[p].name);
      NothingBehind(h[h[p].parent.value].path + "." + h[p].name);
    }
  }

  lemma NameIsNoTable(b: string, name: string)
    requires '{' !in name
    ensures var t := b + "." + name;
      |t| >= 3 ==> !(t[|t| - 3] == '{' && t[|t| - 2] == 'i' && t[|t| - 1] == '}')
  {
    var t := b + "." + name;
    var n := |t| - 3;
    assert |b| < n ==> name[n - |b| - 1] == t[n];
    assert t[|b|] == '.';
  }

  // ---------------------------------------------------------------- all spellings find the node

  /**
   Every spelling of a registered schema path finds its node, with the instance numbers in the order of the path: dots
   repeated and trailing, instances written as numbers, '*', '{i}' or, where allowed, search expressions. The number of
   instances passes the check wherever paths and orders agree.
   */
  lemma EverySpellingFinds(
    s: Schema, hashOf: string -> nat, f: Hashing, search: bool, first: string, steps: seq<PH.Step>, trailing: nat,
      p: nat)
    requires WellFormed(s, hashOf) && Computes(f, hashOf) && PH.IsName(first, search) && PH.AllValid(steps, search)
    requires p in s.h && s.h[p].path == first + PH.NormalRest(steps)
    requires |PH.Instances(steps, search)| <= PH.MAX_DM_INSTANCE_ORDER
    ensures GetNode(f, s.h, search, first + PH.Rest(steps, trailing)) == Checked(s.h[p], p, PH.Instances(steps, search))
    ensures AllAgree(s.h) && Unbraced(s.h) ==>
      GetNode(f, s.h, search, first + PH.Rest(steps, trailing)) == Names(p, PH.Instances(steps, search), true)
  {
    hide PH.CalcHash, PH.Rest, PH.NormalRest, PH.Instances, PH.HashFrom, AllAgree, Unbraced;
    PH.HashIsHashOfNormalForm(f.step, f.basis, search, first, steps, trailing);
    OnlyNodeWith(s, hashOf, p);
    if AllAgree(s.h) && Unbraced(s.h) {
      NothingBehind(first + PH.NormalRest(steps));
      PathCount(s.h, first, steps, search, p, "");
    }
  }

  lemma NothingBehind(a: string)
    ensures a + "" == a
  {
  }

  /** What a path names carries an instance for each table, but for the last one if it is a table itself. */
  lemma NamedHasInstances(f: Hashing, h: Heap, search: bool, path: string)
    ensures var r := GetNode(f, h, search, path);
      r.Names? ==>
        && r.node in h && r.inst == PH.CalcHash(f.step, f.basis, search, path).inst
        && (r.qualified <==> |r.inst| == h[r.node].order)
        && (!r.qualified ==> h[r.node].kind == MultiInstance && |r.inst| + 1 == h[r.node].order)
  {
    hide PH.CalcHash, PH.HashFrom;
  }

  /** A table named without its last instance is found too, unless another node has the shorter path's hash. */
  lemma UnqualifiedTableFinds(
    s: Schema, hashOf: string -> nat, f: Hashing, search: bool, first: string, steps: seq<PH.Step>, trailing: nat,
      p: nat)
    requires WellFormed(s, hashOf) && Computes(f, hashOf) && PH.IsName(first, search) && PH.AllValid(steps, search)
    requires p in s.h && s.h[p].path == first + PH.NormalRest(steps) + ".{i}"
    requires |PH.Instances(steps, search)| <= PH.MAX_DM_INSTANCE_ORDER
    requires NodeWith(s.h, hashOf(first + PH.NormalRest(steps))).None?
    ensures GetNode(f, s.h, search, first + PH.Rest(steps, trailing)) == Checked(s.h[p], p, PH.Instances(steps, search))
    ensures AllAgree(s.h) && Unbraced(s.h) ==>
      GetNode(f, s.h, search, first + PH.Rest(steps, trailing)) == Names(p, PH.Instances(steps, search), false)
  {
    hide PH.CalcHash, PH.Rest, PH.NormalRest, PH.Instances, PH.HashFrom, AllAgree, Unbraced;
    if AllAgree(s.h) && Unbraced(s.h) {
      PathCount(s.h, first, steps, search, p, ".{i}");
      EndsAsTable(s.h, p, first + PH.NormalRest(steps));
    }
    PH.HashIsHashOfNormalForm(f.step, f.basis, search, first, steps, trailing);
    PH.HashAppend(f.step, f.basis, first + PH.NormalRest(steps), ".{i}");
    OnlyNodeWith(s, hashOf, p);
  }

  // ---------------------------------------------------------------- the schema behind database keys

  /** d spells the path of every node by its segments. */
  predicate Describes(s: Schema, d: map<nat, K.Node>) {
    && d.Keys == s.h.Keys
    && forall p :: p in d ==>
         && PH.ValidName(d[p].first) && K.SchemaSteps(d[p].steps) && K.Order(d[p].steps) <= PH.MAX_DM_INSTANCE_ORDER
         && K.SchemaPath(d[p]) == s.h[p].path
  }

  /** The schema as the functions on database keys see it: nodes by hash. */
  ghost function KeyView(s: Schema, hashOf: string -> nat, f: Hashing, d: map<nat, K.Node>): K.Schema
    requires WellFormed(s, hashOf) && Describes(s, d)
  {
    K.Schema(f.step, f.basis, map p | p in s.h :: s.h[p].hash := d[p])
  }

  /** In a well-formed schema every node is the one its hash finds. */
  lemma WellFormedRegisters(s: Schema, hashOf: string -> nat, f: Hashing, d: map<nat, K.Node>, p: nat)
    requires WellFormed(s, hashOf) && Computes(f, hashOf) && Describes(s, d) && p in s.h
    ensures K.Registered(KeyView(s, hashOf, f, d), d[p])
  {
    hide IsTree, PH.HashFrom, K.SchemaSteps, PH.ValidName, K.Order;
  }

  /** Both lookups find the same nodes. */
  lemma SameLookup(s: Schema, hashOf: string -> nat, f: Hashing, d: map<nat, K.Node>, hash: int)
    requires WellFormed(s, hashOf) && Describes(s, d)
    ensures hash in KeyView(s, hashOf, f, d).nodes <==> NodeWith(s.h, hash).Some?
    ensures NodeWith(s.h, hash).Some? ==> KeyView(s, hashOf, f, d).nodes[hash] == d[NodeWith(s.h, hash).value]
  {
    hide IsTree, K.SchemaSteps, PH.ValidName, K.Order, K.SchemaPath;
  }

  /** Different nodes of a well-formed schema, or different instance numbers, never share a database key. */
  lemma NodeKeysDiffer(
    s: Schema, hashOf: string -> nat, f: Hashing, d: map<nat, K.Node>, p: nat, a: seq<nat>, q: nat, b: seq<nat>)
    requires WellFormed(s, hashOf) && Computes(f, hashOf) && Describes(s, d) && p in s.h && q in s.h
    requires |a| == K.Order(d[p].steps) && |b| == K.Order(d[q].steps) && (p != q || a != b)
    ensures K.Key(s.h[p].hash, K.InstanceString(a)) != K.Key(s.h[q].hash, K.InstanceString(b))
  {
    hide IsTree, PH.HashFrom, K.SchemaSteps, PH.ValidName, K.Order, K.InstanceString;
    if p == q {
      var m := KeyView(s, hashOf, f, d);
      WellFormedRegisters(s, hashOf, f, d, p);
      K.KeysDiffer(m, d[p], a, d[p], b);
    }
  }

  // ---------------------------------------------------------------- paths that registration writes

  function OwnSteps(seg: SchemaPath.Segment): seq<PH.Step> {
    [PH.Step(0, PH.Name(seg.name))] + (if seg.kind.MultiInstance? then [PH.Step(0, PH.Schema)] else [])
  }

  function StepsOf(segs: seq<SchemaPath.Segment>): seq<PH.Step> {
    if |segs| <= 1 then [] else StepsOf(segs[..|segs| - 1]) + OwnSteps(segs[|segs| - 1])
  }

  predicate NamesValid(segs: seq<SchemaPath.Segment>) {
    forall i :: 0 <= i < |segs| ==> PH.ValidName(segs[i].name)
  }

  lemma {:induction false} NormalRestAppend(a: seq<PH.Step>, b: seq<PH.Step>)
    ensures PH.NormalRest(a + b) == PH.NormalRest(a) + PH.NormalRest(b)
  {
    if a == [] {
      assert a + b == b;
    } else {
      assert (a + b)[1..] == a[1..] + b;
      NormalRestAppend(a[1..], b);
    }
  }

  lemma {:induction false} OrderAppend(a: seq<PH.Step>, b: seq<PH.Step>)
    ensures K.Order(a + b) == K.Order(a) + K.Order(b)
  {
    if a == [] {
      assert a + b == b;
    } else {
      assert (a + b)[1..] == a[1..] + b;
      OrderAppend(a[1..], b);
    }
  }

  lemma OwnStepsText(seg: SchemaPath.Segment)
    ensures PH.NormalRest(OwnSteps(seg)) == "." + seg.name + (if seg.kind.MultiInstance? then ".{i}" else "")
    ensures K.Order(OwnSteps(seg)) == if seg.kind.MultiInstance? then 1 else 0
  {
    var own := OwnSteps(seg);
    assert PH.NormalRest([]) == "" && K.Order([]) == 0;
    if seg.kind.MultiInstance? {
      assert own[1..] == [PH.Step(0, PH.Schema)] && own[1..][1..] == [];
      assert "." + "{i}" + "" == ".{i}";
    } else {
      assert own[1..] == [];
      assert "." + seg.name + "" == "." + seg.name;
    }
  }

  /** The path DM_PRIV_AddSchemaPath gives a node is a schema path in the sense of database keys, of the same order. */
  lemma {:induction false} RegisteredPathIsSchemaPath(segs: seq<SchemaPath.Segment>, isDbParam: bool)
    requires segs != [] && NamesValid(segs)
    ensures var n := K.Node(segs[0].name, StepsOf(segs), isDbParam);
      && PH.ValidName(n.first) && K.SchemaSteps(n.steps)
      && K.SchemaPath(n) == SchemaPath.PathText(segs) && K.Order(n.steps) == SchemaPath.Order(segs)
    decreases |segs|
  {
    hide PH.ValidName, K.Order, PH.NormalRest, OwnSteps;
    if |segs| == 1 {
      NoSteps(segs[0].name);
    } else {
      var front, seg := segs[..|segs| - 1], segs[|segs| - 1];
      RegisteredPathIsSchemaPath(front, isDbParam);
      NormalRestAppend(StepsOf(front), OwnSteps(seg));
      OrderAppend(StepsOf(front), OwnSteps(seg));
      OwnStepsText(seg);
      OwnStepsValid(seg);
      var c := if seg.kind.MultiInstance? then ".{i}" else "";
      Join(segs[0].name, PH.NormalRest(StepsOf(front)), seg.name, c);
    }
  }

  lemma NoSteps(first: string)
    ensures PH.NormalRest([]) == "" && K.Order([]) == 0 && first + "" == first
  {
  }

  lemma OwnStepsValid(seg: SchemaPath.Segment)
    requires PH.ValidName(seg.name)
    ensures K.SchemaSteps(OwnSteps(seg))
  {
    hide PH.ValidName;
  }

  lemma Join(first: string, a: string, name: string, c: string)
    ensures first + (a + ("." + name + c)) == first + a + "." + name + c
  {
  }
}
