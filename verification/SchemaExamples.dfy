/** Runs of registrations, and an instance, at which the exact conditions stated elsewhere bite. */
module SchemaExamples {
  import opened CommonDefs
  import opened SchemaTree
  import opened NodeMap
  import opened SchemaNames
  import DbKeys
  import I = Instances

  /**
   Two parameters registered under a root, and the first made an object when its real type is known: the second is left
   behind an object.
   */
  lemma OverrideBreaksOrder(hashOf: string -> nat) returns (ss: seq<Schema>, ops: seq<Operation>)
    requires hashOf("r") != hashOf("r.a") && hashOf("r") != hashOf("r.b") && hashOf("r.a") != hashOf("r.b")
    ensures IsRun(ss, ops, hashOf) && |ops| == 4 && AllOrdered(ss[3].h) && !AllOrdered(ss[4].h)
  {
    hide AllOrdered, WellFormed, Suits, Apply, Possible;
    ops := [Create("r", SingleInstance, "r"), AddChild(0, "a", NotObject(0), "r.a", 0),
            AddChild(0, "b", NotObject(0), "r.b", 0), Override(1, SingleInstance, "r.a", 0)];
    var s1, s2, s3 := Sample(hashOf, 1), Sample(hashOf, 2), Sample(hashOf, 3);
    EmptyKeeps(hashOf);
    Registering(hashOf);
    ApplyKeeps(Schema(map[], 0), ops[0], hashOf);
    ApplyKeeps(s1, ops[1], hashOf);
    ApplyKeeps(s2, ops[2], hashOf);
    SecondBehind(hashOf);
    ss := [Schema(map[], 0), s1, s2, s3, Apply(s3, ops[3], hashOf)];
    RunKeeps(ss, ops, hashOf, 3);
    NoOverrides(ss, ops, hashOf);
    RunKeeps(ss, ops, hashOf, 4);
  }

  /** A root and its first k - 1 parameters */
  function Sample(hashOf: string -> nat, k: nat): Schema {
    var kids := if k == 1 then [] else if k == 2 then [1] else [1, 2];
    var root := map[0 := Node("r", "r", hashOf("r"), SingleInstance, None, kids, 0)];
    var a := Node("a", "r.a", hashOf("r.a"), NotObject(0), Some(0), [], 0);
    var b := Node("b", "r.b", hashOf("r.b"), NotObject(0), Some(0), [], 0);
    if k == 1 then Schema(root, 1) else if k == 2 then Schema(root[1 := a], 2) else Schema(root[1 := a][2 := b], 3)
  }

  lemma Registering(hashOf: string -> nat)
    requires hashOf("r") != hashOf("r.a") && hashOf("r") != hashOf("r.b") && hashOf("r.a") != hashOf("r.b")
    ensures WellFormed(Schema(map[], 0), hashOf)
    ensures var s0, op := Schema(map[], 0), Create("r", SingleInstance, "r");
      Possible(s0, op) && Apply(s0, op, hashOf) == Sample(hashOf, 1)
    ensures WellFormed(Sample(hashOf, 1), hashOf)
    ensures var s1, op := Sample(hashOf, 1), AddChild(0, "a", NotObject(0), "r.a", 0);
      Possible(s1, op) && Apply(s1, op, hashOf) == Sample(hashOf, 2)
    ensures WellFormed(Sample(hashOf, 2), hashOf)
    ensures var s2, op := Sample(hashOf, 2), AddChild(0, "b", NotObject(0), "r.b", 0);
      Possible(s2, op) && Apply(s2, op, hashOf) == Sample(hashOf, 3)
  {
    EmptyKeeps(hashOf);
    hide WellFormed, Apply;
    RootAlone(hashOf);
    HashFree(hashOf);
    RegisterFirst(hashOf);
    ApplyKeeps(Sample(hashOf, 1), AddChild(0, "a", NotObject(0), "r.a", 0), hashOf);
    RegisterSecond(hashOf);
  }

  lemma HashFree(hashOf: string -> nat)
    requires hashOf("r") != hashOf("r.a") && hashOf("r") != hashOf("r.b") && hashOf("r.a") != hashOf("r.b")
    ensures !HashTaken(Sample(hashOf, 1).h, hashOf("r.a")) && !HashTaken(Sample(hashOf, 2).h, hashOf("r.b"))
  {
  }

  lemma RegisterFirst(hashOf: string -> nat)
    requires WellFormed(Sample(hashOf, 1), hashOf) && !HashTaken(Sample(hashOf, 1).h, hashOf("r.a"))
    ensures Apply(Sample(hashOf, 1), AddChild(0, "a", NotObject(0), "r.a", 0), hashOf) == Sample(hashOf, 2)
  {
    hide WellFormed, Apply, HashTaken, Attached, Created, ChildrenHold;
    var s := Sample(hashOf, 1);
    AddChildIs(s, 0, "a", NotObject(0), "r.a", 0, hashOf);
    AttachFirst(s.h, hashOf("r.a"));
  }

  lemma AttachFirst(root: Heap, hash: nat)
    requires root.Keys == {0} && root[0].children == []
    requires ChildrenHold(Created(root, 1, "a", "r.a", hash, NotObject(0)))
    ensures Attached(Created(root, 1, "a", "r.a", hash, NotObject(0)), 0, 1, 0) ==
            root[0 := root[0].(children := [1])][1 := Node("a", "r.a", hash, NotObject(0), Some(0), [], 0)]
  {
    hide ChildrenHold;
    var h := Created(root, 1, "a", "r.a", hash, NotObject(0));
    assert FirstObject(h, []) == 0;
    assert InsertAt([], 0, 1) == [1];
  }

  lemma RegisterSecond(hashOf: string -> nat)
    requires WellFormed(Sample(hashOf, 2), hashOf) && !HashTaken(Sample(hashOf, 2).h, hashOf("r.b"))
    ensures Apply(Sample(hashOf, 2), AddChild(0, "b", NotObject(0), "r.b", 0), hashOf) == Sample(hashOf, 3)
  {
    hide WellFormed, Apply, HashTaken, Attached, Created, ChildrenHold;
    var s := Sample(hashOf, 2);
    AddChildIs(s, 0, "b", NotObject(0), "r.b", 0, hashOf);
    AttachSecond(s.h, hashOf("r.b"));
    SampleGrows(hashOf);
  }

  lemma SampleGrows(hashOf: string -> nat)
    ensures var h := Sample(hashOf, 2).h;
      h[0 := h[0].(children := [1, 2])][2 := Node("b", "r.b", hashOf("r.b"), NotObject(0), Some(0), [], 0)] ==
      Sample(hashOf, 3).h
  {
    var h, g := Sample(hashOf, 2).h, Sample(hashOf, 3).h;
    assert h[0].(children := [1, 2]) == g[0] && h[1] == g[1];
  }

  lemma AttachSecond(h: Heap, hash: nat)
    requires h.Keys == {0, 1} && h[0].children == [1] && !IsObject(h[1].kind)
    requires ChildrenHold(Created(h, 2, "b", "r.b", hash, NotObject(0)))
    ensures Attached(Created(h, 2, "b", "r.b", hash, NotObject(0)), 0, 2, 0) ==
            h[0 := h[0].(children := [1, 2])][2 := Node("b", "r.b", hash, NotObject(0), Some(0), [], 0)]
  {
    hide ChildrenHold;
    var g := Created(h, 2, "b", "r.b", hash, NotObject(0));
    assert FirstObject(g, [1]) == 1 by { assert [1][1..] == []; }
    assert InsertAt([1], 1, 2) == [1, 2];
  }

  lemma SecondBehind(hashOf: string -> nat)
    requires WellFormed(Sample(hashOf, 3), hashOf)
    ensures !Suits(Sample(hashOf, 3), Override(1, SingleInstance, "r.a", 0), hashOf)
    ensures Possible(Sample(hashOf, 3), Override(1, SingleInstance, "r.a", 0))
  {
    var h := Sample(hashOf, 3).h;
    var c := h[0].children;
    assert c[0] == 1 && c[1] == 2 && !IsObject(h[c[1]].kind);
  }

  lemma NoOverrides(ss: seq<Schema>, ops: seq<Operation>, hashOf: string -> nat)
    requires |ops| == 4 && |ss| == 5 && (forall i :: 0 <= i < 3 ==> WellFormed(ss[i], hashOf) && !ops[i].Override?)
    ensures AllSuit(ss, ops, hashOf, 3)
  {
  }

  lemma Adding(s: Schema, up: nat, name: string, kind: NodeType, path: string, order: nat, hashOf: string -> nat)
    requires WellFormed(s, hashOf) && up in s.h && !HashTaken(s.h, hashOf(path))
    ensures var op := AddChild(up, name, kind, path, order);
      var t := Apply(s, op, hashOf);
      && WellFormed(t, hashOf) && t.created == s.created + 1 && t.h.Keys == s.h.Keys + {s.created}
      && t.h[s.created] == Node(name, path, hashOf(path), kind, Some(up), [], order) && t.h[up].children != []
      && forall q :: q in s.h ==> t.h[q] == s.h[q].(children := t.h[q].children)
  {
    hide WellFormed, Apply, HashTaken, Attached, ChildrenHold, ParentsHold, InsertAt, FirstObject, AllOrdered, Suits;
    ApplyKeeps(s, AddChild(up, name, kind, path, order), hashOf);
    FreshNumber(s, hashOf);
    AddChildIs(s, up, name, kind, path, order, hashOf);
    AttachedFields(Created(s.h, s.created, name, path, hashOf(path), kind), up, s.created, order);
  }

  predicate FourHashes(hashOf: string -> nat) {
    && hashOf("r") != hashOf("r.a") && hashOf("r") != hashOf("r.a.b") && hashOf("r.a") != hashOf("r.a.b")
    && hashOf("r.a.{i}") !in {hashOf("r"), hashOf("r.a"), hashOf("r.a.b")}
  }

  lemma RootAlone(hashOf: string -> nat)
    requires WellFormed(Schema(map[], 0), hashOf)
    ensures Apply(Schema(map[], 0), Create("r", SingleInstance, "r"), hashOf) == Sample(hashOf, 1)
    ensures WellFormed(Sample(hashOf, 1), hashOf)
  {
    ApplyKeeps(Schema(map[], 0), Create("r", SingleInstance, "r"), hashOf);
    hide WellFormed;
    assert Apply(Schema(map[], 0), Create("r", SingleInstance, "r"), hashOf) == Sample(hashOf, 1);
  }

  /** A root, an object below it and a parameter below that. */
  lemma Below(hashOf: string -> nat) returns (s1: Schema, s2: Schema, s3: Schema)
    requires FourHashes(hashOf) && WellFormed(Schema(map[], 0), hashOf)
    ensures s1 == Apply(Schema(map[], 0), Create("r", SingleInstance, "r"), hashOf)
    ensures WellFormed(s1, hashOf) && s1.h.Keys == {0} && s1.h[0].path == "r" && s1.h[0].order == 0
    ensures s2 == Apply(s1, AddChild(0, "a", SingleInstance, "r.a", 0), hashOf) && WellFormed(s2, hashOf)
    ensures 1 in s2.h && s2.h[1].path == "r.a" && s2.h[1].order == 0
    ensures s3 == Apply(s2, AddChild(1, "b", NotObject(0), "r.a.b", 0), hashOf) && s3.h.Keys == {0, 1, 2}
    ensures WellFormed(s3, hashOf) && s3.h[0].path == "r" && s3.h[0].order == 0 && s3.h[0].hash == hashOf("r")
    ensures s3.h[1].path == "r.a" && s3.h[1].hash == hashOf("r.a") && s3.h[2].hash == hashOf("r.a.b")
    ensures s3.h[1].name == "a" && s3.h[1].parent == Some(0) && s3.h[1].kind.SingleInstance? && s3.h[1].children != []
  {
    hide WellFormed, Apply;
    RootAlone(hashOf);
    s1 := Sample(hashOf, 1);
    Adding(s1, 0, "a", SingleInstance, "r.a", 0, hashOf);
    s2 := Apply(s1, AddChild(0, "a", SingleInstance, "r.a", 0), hashOf);
    Adding(s2, 1, "b", NotObject(0), "r.a.b", 0, hashOf);
    s3 := Apply(s2, AddChild(1, "b", NotObject(0), "r.a.b", 0), hashOf);
  }

  /** An object made a table after something was registered below it: the path of that is left without the {i}. */
  lemma OverrideBreaksPaths(hashOf: string -> nat) returns (ss: seq<Schema>, ops: seq<Operation>)
    requires FourHashes(hashOf)
    ensures IsRun(ss, ops, hashOf) && |ops| == 4 && (forall i :: 0 <= i < 4 ==> Built(ss[i].h, ops[i]))
    ensures AllAgree(ss[3].h) && !AllAgree(ss[4].h)
  {
    hide WellFormed, Apply, AllAgree;
    EmptyKeeps(hashOf);
    var s1, s2, s3 := Below(hashOf);
    var last := Override(1, MultiInstance, "r.a.{i}", 1);
    ops := [Create("r", SingleInstance, "r"), AddChild(0, "a", SingleInstance, "r.a", 0),
            AddChild(1, "b", NotObject(0), "r.a.b", 0), last];
    ss := [Schema(map[], 0), s1, s2, s3, Apply(s3, last, hashOf)];
    assert "r" + "." + "a" + "" == "r.a" && "r.a" + "." + "b" + "" == "r.a.b" && "r" + "." + "a" + ".{i}" == "r.a.{i}";
    assert Placed(s3.h, 1, "r.a.{i}", 1, true);
    assert CarriedOut(s3.h, 1, "r.a.{i}", hashOf);
    RunAgrees(ss, ops, hashOf, 3);
    RunAgrees(ss, ops, hashOf, 4);
  }

  /** A root with one parameter, which is deregistered: the climb empties the root and goes on to its parent. */
  lemma DeRegisterReadsNull(hashOf: string -> nat) returns (ss: seq<Schema>, ops: seq<Operation>)
    requires hashOf("r") != hashOf("r.a") && hashOf("r") != hashOf("r.b") && hashOf("r.a") != hashOf("r.b")
    ensures IsRun(ss, ops, hashOf) && |ops| == 2 && ParentsHold(ss[2].h) && 1 in ss[2].h
    ensures ss[2].h[1].parent == Some(0) && DeRegisterOutcome(ss[2].h, 1) == NullParent
  {
    hide WellFormed, Apply, Possible;
    ops := [Create("r", SingleInstance, "r"), AddChild(0, "a", NotObject(0), "r.a", 0)];
    Registering(hashOf);
    ss := [Schema(map[], 0), Sample(hashOf, 1), Sample(hashOf, 2)];
    WellFormedIsTree(ss[2], hashOf);
    var h := ss[2].h;
    assert |h[0].children| == 1 && h[0].parent == None;
    assert Top(h, 0) == 0;
    assert Top(h, 1) == 0;
  }

  /**
   A row that was there before the instance: adding the instance overwrites it, and deleting the instance removes it.
   */
  lemma AddThenDeleteLoses(hook: I.AutoValue) returns (c: I.SNode, rows: I.Rows, inst: I.Inst)
    ensures !I.Existing([], inst) && I.HooksAnswer(c, |I.Members(c)|, inst, hook) && rows != map[]
    ensures I.Less(rows + I.DefaultsIn(c, |I.Members(c)|, inst, hook), I.DoomedIn(c, |I.Members(c)|, [inst],
        inst)) != rows
  {
    var p := I.DbParam(7, false, "0");
    c, inst := I.Table(1, [p]), [I.Hop(1, 1)];
    rows := map[I.KeyAt(7, inst) := "1"];
    assert I.HooksAnswer(c, 0, inst, hook) && I.HooksAnswer(c, 1, inst, hook);
    I.AddThenDelete(c, [], rows, inst, hook);
    assert [] + [inst] == [inst];
    assert I.DefaultsIn(c, 0, inst, hook) == map[];
    assert I.KeyAt(7, inst) in I.Defaults(p, inst, hook);
    assert I.KeyAt(7, inst) in I.DefaultsIn(c, 1, inst, hook);
  }
}
