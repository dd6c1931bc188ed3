/**
 The functions of data_model.c and dm_inst_vector.c that change instances and rows, proved against module Instances.
 */
module InstanceObject {
  import opened CommonDefs
  import opened Instances
  import DbKeys
  import PathHash

  // ---------------------------------------------------------------- one step of each loop

  lemma LessTwice(rows: Rows, a: iset<DbKeys.Key>, b: iset<DbKeys.Key>)
    ensures Less(Less(rows, a), b) == Less(rows, a + b)
  {
  }

  lemma LostMore(rows: Rows, a: iset<DbKeys.Key>, after: Rows, b: iset<DbKeys.Key>, d: iset<DbKeys.Key>)
    requires OnlyLost(Less(rows, a), after, b) && a <= d && b <= d
    ensures OnlyLost(rows, after, d)
  {
  }

  lemma LessIsLost(rows: Rows, a: iset<DbKeys.Key>, d: iset<DbKeys.Key>)
    requires a <= d
    ensures OnlyLost(rows, Less(rows, a), d)
  {
  }

  lemma {:induction false} DoomedInGrows(c: SNode, i: nat, j: nat, v: seq<Inst>, inst: Inst)
    requires i <= j <= |Members(c)|
    ensures DoomedIn(c, i, v, inst) <= DoomedIn(c, j, v, inst)
    decreases j
  {
    if i == j {
    } else {
      DoomedInGrows(c, i, j - 1, v, inst);
    }
  }

  lemma BranchJoin(inst: Inst, a: set<nat>, b: set<nat>)
    ensures Branch(inst, a) + Branch(inst, b) == Branch(inst, a + b)
    ensures a !! b ==> Branch(inst, a) !! Branch(inst, b)
  {
  }

  /** After the first i members, the next one finds its own rows and instances as they were. */
  lemma MemberStep(c: SNode, i: nat, v: seq<Inst>, inst: Inst, rows: Rows)
    requires i < |Members(c)| && TablesIn(c, i) !! Tables(Members(c)[i])
    ensures var m, w := Members(c)[i], Filter(v, Branch(inst, TablesIn(c, i)));
            && Doomed(m, w, inst) == Doomed(m, v, inst)
            && Filter(w, Branch(inst, Tables(m))) == Filter(v, Branch(inst, TablesIn(c, i + 1)))
            && Less(Less(rows, DoomedIn(c, i, v, inst)), Doomed(m, v, inst)) == Less(rows, DoomedIn(c, i + 1, v, inst))
  {
    var m := Members(c)[i];
    BranchJoin(inst, TablesIn(c, i), Tables(m));
    DoomedStays(m, v, Branch(inst, TablesIn(c, i)), inst);
    FilterTwice(v, Branch(inst, TablesIn(c, i)), Branch(inst, Tables(m)));
    LessTwice(rows, DoomedIn(c, i, v, inst), Doomed(m, v, inst));
  }

  /** The rows of the listed instances of the table c */
  ghost function DoomedAt(c: SNode, v: seq<Inst>, inst: Inst, ns: seq<nat>): iset<DbKeys.Key>
    requires c.Table?
  {
    if ns == [] then iset{}
    else DoomedAt(c, v, inst, ns[..|ns| - 1]) + DoomedIn(c, |Members(c)|, v, inst + [Hop(c.id, ns[|ns| - 1])])
  }

  ghost function Numbered(inst: Inst, id: nat, ns: seq<nat>): iset<Inst> {
    iset e: Inst | HasPrefix(e, inst) && |e| > |inst| && e[|inst|].table == id && e[|inst|].number in ns
  }

  lemma TableStep(c: SNode, v: seq<Inst>, inst: Inst, ns: seq<nat>, n: nat)
    requires c.Table? && n !in ns
    ensures var p, w := inst + [Hop(c.id, n)], Filter(v, Numbered(inst, c.id, ns));
            && DoomedIn(c, |Members(c)|, w, p) == DoomedIn(c, |Members(c)|, v, p)
            && Filter(Filter(w, Branch(p, TablesIn(c, |Members(c)|))), Prefixed(p)) == Filter(v, Numbered(inst,
              c.id, ns + [n]))
  {
    var p, a, t := inst + [Hop(c.id, n)], Numbered(inst, c.id, ns), TablesIn(c, |Members(c)|);
    forall e: Inst ensures e in Prefixed(p) <==> HasPrefix(e, inst) && |e| > |inst| && e[|inst|] == Hop(c.id, n) {
      LongerPrefix(e, inst, Hop(c.id, n));
      if HasPrefix(e, inst) && |e| > |inst| && e[|inst|] == Hop(c.id, n) {
        assert e[..|p|] == e[..|inst|] + [e[|inst|]];
      }
    }
    BranchWithin(p, t);
    DoomedInStays(c, |Members(c)|, v, a, p);
    FilterTwice(v, a, Branch(p, t));
    FilterTwice(v, a + Branch(p, t), Prefixed(p));
    assert a + Branch(p, t) + Prefixed(p) == Numbered(inst, c.id, ns + [n]);
  }

  lemma {:induction false} DoomedAtExisting(c: SNode, v: seq<Inst>, inst: Inst, ns: seq<nat>)
    requires c.Table? && forall n :: n in ns ==> Existing(v, inst + [Hop(c.id, n)])
    ensures DoomedAt(c, v, inst, ns) <= Doomed(c, v, inst)
  {
    if ns == [] {
    } else {
      assert ns[|ns| - 1] in ns;
      DoomedAtExisting(c, v, inst, ns[..|ns| - 1]);
    }
  }

  lemma {:induction false} DoomedAtHas(c: SNode, v: seq<Inst>, inst: Inst, ns: seq<nat>, n: nat)
    requires c.Table? && n in ns
    ensures DoomedIn(c, |Members(c)|, v, inst + [Hop(c.id, n)]) <= DoomedAt(c, v, inst, ns)
  {
    if n != ns[|ns| - 1] {
      DoomedAtHas(c, v, inst, ns[..|ns| - 1], n);
    }
  }

  /** Once every existing instance has been visited, the whole table is gone. */
  lemma TableEnd(c: SNode, v: seq<Inst>, inst: Inst, ns: seq<nat>)
    requires c.Table? && forall n: nat :: n in ns <==> Existing(v, inst + [Hop(c.id, n)])
    ensures DoomedAt(c, v, inst, ns) == Doomed(c, v, inst)
    ensures Filter(v, Numbered(inst, c.id, ns)) == Filter(v, Branch(inst, {c.id}))
  {
    DoomedAtExisting(c, v, inst, ns);
    forall k | k in Doomed(c, v, inst) ensures k in DoomedAt(c, v, inst, ns) {
      var n: nat :| Existing(v, inst + [Hop(c.id, n)]) && k in DoomedIn(c, |Members(c)|, v, inst + [Hop(c.id, n)]);
      DoomedAtHas(c, v, inst, ns, n);
    }
    forall e: Inst | e in v ensures e in Numbered(inst, c.id, ns) <==> e in Branch(inst, {c.id}) {
      if e in Branch(inst, {c.id}) {
        var n := e[|inst|].number;
        assert e[..|inst| + 1] == inst + [Hop(c.id, n)];
        var i :| 0 <= i < |v| && v[i] == e;
        assert HasPrefix(v[i], inst + [Hop(c.id, n)]);
      }
    }
    FilterSame(v, Numbered(inst, c.id, ns), Branch(inst, {c.id}));
  }

  /** The database, the instance vector and the shared instance structure; the database may fail at any call. */
  class DataStore {
    const dbOk: nat -> bool
    const hook: AutoValue
    var calls: nat
    var rows: Rows
    var vector: seq<Inst>
    var inst: Inst

    constructor (dbOk: nat -> bool, hook: AutoValue)
      ensures rows == map[] && vector == [] && inst == [] && this.hook == hook
    {
      this.dbOk, this.hook := dbOk, hook;
      calls, rows, vector, inst := 0, map[], [], [];
    }

    method DeleteParameter(key: DbKeys.Key) returns (ok: bool)
      modifies `calls, `rows
      ensures rows == if ok then Less(old(rows), iset{key}) else old(rows)
    {
      ok := dbOk(calls);
      calls := calls + 1;
      if ok {
        rows := rows - {key};
      }
      assert ok ==> rows == Less(old(rows), iset{key});
    }

    method SetParameterValue(key: DbKeys.Key, value: string) returns (ok: bool)
      modifies `calls, `rows
      ensures rows == if ok then old(rows)[key := value] else old(rows)
    {
      ok := dbOk(calls);
      calls := calls + 1;
      if ok {
        rows := rows[key := value];
      }
    }

    /** DM_INST_VECTOR_Remove: the instance and everything nested in it leave, and the rest keep their order. */
    method RemoveInstance()
      modifies `vector
      ensures vector == if inst == [] then old(vector) else Filter(old(vector), Prefixed(inst))
    {
      if inst == [] {
        return;
      }
      var kept: seq<Inst> := [];
      var i := 0;
      while i < |vector|
        invariant 0 <= i <= |vector| && kept == Filter(vector[..i], Prefixed(inst))
      {
        assert vector[..i + 1][..i] == vector[..i];
        if !(|vector[i]| >= |inst| && vector[i][..|inst|] == inst) {
          kept := kept + [vector[i]];
        }
        i := i + 1;
      }
      assert vector[..i] == vector;
      vector := kept;
    }

    /** DM_INST_VECTOR_Add */
    method AddInstance()
      modifies `vector
      ensures vector == if inst == [] || inst in old(vector) then old(vector) else old(vector) + [inst]
    {
      if inst == [] {
        return;
      }
      for i := 0 to |vector|
        invariant forall j :: 0 <= j < i ==> vector[j] != inst
        invariant vector == old(vector)
      {
        if vector[i] == inst {
          return;
        }
      }
      vector := vector + [inst];
    }

    /** DM_INST_VECTOR_GetInstances: the numbers of the existing instances of this table, each once */
    method GetInstances(id: nat) returns (ok: bool, ns: seq<nat>)
      modifies `calls
      ensures forall i, j :: 0 <= i < j < |ns| ==> ns[i] != ns[j]
      ensures ok ==> forall n: nat :: n in ns <==> Existing(vector, inst + [Hop(id, n)])
    {
      ns := [];
      ok := dbOk(calls);
      calls := calls + 1;
      if !ok {
        return;
      }
      for i := 0 to |vector|
        invariant forall a, b :: 0 <= a < b < |ns| ==> ns[a] != ns[b]
        invariant forall n: nat :: n in ns <==> Existing(vector[..i], inst + [Hop(id, n)])
      {
        var e := vector[i];
        ghost var was := ns;
        if |e| >= |inst| + 1 && e[..|inst|] == inst && e[|inst|].table == id && e[|inst|].number !in ns {
          ns := ns + [e[|inst|].number];
        }
        forall n: nat ensures n in ns <==> Existing(vector[..i + 1], inst + [Hop(id, n)]) {
          ExistingSnoc(vector, i, inst, Hop(id, n));
        }
      }
      assert vector[..|vector|] == vector;
    }

    /**
     DeleteChildParams: the rows of c below inst go, at inst and at every existing nested instance, and so do those
     nested instances; nothing else does, even on failure, and on success inst is as it was.
     */
    method DeleteChildParams(c: SNode) returns (ok: bool)
      requires MembersWellFormed(c, |inst|)
      modifies `calls, `rows, `vector, `inst
      ensures OnlyLost(old(rows), rows, DoomedIn(c, |Members(c)|, old(vector), old(inst)))
      ensures ok ==> inst == old(inst)
      ensures ok ==> rows == Less(old(rows), DoomedIn(c, |Members(c)|, old(vector), old(inst)))
      ensures ok ==> vector == Filter(old(vector), Branch(old(inst), TablesIn(c, |Members(c)|)))
      decreases c, 0
    {
      hide DoomedIn, Doomed, Less, OnlyLost, Filter, Branch, Tables;
      ghost var v0, r0, p := vector, rows, inst;
      var i := 0;
      NothingYet(c, v0, p, r0);
      while i < |Members(c)|
        invariant 0 <= i <= |Members(c)| && inst == p
        invariant rows == Less(r0, DoomedIn(c, i, v0, p)) && vector == Filter(v0, Branch(p, TablesIn(c, i)))
      {
        DoomedInGrows(c, i, |Members(c)|, v0, p);
        MemberStep(c, i, v0, p, r0);
        MemberWithin(c, i, v0, p);
        ok := DeleteMember(Members(c)[i]);
        LostMore(r0, DoomedIn(c, i, v0, p), rows, Doomed(Members(c)[i], v0, p), DoomedIn(c, |Members(c)|, v0, p));
        if !ok {
          return;
        }
        i := i + 1;
      }
      LessIsLost(r0, DoomedIn(c, i, v0, p), DoomedIn(c, i, v0, p));
      ok := true;
    }

    /** The switch on the kind of one child */
    method DeleteMember(m: SNode) returns (ok: bool)
      requires WellFormed(m, |inst|)
      modifies `calls, `rows, `vector, `inst
      ensures OnlyLost(old(rows), rows, Doomed(m, old(vector), old(inst)))
      ensures ok ==> inst == old(inst)
      ensures ok ==> rows == Less(old(rows), Doomed(m, old(vector), old(inst)))
      ensures ok ==> vector == Filter(old(vector), Branch(old(inst), Tables(m)))
      decreases m, 2
    {
      hide DoomedIn, Less, OnlyLost, Filter, Branch;
      NoRowsNoInstances(rows, vector, inst);
      match m {
        case DbParam(hash, _, _) =>
          ok := DeleteParameter(KeyAt(hash, inst));
          LessIsLost(old(rows), iset{KeyAt(hash, inst)}, iset{KeyAt(hash, inst)});
          LessIsLost(old(rows), iset{}, iset{KeyAt(hash, inst)});
        case Single(_) =>
          ok := DeleteChildParams(m);
        case Table(_, _) =>
          ok := DeleteTable(m);
        case NotStored =>
          LessIsLost(old(rows), iset{}, iset{});
          ok := true;
      }
    }

    /** DeleteChildParams_MultiInstanceObject: every existing instance of the table c below inst goes. */
    method DeleteTable(c: SNode) returns (ok: bool)
      requires c.Table? && WellFormed(c, |inst|)
      modifies `calls, `rows, `vector, `inst
      ensures OnlyLost(old(rows), rows, Doomed(c, old(vector), old(inst)))
      ensures ok ==> inst == old(inst)
      ensures ok ==> rows == Less(old(rows), Doomed(c, old(vector), old(inst)))
      ensures ok ==> vector == Filter(old(vector), Branch(old(inst), {c.id}))
      decreases c, 1
    {
      hide DoomedIn, Doomed, DoomedAt, Less, OnlyLost, Filter, Branch, Numbered, TablesIn, Tables, MembersWellFormed;
      ghost var v0, r0, p := vector, rows, inst;
      NoRowsNoInstances(r0, v0, p);
      LessIsLost(r0, iset{}, Doomed(c, v0, p));
      var ns;
      ok, ns := GetInstances(c.id);
      if !ok {
        return;
      }
      var order := |inst|;
      assert order < PathHash.MAX_DM_INSTANCE_ORDER;
      NoneVisited(c, v0, p);
      var i := 0;
      while i < |ns|
        invariant 0 <= i <= |ns| && |inst| >= order && inst[..order] == p
        invariant rows == Less(r0, DoomedAt(c, v0, p, ns[..i])) && vector == Filter(v0, Numbered(p, c.id, ns[..i]))
      {
        inst := inst[..order] + [Hop(c.id, ns[i])];
        assert inst == p + [Hop(c.id, ns[i])];
        InstanceStep(c, v0, p, ns, i, r0);
        ok := DeleteChildParams(c);
        LostMore(r0, DoomedAt(c, v0, p, ns[..i]), rows, DoomedIn(c, |Members(c)|, v0, p + [Hop(c.id, ns[i])]),
                 Doomed(c, v0, p));
        if !ok {
          return;
        }
        RemoveInstance();
        i := i + 1;
      }
      assert ns[..i] == ns;
      TableEnd(c, v0, p, ns);
      LessIsLost(r0, Doomed(c, v0, p), Doomed(c, v0, p));
      inst := inst[..order];
    }

    /** AddChildParamsDefaultValues: exactly the default rows of inst are written. */
    method AddChildParamsDefaultValues(c: SNode) returns (ok: bool)
      modifies `calls, `rows
      ensures OnlyGained(old(rows), rows, DefaultsIn(c, |Members(c)|, inst, hook))
      ensures ok ==> HooksAnswer(c, |Members(c)|, inst, hook)
      ensures ok ==> rows == old(rows) + DefaultsIn(c, |Members(c)|, inst, hook)
      decreases c, 0
    {
      hide OnlyGained, Defaults, KeyAt;
      ghost var r0 := rows;
      AddJoin(r0, map[], map[]);
      var i := 0;
      while i < |Members(c)|
        invariant 0 <= i <= |Members(c)| && HooksAnswer(c, i, inst, hook)
        invariant rows == r0 + DefaultsIn(c, i, inst, hook)
      {
        ghost var m := Members(c)[i];
        DefaultsGrow(c, i, |Members(c)|, inst, hook);
        DefaultsGrow(c, i + 1, |Members(c)|, inst, hook);
        ok := AddMember(Members(c)[i]);
        GainedMore(r0, DefaultsIn(c, i, inst, hook), rows, Defaults(m, inst, hook),
                   DefaultsIn(c, |Members(c)|, inst, hook));
        if !ok {
          return;
        }
        AddJoin(r0, DefaultsIn(c, i, inst, hook), Defaults(m, inst, hook));
        i := i + 1;
      }
      AllGained(r0, DefaultsIn(c, i, inst, hook));
      ok := true;
    }

    /** The switch on the kind of one child */
    method AddMember(m: SNode) returns (ok: bool)
      modifies `calls, `rows
      ensures OnlyGained(old(rows), rows, Defaults(m, inst, hook))
      ensures ok ==> (m.DbParam? ==> FirstValue(m, inst, hook).Some?)
      ensures ok ==> (m.Single? ==> HooksAnswer(m, |Members(m)|, inst, hook))
      ensures ok ==> rows == old(rows) + Defaults(m, inst, hook)
      decreases m, 1
    {
      match m {
        case DbParam(hash, auto, initial) =>
          var value := if auto then hook(hash, inst) else Some(initial);
          if value.None? {
            return false;
          }
          ok := SetParameterValue(KeyAt(hash, inst), value.value);
        case Single(_) =>
          ok := AddChildParamsDefaultValues(m);
        case _ =>
          ok := true;
      }
    }

    /**
     The end of DATA_MODEL_AddInstance, with inst locating the parent of the table c: the instance joins the vector,
     unless it is there already, and gets its default rows. When a row cannot be written it leaves the vector again,
     with everything nested in it; the vector is then as it was if the instance was new.
     */
    method CreateInstance(c: SNode, number: nat) returns (ok: bool)
      requires c.Table? && |inst| < PathHash.MAX_DM_INSTANCE_ORDER
      modifies `calls, `rows, `vector, `inst
      ensures inst == old(inst) + [Hop(c.id, number)]
      ensures OnlyGained(old(rows), rows, DefaultsIn(c, |Members(c)|, inst, hook))
      ensures ok ==> HooksAnswer(c, |Members(c)|, inst, hook)
      ensures ok ==> rows == old(rows) + DefaultsIn(c, |Members(c)|, inst, hook)
      ensures ok ==> vector == if inst in old(vector) then old(vector) else old(vector) + [inst]
      ensures !ok ==> vector == Filter(old(vector), Prefixed(inst))
      ensures !ok && !Existing(old(vector), inst) ==> vector == old(vector)
    {
      inst := inst + [Hop(c.id, number)];
      AddInstance();
      ok := AddChildParamsDefaultValues(c);
      if !ok {
        RemoveInstance();
        LastGone(old(vector), inst);
        if !Existing(old(vector), inst) {
          FilterLast(old(vector), inst);
        }
      }
    }

    /**
     The end of DATA_MODEL_DeleteInstance, with inst locating an instance of the table c: its rows and those of
     everything nested in it go, and it and everything nested in it leave the instance vector.
     */
    method DeleteInstance(c: SNode) returns (ok: bool)
      requires c.Table? && inst != [] && MembersWellFormed(c, |inst|)
      modifies `calls, `rows, `vector, `inst
      ensures OnlyLost(old(rows), rows, DoomedIn(c, |Members(c)|, old(vector), old(inst)))
      ensures ok ==> inst == old(inst)
      ensures ok ==> rows == Less(old(rows), DoomedIn(c, |Members(c)|, old(vector), old(inst)))
      ensures ok ==> vector == Filter(old(vector), Prefixed(old(inst)))
    {
      ok := DeleteChildParams(c);
      if ok {
        RemoveInstance();
        BranchWithin(inst, TablesIn(c, |Members(c)|));
        FilterTwice(old(vector), Branch(inst, TablesIn(c, |Members(c)|)), Prefixed(inst));
        assert Branch(inst, TablesIn(c, |Members(c)|)) + Prefixed(inst) == Prefixed(inst);
      }
    }
  }

  /** Rows outside added are as they were. */
  ghost predicate OnlyGained(before: Rows, after: Rows, added: Rows) {
    forall k :: k !in added ==> (k in after <==> k in before) && (k in after ==> after[k] == before[k])
  }

  lemma {:induction false} DefaultsGrow(c: SNode, i: nat, j: nat, inst: Inst, hook: AutoValue)
    requires i <= j <= |Members(c)|
    ensures DefaultsIn(c, i, inst, hook).Keys <= DefaultsIn(c, j, inst, hook).Keys
    decreases j
  {
    if i == j {
    } else {
      DefaultsGrow(c, i, j - 1, inst, hook);
    }
  }

  lemma GainedMore(before: Rows, a: Rows, after: Rows, b: Rows, d: Rows)
    requires OnlyGained(before + a, after, b) && a.Keys <= d.Keys && b.Keys <= d.Keys
    ensures OnlyGained(before, after, d)
  {
  }

  lemma AddJoin(a: Rows, b: Rows, d: Rows)
    ensures (a + b) + d == a + (b + d) && a + map[] == a
  {
  }

  lemma AllGained(before: Rows, added: Rows)
    ensures OnlyGained(before, before + added, added)
  {
  }

  lemma LastGone(v: seq<Inst>, p: Inst)
    ensures Filter(v + [p], Prefixed(p)) == Filter(v, Prefixed(p))
  {
    assert (v + [p])[..|v|] == v && p[..|p|] == p;
    assert Filter(v, Prefixed(p)) + [] == Filter(v, Prefixed(p));
  }

  lemma NothingYet(c: SNode, v: seq<Inst>, inst: Inst, rows: Rows)
    ensures DoomedIn(c, 0, v, inst) == iset{} && Less(rows, iset{}) == rows
    ensures Filter(v, Branch(inst, TablesIn(c, 0))) == v
  {
    FilterNone(v, Branch(inst, {}));
  }

  lemma NoRowsNoInstances(rows: Rows, v: seq<Inst>, inst: Inst)
    ensures Less(rows, iset{}) == rows && Filter(v, Branch(inst, {})) == v
  {
    FilterNone(v, Branch(inst, {}));
  }

  lemma NoneVisited(c: SNode, v: seq<Inst>, inst: Inst)
    requires c.Table?
    ensures DoomedAt(c, v, inst, []) == iset{} && Filter(v, Numbered(inst, c.id, [])) == v
  {
    FilterNone(v, Numbered(inst, c.id, []));
  }

  lemma MemberWithin(c: SNode, i: nat, v: seq<Inst>, inst: Inst)
    requires i < |Members(c)|
    ensures Doomed(Members(c)[i], v, inst) <= DoomedIn(c, |Members(c)|, v, inst)
  {
    DoomedInGrows(c, i + 1, |Members(c)|, v, inst);
  }

  lemma InstanceStep(c: SNode, v: seq<Inst>, inst: Inst, ns: seq<nat>, i: nat, rows: Rows)
    requires c.Table? && i < |ns| && forall a, b :: 0 <= a < b < |ns| ==> ns[a] != ns[b]
    requires forall n: nat :: n in ns <==> Existing(v, inst + [Hop(c.id, n)])
    ensures var p, d := inst + [Hop(c.id, ns[i])], DoomedAt(c, v, inst, ns[..i]);
            var w := Filter(v, Numbered(inst, c.id, ns[..i]));
            && DoomedIn(c, |Members(c)|, w, p) == DoomedIn(c, |Members(c)|, v, p) <= Doomed(c, v, inst)
            && d <= Doomed(c, v, inst)
            && Filter(Filter(w, Branch(p, TablesIn(c, |Members(c)|))), Prefixed(p)) ==
               Filter(v, Numbered(inst, c.id, ns[..i + 1]))
            && Less(Less(rows, d), DoomedIn(c, |Members(c)|, v, p)) == Less(rows, DoomedAt(c, v, inst, ns[..i + 1]))
  {
    var n, done := ns[i], ns[..i];
    assert n !in done;
    assert ns[..i + 1] == done + [n] && ns[..i + 1][..i] == done;
    TableStep(c, v, inst, done, n);
    DoomedAtExisting(c, v, inst, ns[..i + 1]);
    LessTwice(rows, DoomedAt(c, v, inst, done), DoomedIn(c, |Members(c)|, v, inst + [Hop(c.id, n)]));
  }

  lemma ExistingSnoc(v: seq<Inst>, i: nat, inst: Inst, hop: Hop)
    requires i < |v|
    ensures Existing(v[..i + 1], inst + [hop]) <==>
            Existing(v[..i], inst + [hop]) || (HasPrefix(v[i], inst) && |v[i]| > |inst| && v[i][|inst|] == hop)
  {
    var p, s, t := inst + [hop], v[..i + 1], v[..i];
    LongerPrefix(v[i], inst, hop);
    if HasPrefix(v[i], inst) && |v[i]| > |inst| && v[i][|inst|] == hop {
      assert v[i][..|p|] == v[i][..|inst|] + [hop];
      assert s[i] == v[i];
    }
    if Existing(t, p) {
      var j :| 0 <= j < |t| && HasPrefix(t[j], p);
      assert s[j] == t[j];
    }
    if Existing(s, p) {
      var j :| 0 <= j < |s| && HasPrefix(s[j], p);
      assert j < i ==> t[j] == s[j];
    }
  }
}
