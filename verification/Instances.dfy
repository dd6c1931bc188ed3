/**
 Object instances and their database rows: adding the rows of a new instance, and deleting an instance with
 everything nested in it (AddChildParamsDefaultValues, DeleteChildParams and its multi-instance partner in
 data_model.c, over the instance vector of dm_inst_vector.c).
 */
module Instances {
  import opened CommonDefs
  import DbKeys
  import PathHash

  /** A schema node as these functions see it; an automatic parameter takes its first value from a vendor hook. */
  datatype SNode =
    | DbParam(hash: int, auto: bool, initial: string)
    | Single(members: seq<SNode>)
    | Table(id: nat, members: seq<SNode>)
    | NotStored

  /** One entry of dm_instances_t: a table and the instance number in it */
  datatype Hop = Hop(table: nat, number: nat)

  type Inst = seq<Hop>

  type Rows = map<DbKeys.Key, string>

  function Members(c: SNode): seq<SNode> {
    match c
    case Single(m) => m
    case Table(_, m) => m
    case _ => []
  }

  function Numbers(inst: Inst): (r: seq<nat>)
    ensures |r| == |inst| && forall i :: 0 <= i < |r| ==> r[i] == inst[i].number
  {
    if inst == [] then [] else Numbers(inst[..|inst| - 1]) + [inst[|inst| - 1].number]
  }

  function KeyAt(hash: int, inst: Inst): DbKeys.Key {
    DbKeys.Key(hash, DbKeys.InstanceString(Numbers(inst)))
  }

  // ---------------------------------------------------------------- the instance vector

  predicate HasPrefix(e: Inst, p: Inst) {
    |p| <= |e| && e[..|p|] == p
  }

  predicate Existing(v: seq<Inst>, p: Inst) {
    exists i :: 0 <= i < |v| && HasPrefix(v[i], p)
  }

  ghost function Prefixed(p: Inst): iset<Inst> {
    iset e: Inst | HasPrefix(e, p)
  }

  /** Instances below inst in one of the tables */
  ghost function Branch(inst: Inst, tables: set<nat>): iset<Inst> {
    iset e: Inst | HasPrefix(e, inst) && |e| > |inst| && e[|inst|].table in tables
  }

  /** The entries not in bad, in order */
  ghost function Filter(v: seq<Inst>, bad: iset<Inst>): (r: seq<Inst>)
    ensures forall e :: e in r <==> e in v && e !in bad
  {
    if v == [] then []
    else Filter(v[..|v| - 1], bad) + if v[|v| - 1] in bad then [] else [v[|v| - 1]]
  }

  lemma {:induction false} FilterTwice(v: seq<Inst>, a: iset<Inst>, b: iset<Inst>)
    ensures Filter(Filter(v, a), b) == Filter(v, a + b)
  {
    if v == [] {
    } else {
      var n := |v| - 1;
      FilterTwice(v[..n], a, b);
      var f := Filter(v[..n], a);
      if v[n] !in a {
        var g := f + [v[n]];
        assert g[..|g| - 1] == f;
      } else {
        assert f + [] == f;
      }
    }
  }

  lemma {:induction false} FilterSame(v: seq<Inst>, a: iset<Inst>, b: iset<Inst>)
    requires forall e :: e in v ==> (e in a <==> e in b)
    ensures Filter(v, a) == Filter(v, b)
  {
    if v == [] {
    } else {
      FilterSame(v[..|v| - 1], a, b);
    }
  }

  lemma {:induction false} FilterNone(v: seq<Inst>, a: iset<Inst>)
    requires forall e :: e in v ==> e !in a
    ensures Filter(v, a) == v
  {
    if v == [] {
    } else {
      var n := |v| - 1;
      FilterNone(v[..n], a);
      assert v[n] in v && v == v[..n] + [v[n]];
    }
  }

  /** Taking out the entry just added leaves the vector as it was. */
  lemma FilterLast(v: seq<Inst>, p: Inst)
    requires !Existing(v, p)
    ensures Filter(v + [p], Prefixed(p)) == v
  {
    assert (v + [p])[..|v|] == v && p[..|p|] == p;
    forall e | e in v ensures e !in Prefixed(p) {
      var i :| 0 <= i < |v| && v[i] == e;
    }
    FilterNone(v, Prefixed(p));
  }

  /** Entries outside bad are still there. */
  lemma ExistingStays(v: seq<Inst>, bad: iset<Inst>, p: Inst)
    requires forall e :: e in bad ==> !HasPrefix(e, p)
    ensures Existing(Filter(v, bad), p) == Existing(v, p)
  {
    if Existing(v, p) {
      var i :| 0 <= i < |v| && HasPrefix(v[i], p);
      assert v[i] in Filter(v, bad);
    }
    if Existing(Filter(v, bad), p) {
      var i :| 0 <= i < |Filter(v, bad)| && HasPrefix(Filter(v, bad)[i], p);
      assert Filter(v, bad)[i] in v;
    }
  }

  // ---------------------------------------------------------------- tables of a node, and well-formed schemas

  /** The tables reached from the first i members without entering another table */
  function TablesIn(c: SNode, i: nat): set<nat>
    requires i <= |Members(c)|
    decreases c, 0, i
  {
    if i == 0 then {} else TablesIn(c, i - 1) + Tables(Members(c)[i - 1])
  }

  function Tables(c: SNode): set<nat>
    decreases c, 1, 0
  {
    match c
    case Table(id, _) => {id}
    case Single(_) => TablesIn(c, |Members(c)|)
    case _ => {}
  }

  /** Tables are told apart by their nodes, and are nested no deeper than an instance structure can hold. */
  predicate WellFormed(c: SNode, order: nat)
    decreases c, 1
  {
    && (c.Table? ==> order < PathHash.MAX_DM_INSTANCE_ORDER)
    && MembersWellFormed(c, if c.Table? then order + 1 else order)
  }

  predicate MembersWellFormed(c: SNode, order: nat)
    decreases c, 0
  {
    && (forall i :: 0 <= i < |Members(c)| ==> WellFormed(Members(c)[i], order))
    && (forall i :: 0 <= i < |Members(c)| ==> TablesIn(c, i) !! Tables(Members(c)[i]))
  }

  // ---------------------------------------------------------------- which rows go

  /** The keys of the parameters below the first i members of c, for the instance inst and all existing nested ones */
  ghost function DoomedIn(c: SNode, i: nat, v: seq<Inst>, inst: Inst): iset<DbKeys.Key>
    requires i <= |Members(c)|
    decreases c, 0, i
  {
    if i == 0 then iset{} else DoomedIn(c, i - 1, v, inst) + Doomed(Members(c)[i - 1], v, inst)
  }

  ghost function Doomed(c: SNode, v: seq<Inst>, inst: Inst): iset<DbKeys.Key>
    decreases c, 1, 0
  {
    match c
    case DbParam(hash, _, _) => iset{KeyAt(hash, inst)}
    case Single(_) => DoomedIn(c, |Members(c)|, v, inst)
    case Table(id, _) =>
      iset n: nat, k | Existing(v, inst + [Hop(id, n)]) && k in DoomedIn(c, |Members(c)|, v, inst + [Hop(id, n)]) :: k
    case NotStored => iset{}
  }

  ghost function Less(rows: Rows, gone: iset<DbKeys.Key>): Rows {
    map k | k in rows && k !in gone :: rows[k]
  }

  /** Nothing is added, and only keys in gone are missing. */
  ghost predicate OnlyLost(before: Rows, after: Rows, gone: iset<DbKeys.Key>) {
    && (forall k :: k in after ==> k in before && after[k] == before[k])
    && (forall k :: k in before && k !in gone ==> k in after)
  }

  /** Removing entries outside the branches of c leaves the rows of c as they are. */
  lemma {:induction false} DoomedStays(c: SNode, v: seq<Inst>, bad: iset<Inst>, inst: Inst)
    requires bad !! Branch(inst, Tables(c))
    ensures Doomed(c, Filter(v, bad), inst) == Doomed(c, v, inst)
    decreases c, 1, 0
  {
    match c
    case Single(_) => DoomedInStays(c, |Members(c)|, v, bad, inst);
    case Table(id, _) =>
      forall n: nat
        ensures Existing(Filter(v, bad), inst + [Hop(id, n)]) == Existing(v, inst + [Hop(id, n)])
        ensures DoomedIn(c, |Members(c)|, Filter(v, bad), inst + [Hop(id, n)]) == DoomedIn(c, |Members(c)|, v,
            inst + [Hop(id, n)])
      {
        var p := inst + [Hop(id, n)];
        BelowHop(inst, Hop(id, n), {id});
        ExistingStays(v, bad, p);
        BranchWithin(p, TablesIn(c, |Members(c)|));
        DoomedInStays(c, |Members(c)|, v, bad, p);
      }
    case _ =>
  }

  lemma {:induction false} DoomedInStays(c: SNode, i: nat, v: seq<Inst>, bad: iset<Inst>, inst: Inst)
    requires i <= |Members(c)| && bad !! Branch(inst, TablesIn(c, i))
    ensures DoomedIn(c, i, Filter(v, bad), inst) == DoomedIn(c, i, v, inst)
    decreases c, 0, i
  {
    if i == 0 {
    } else {
      DoomedInStays(c, i - 1, v, bad, inst);
      DoomedStays(Members(c)[i - 1], v, bad, inst);
    }
  }

  /** Everything with the prefix inst + [hop] is in the branch of hop's table. */
  lemma BelowHop(inst: Inst, hop: Hop, tables: set<nat>)
    requires hop.table in tables
    ensures Prefixed(inst + [hop]) <= Branch(inst, tables)
  {
    forall e | HasPrefix(e, inst + [hop]) ensures e in Branch(inst, tables) {
      LongerPrefix(e, inst, hop);
    }
  }

  lemma BranchWithin(p: Inst, tables: set<nat>)
    ensures Branch(p, tables) <= Prefixed(p)
  {
  }

  // ---------------------------------------------------------- the rows that go, said without recursion over instances

  /** One of the first i members of c leads to the parameter with this hash, passing through exactly these tables. */
  predicate LeadsIn(c: SNode, i: nat, hops: Inst, hash: int)
    requires i <= |Members(c)|
    decreases c, 0, i
  {
    i > 0 && (LeadsIn(c, i - 1, hops, hash) || Leads(Members(c)[i - 1], hops, hash))
  }

  predicate Leads(c: SNode, hops: Inst, hash: int)
    decreases c, 1, 0
  {
    match c
    case DbParam(h, _, _) => hops == [] && h == hash
    case Single(_) => LeadsIn(c, |Members(c)|, hops, hash)
    case Table(id, _) => hops != [] && hops[0].table == id && LeadsIn(c, |Members(c)|, hops[1..], hash)
    case NotStored => false
  }

  lemma ExistingShorter(v: seq<Inst>, p: Inst, q: Inst)
    requires Existing(v, p + q)
    ensures Existing(v, p)
  {
    var i :| 0 <= i < |v| && HasPrefix(v[i], p + q);
    assert v[i][..|p|] == v[i][..|p + q|][..|p|] == p;
  }

  lemma HopsAssoc(inst: Inst, hops: Inst)
    requires hops != []
    ensures inst + [hops[0]] + hops[1..] == inst + hops
  {
  }

  /** k is the key of this hash and these instance numbers, those of inst or of an existing instance nested in it. */
  predicate Witness(v: seq<Inst>, inst: Inst, hops: Inst, hash: int, k: DbKeys.Key) {
    && (hops == [] || Existing(v, inst + hops))
    && k == DbKeys.Key(hash, DbKeys.InstanceString(Numbers(inst + hops)))
  }

  lemma {:induction false} DoomedToPath(c: SNode, v: seq<Inst>, inst: Inst, k: DbKeys.Key)
    returns (hops: Inst, hash: int)
    requires k in Doomed(c, v, inst)
    ensures Leads(c, hops, hash) && Witness(v, inst, hops, hash, k)
    decreases c, 1, 0
  {
    match c
    case DbParam(h, _, _) =>
      hops, hash := [], h;
      assert inst + [] == inst;
    case Single(_) =>
      hops, hash := DoomedInToPath(c, |Members(c)|, v, inst, k);
    case Table(id, _) =>
      var n: nat :| Existing(v, inst + [Hop(id, n)]) && k in DoomedIn(c, |Members(c)|, v, inst + [Hop(id, n)]);
      var rest, h := DoomedInToPath(c, |Members(c)|, v, inst + [Hop(id, n)], k);
      hops, hash := [Hop(id, n)] + rest, h;
      assert hops[1..] == rest;
      HopsAssoc(inst, hops);
      assert rest == [] ==> inst + hops == inst + [Hop(id, n)];
  }

  lemma {:induction false} DoomedInToPath(c: SNode, i: nat, v: seq<Inst>, inst: Inst, k: DbKeys.Key)
    returns (hops: Inst, hash: int)
    requires i <= |Members(c)| && k in DoomedIn(c, i, v, inst)
    ensures LeadsIn(c, i, hops, hash) && Witness(v, inst, hops, hash, k)
    decreases c, 0, i
  {
    if k in DoomedIn(c, i - 1, v, inst) {
      hops, hash := DoomedInToPath(c, i - 1, v, inst, k);
    } else {
      hops, hash := DoomedToPath(Members(c)[i - 1], v, inst, k);
    }
  }

  lemma {:induction false} PathToDoomed(c: SNode, v: seq<Inst>, inst: Inst, hops: Inst, hash: int, k: DbKeys.Key)
    requires Leads(c, hops, hash) && Witness(v, inst, hops, hash, k)
    ensures k in Doomed(c, v, inst)
    decreases c, 1, 0
  {
    match c
    case DbParam(h, _, _) =>
      assert inst + [] == inst;
    case Single(_) =>
      PathToDoomedIn(c, |Members(c)|, v, inst, hops, hash, k);
    case Table(id, _) =>
      var n := hops[0].number;
      assert hops[0] == Hop(id, n);
      HopsAssoc(inst, hops);
      ExistingShorter(v, inst + [Hop(id, n)], hops[1..]);
      PathToDoomedIn(c, |Members(c)|, v, inst + [Hop(id, n)], hops[1..], hash, k);
  }

  lemma {:induction false} PathToDoomedIn(c: SNode, i: nat, v: seq<Inst>, inst: Inst, hops: Inst, hash: int,
    k: DbKeys.Key)
    requires i <= |Members(c)| && LeadsIn(c, i, hops, hash) && Witness(v, inst, hops, hash, k)
    ensures k in DoomedIn(c, i, v, inst)
    decreases c, 0, i
  {
    if LeadsIn(c, i - 1, hops, hash) {
      PathToDoomedIn(c, i - 1, v, inst, hops, hash, k);
    } else {
      PathToDoomed(Members(c)[i - 1], v, inst, hops, hash, k);
    }
  }

  /** The rows deleted with inst are exactly those of parameters below it, at inst or at an existing nested instance. */
  lemma DoomedExactly(c: SNode, v: seq<Inst>, inst: Inst, k: DbKeys.Key)
    ensures k in DoomedIn(c, |Members(c)|, v, inst) <==>
            exists hops: Inst, hash: int :: LeadsIn(c, |Members(c)|, hops, hash) && Witness(v, inst, hops, hash, k)
  {
    if k in DoomedIn(c, |Members(c)|, v, inst) {
      var hops, hash := DoomedInToPath(c, |Members(c)|, v, inst, k);
    }
    if hops: Inst, hash: int :| LeadsIn(c, |Members(c)|, hops, hash) && Witness(v, inst, hops, hash, k) {
      PathToDoomedIn(c, |Members(c)|, v, inst, hops, hash, k);
    }
  }

  lemma NumbersPrefix(inst: Inst, hops: Inst)
    ensures Numbers(inst + hops)[..|inst|] == Numbers(inst)
  {
  }

  /** Keys are equal if and only if the hashes are and the instance numbers are. */
  lemma SameKeyExactly(hash: int, a: seq<nat>, hash': int, b: seq<nat>)
    ensures DbKeys.Key(hash, DbKeys.InstanceString(a)) == DbKeys.Key(hash', DbKeys.InstanceString(b)) <==>
            hash == hash' && a == b
  {
    hide DbKeys.InstanceString;
    if DbKeys.InstanceString(a) == DbKeys.InstanceString(b) {
      DbKeys.InstanceStringInjective(a, b);
    }
  }

  /** Rows of another instance of the same table, or of one that inst is nested in, are not among them. */
  lemma OthersSafe(c: SNode, v: seq<Inst>, inst: Inst, other: seq<nat>, hash: int)
    requires !(|inst| <= |other| && other[..|inst|] == Numbers(inst))
    ensures DbKeys.Key(hash, DbKeys.InstanceString(other)) !in DoomedIn(c, |Members(c)|, v, inst)
  {
    var k := DbKeys.Key(hash, DbKeys.InstanceString(other));
    if k in DoomedIn(c, |Members(c)|, v, inst) {
      var hops, h := DoomedInToPath(c, |Members(c)|, v, inst, k);
      NumbersPrefix(inst, hops);
      SameKeyExactly(hash, other, h, Numbers(inst + hops));
      assert false;
    }
  }

  // ---------------------------------------------------------------- first values

  type AutoValue = (int, Inst) -> Option<string>

  function FirstValue(c: SNode, inst: Inst, hook: AutoValue): Option<string>
    requires c.DbParam?
  {
    if c.auto then hook(c.hash, inst) else Some(c.initial)
  }

  /** The rows that a new instance gets; a hook that fails gives none. */
  function DefaultsIn(c: SNode, i: nat, inst: Inst, hook: AutoValue): Rows
    requires i <= |Members(c)|
    decreases c, 0, i
  {
    if i == 0 then map[] else DefaultsIn(c, i - 1, inst, hook) + Defaults(Members(c)[i - 1], inst, hook)
  }

  function Defaults(c: SNode, inst: Inst, hook: AutoValue): Rows
    decreases c, 1, 0
  {
    match c
    case DbParam(hash, _, _) =>
      (match FirstValue(c, inst, hook)
       case None => map[]
       case Some(value) => map[KeyAt(hash, inst) := value])
    case Single(_) => DefaultsIn(c, |Members(c)|, inst, hook)
    case _ => map[]
  }

  /** One of the first i members of c leads, without entering a table, to this parameter. */
  predicate Stores(c: SNode, i: nat, p: SNode)
    requires i <= |Members(c)| && p.DbParam?
    decreases c, i
  {
    i > 0 &&
      var m := Members(c)[i - 1];
      || Stores(c, i - 1, p) || m == p
      || (m.Single? && Stores(m, |Members(m)|, p))
  }

  /** Every row written is that of such a parameter: under its hash, with the hook's value or the registered one. */
  lemma {:induction false} DefaultsFrom(c: SNode, i: nat, inst: Inst, hook: AutoValue, k: DbKeys.Key)
    returns (p: SNode)
    requires i <= |Members(c)| && k in DefaultsIn(c, i, inst, hook)
    ensures p.DbParam? && Stores(c, i, p) && k == DbKeys.Key(p.hash, DbKeys.InstanceString(Numbers(inst)))
    ensures Some(DefaultsIn(c, i, inst, hook)[k]) == if p.auto then hook(p.hash, inst) else Some(p.initial)
    decreases c, i
  {
    var m := Members(c)[i - 1];
    if k in Defaults(m, inst, hook) {
      if m.DbParam? {
        p := m;
      } else {
        p := DefaultsFrom(m, |Members(m)|, inst, hook, k);
      }
    } else {
      p := DefaultsFrom(c, i - 1, inst, hook, k);
    }
  }

  /** Every such parameter that has a first value gets a row. */
  lemma {:induction false} DefaultsHave(c: SNode, i: nat, inst: Inst, hook: AutoValue, p: SNode)
    requires p.DbParam? && i <= |Members(c)| && Stores(c, i, p)
    requires p.auto ==> hook(p.hash, inst).Some?
    ensures DbKeys.Key(p.hash, DbKeys.InstanceString(Numbers(inst))) in DefaultsIn(c, i, inst, hook)
    decreases c, i
  {
    var m := Members(c)[i - 1];
    if Stores(c, i - 1, p) {
      DefaultsHave(c, i - 1, inst, hook, p);
    } else if m != p {
      DefaultsHave(m, |Members(m)|, inst, hook, p);
    }
  }

  /** All hooks that are asked answer if and only if each of these parameters has a first value. */
  lemma {:induction false} HooksAnswerExactly(c: SNode, i: nat, inst: Inst, hook: AutoValue)
    requires i <= |Members(c)|
    ensures HooksAnswer(c, i, inst, hook) <==>
            forall p: SNode :: p.DbParam? && Stores(c, i, p) ==> (p.auto ==> hook(p.hash, inst).Some?)
    decreases c, i
  {
    if i == 0 {
    } else {
      var m := Members(c)[i - 1];
      HooksAnswerExactly(c, i - 1, inst, hook);
      assert m.DbParam? ==> Stores(c, i, m);
      if m.Single? {
        HooksAnswerExactly(m, |Members(m)|, inst, hook);
        assert forall p: SNode :: p.DbParam? && Stores(m, |Members(m)|, p) ==> Stores(c, i, p);
      }
      assert forall p: SNode :: p.DbParam? && Stores(c, i - 1, p) ==> Stores(c, i, p);
    }
  }

  /** Whether every hook that is asked answers */
  predicate HooksAnswer(c: SNode, i: nat, inst: Inst, hook: AutoValue)
    requires i <= |Members(c)|
    decreases c, i
  {
    i > 0 ==>
      var m := Members(c)[i - 1];
      && HooksAnswer(c, i - 1, inst, hook)
      && (m.DbParam? ==> FirstValue(m, inst, hook).Some?)
      && (m.Single? ==> HooksAnswer(m, |Members(m)|, inst, hook))
  }

  /** No instance in v is nested below inst. */
  predicate NoneNested(v: seq<Inst>, inst: Inst) {
    forall i :: 0 <= i < |v| && HasPrefix(v[i], inst) ==> |v[i]| == |inst|
  }

  /** With nothing nested, the rows to delete are the rows that adding the instance wrote. */
  lemma {:induction false} DoomedAreDefaults(c: SNode, i: nat, v: seq<Inst>, inst: Inst, hook: AutoValue, k: DbKeys.Key)
    requires i <= |Members(c)| && NoneNested(v, inst) && HooksAnswer(c, i, inst, hook)
    ensures k in DoomedIn(c, i, v, inst) <==> k in DefaultsIn(c, i, inst, hook)
    decreases c, i
  {
    if i == 0 {
    } else {
      DoomedAreDefaults(c, i - 1, v, inst, hook, k);
      var m := Members(c)[i - 1];
      match m
      case Single(_) => DoomedAreDefaults(m, |Members(m)|, v, inst, hook, k);
      case Table(id, _) =>
        forall n: nat ensures !Existing(v, inst + [Hop(id, n)]) {
          NothingBelow(v, inst, Hop(id, n));
        }
      case _ =>
    }
  }

  lemma LongerPrefix(e: Inst, inst: Inst, hop: Hop)
    ensures HasPrefix(e, inst + [hop]) ==> HasPrefix(e, inst) && |e| > |inst| && e[|inst|] == hop
  {
    var p := inst + [hop];
    if HasPrefix(e, p) {
      assert e[..|p|][|inst|] == hop;
      assert e[..|inst|] == e[..|p|][..|inst|] == p[..|inst|] == inst;
    }
  }

  lemma NothingBelow(v: seq<Inst>, inst: Inst, hop: Hop)
    requires NoneNested(v, inst)
    ensures !Existing(v, inst + [hop])
  {
    forall i | 0 <= i < |v| ensures !HasPrefix(v[i], inst + [hop]) {
      LongerPrefix(v[i], inst, hop);
    }
  }

  /**
   Adding an instance that does not exist and then deleting it puts the instances back, and puts the database back
   exactly when it held none of the new instance's rows beforehand.
   */
  lemma AddThenDelete(c: SNode, v: seq<Inst>, rows: Rows, inst: Inst, hook: AutoValue)
    requires !Existing(v, inst) && HooksAnswer(c, |Members(c)|, inst, hook)
    ensures Filter(v + [inst], Prefixed(inst)) == v
    ensures var added := DefaultsIn(c, |Members(c)|, inst, hook);
            Less(rows + added, DoomedIn(c, |Members(c)|, v + [inst], inst)) == rows <==> rows.Keys !! added.Keys
  {
    var v1, added := v + [inst], DefaultsIn(c, |Members(c)|, inst, hook);
    FilterLast(v, inst);
    assert forall i :: 0 <= i < |v| ==> v1[i] == v[i];
    assert NoneNested(v1, inst);
    forall k ensures k in DoomedIn(c, |Members(c)|, v1, inst) <==> k in added {
      DoomedAreDefaults(c, |Members(c)|, v1, inst, hook, k);
    }
    LessNew(rows, added, DoomedIn(c, |Members(c)|, v1, inst));
  }

  lemma LessNew(rows: Rows, added: Rows, gone: iset<DbKeys.Key>)
    requires forall k :: k in gone <==> k in added
    ensures Less(rows + added, gone) == rows <==> rows.Keys !! added.Keys
  {
    var left := Less(rows + added, gone);
    if rows.Keys !! added.Keys {
      assert left == rows;
    } else {
      var k :| k in rows && k in added;
      assert k !in left;
    }
  }
}
