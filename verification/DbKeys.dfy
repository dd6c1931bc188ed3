/**
 Database keys of data model parameters: a path maps to a hash and an instance string, and back
 (DM_PRIV_FormDB_FromPath, DM_PRIV_FormPath_FromDB and the functions they call).
 */
module DbKeys {
  import opened CommonDefs
  import opened PathHash

  // ---------------------------------------------------------------- numbers as text

  function Digit(n: nat): char
    requires n < 10
  {
    (n + '0' as int) as char
  }

  /** printf("%d") of a non-negative number */
  function Decimal(n: nat): (s: string)
    ensures s != "" && AllDigits(s)
  {
    QuotRemIsDivMod(n, 10);
    if n < 10 then [Digit(n)] else Decimal(Quot(n, 10)) + [Digit(Rem(n, 10))]
  }

  /** printf("%d") */
  function Printed(n: int): string {
    if n < 0 then "-" + Decimal(-n) else Decimal(n)
  }

  lemma {:induction false} DecimalValue(n: nat)
    ensures Value(Decimal(n)) == n
  {
    QuotRemIsDivMod(n, 10);
    var s := Decimal(n);
    if n < 10 {
      assert s[..0] == "";
    } else {
      DecimalValue(Quot(n, 10));
      assert s[..|s| - 1] == Decimal(Quot(n, 10));
    }
  }

  // ---------------------------------------------------------------- instance strings

  /** FormInstanceString, when the buffer is large enough */
  function InstanceString(insts: seq<int>): string {
    if insts == [] then ""
    else if |insts| == 1 then Printed(insts[0])
    else Printed(insts[0]) + "." + InstanceString(insts[1..])
  }

  /** ParseInstanceInteger: the value of the digits so far, and the rest of the string, or None */
  function ParseInteger(p: string, value: nat): Option<(nat, string)> {
    if p == "" then Some((value, p))
    else if p[0] == '.' then Some((value, p[1..]))
    else if !IsDigit(p[0]) then None
    else ParseInteger(p[1..], value * 10 + (p[0] as int - '0' as int))
  }

  lemma {:induction false} ParseIntegerShorter(p: string, value: nat)
    requires p != "" && ParseInteger(p, value).Some?
    ensures |ParseInteger(p, value).value.1| < |p|
    decreases |p|
  {
    if p[0] != '.' && p[1..] != "" {
      ParseIntegerShorter(p[1..], value * 10 + (p[0] as int - '0' as int));
    }
  }

  /** DM_PRIV_ParseInstanceString */
  function ParseInstances(s: string): Option<seq<nat>>
    decreases |s|
  {
    if s == "" then Some([]) else
    var r := ParseInteger(s, 0);
    if r.None? then None else
    ParseIntegerShorter(s, 0);
    var rest := ParseInstances(r.value.1);
    if rest.None? then None else Some([r.value.0] + rest.value)
  }

  predicate DigitsAndDots(s: string) {
    forall i :: 0 <= i < |s| ==> s[i] == '.' || IsDigit(s[i])
  }

  lemma {:induction false} IntegerExactly(p: string, value: nat)
    ensures ParseInteger(p, value).Some? ==>
              var rest := ParseInteger(p, value).value.1;
              |rest| <= |p| && (DigitsAndDots(rest) <==> DigitsAndDots(p))
    ensures ParseInteger(p, value).None? ==> !DigitsAndDots(p)
    decreases |p|
  {
    if p == "" {
    } else if p[0] != '.' && IsDigit(p[0]) {
      IntegerExactly(p[1..], value * 10 + (p[0] as int - '0' as int));
      AllButFirst(p);
    } else {
      AllButFirst(p);
    }
  }

  lemma AllButFirst(p: string)
    requires p != ""
    ensures DigitsAndDots(p) <==> (p[0] == '.' || IsDigit(p[0])) && DigitsAndDots(p[1..])
  {
    assert forall i :: 0 < i < |p| ==> p[i] == p[1..][i - 1];
  }

  /** An instance string is understood if and only if it has nothing but digits and dots. */
  lemma {:induction false} ParsesExactly(s: string)
    ensures ParseInstances(s).Some? <==> DigitsAndDots(s)
    decreases |s|
  {
    hide ParseInteger;
    if s == "" {
    } else {
      IntegerExactly(s, 0);
      var r := ParseInteger(s, 0);
      if r.Some? {
        ParseIntegerShorter(s, 0);
        ParsesExactly(r.value.1);
      }
    }
  }

  /** v followed by the digits d */
  function Shifted(v: nat, d: string): nat
    requires AllDigits(d)
    decreases |d|
  {
    if d == "" then v else Shifted(v * 10 + (d[0] as int - '0' as int), d[1..])
  }

  lemma {:induction false} ShiftedSnoc(v: nat, d: string)
    requires AllDigits(d) && d != ""
    ensures Shifted(v, d) == 10 * Shifted(v, d[..|d| - 1]) + (d[|d| - 1] as int - '0' as int)
    decreases |d|
  {
    if |d| == 1 {
      assert d[..0] == "" && d[1..] == "";
    } else {
      var w := v * 10 + (d[0] as int - '0' as int);
      ShiftedSnoc(w, d[1..]);
      assert d[1..][..|d| - 2] == d[..|d| - 1][1..];
    }
  }

  lemma {:induction false} ShiftedIsValue(d: string)
    requires AllDigits(d)
    ensures Shifted(0, d) == Value(d)
    decreases |d|
  {
    if d == "" {
    } else {
      ShiftedSnoc(0, d);
      ShiftedIsValue(d[..|d| - 1]);
    }
  }

  lemma {:induction false} ParseDigits(d: string, p: string, v: nat)
    requires AllDigits(d) && AtBoundary(p)
    ensures ParseInteger(d + p, v) == Some((Shifted(v, d), if p == "" then p else p[1..]))
    decreases |d|
  {
    if d == "" {
      assert d + p == p;
    } else {
      assert (d + p)[1..] == d[1..] + p;
      ParseDigits(d[1..], p, v * 10 + (d[0] as int - '0' as int));
    }
  }

  lemma ParseNumber(n: nat, p: string)
    requires AtBoundary(p)
    ensures ParseInteger(Decimal(n) + p, 0) == Some((n, if p == "" then p else p[1..]))
  {
    hide Decimal, ParseInteger;
    DecimalValue(n);
    ShiftedIsValue(Decimal(n));
    ParseDigits(Decimal(n), p, 0);
  }

  lemma ParseFirst(s: string, n: nat, rest: string, insts: seq<nat>)
    requires s != "" && ParseInteger(s, 0) == Some((n, rest)) && ParseInstances(rest) == Some(insts)
    ensures ParseInstances(s) == Some([n] + insts)
  {
    hide ParseInteger;
  }

  /** An instance string parses back to the numbers it was formed from. */
  lemma {:induction false} InstancesRoundTrip(insts: seq<nat>)
    ensures ParseInstances(InstanceString(insts)) == Some(insts)
    decreases |insts|
  {
    hide Decimal, ParseInteger;
    if insts == [] {
    } else {
      hide ParseInstances;
      var d, tail := Decimal(insts[0]), insts[1..];
      var p := if tail == [] then "" else "." + InstanceString(tail);
      ParseNumber(insts[0], p);
      assert d + "" == d && insts == [insts[0]] + tail;
      InstancesRoundTrip(tail);
      if tail != [] {
        assert d + "." + InstanceString(tail) == d + p && p[1..] == InstanceString(tail);
      }
      ParseFirst(d + p, insts[0], InstanceString(tail), tail);
    }
  }

  lemma InstanceStringInjective(a: seq<nat>, b: seq<nat>)
    requires InstanceString(a) == InstanceString(b)
    ensures a == b
  {
    InstancesRoundTrip(a);
    InstancesRoundTrip(b);
  }

  // ---------------------------------------------------------------- instantiating a schema path

  /** DM_PRIV_FormInstantiatedPath, when the buffer is large enough: each {i} is replaced, or None. */
  function Instantiate(src: string, insts: seq<nat>): Option<string>
    decreases |src|
  {
    if src == "" then (if insts == [] then Some("") else None)
    else if |src| >= 3 && src[..3] == "{i}" then
      if insts == [] then None else
      var r := Instantiate(src[3..], insts[1..]);
      if r.None? then None else Some(Decimal(insts[0]) + r.value)
    else
      var r := Instantiate(src[1..], insts);
      if r.None? then None else Some([src[0]] + r.value)
  }

  /** A schema path: names and {i}, single dots. */
  predicate SchemaSteps(steps: seq<Step>) {
    forall i :: 0 <= i < |steps| ==>
      steps[i].extra == 0 && (steps[i].seg.Schema? || (steps[i].seg.Name? && ValidName(steps[i].seg.name)))
  }

  function Order(steps: seq<Step>): nat {
    if steps == [] then 0 else (if steps[0].seg.Schema? then 1 else 0) + Order(steps[1..])
  }

  /** The steps with each {i} replaced by the next number. */
  function Filled(steps: seq<Step>, insts: seq<nat>): seq<Step>
    requires |insts| == Order(steps)
  {
    if steps == [] then []
    else if steps[0].seg.Schema? then [Step(0, Number(Decimal(insts[0])))] + Filled(steps[1..], insts[1..])
    else [steps[0]] + Filled(steps[1..], insts)
  }

  lemma {:induction false} CopyName(s: string, p: string, insts: seq<nat>, r: string)
    requires forall i :: 0 <= i < |s| ==> s[i] != '{'
    requires Instantiate(p, insts) == Some(r)
    ensures Instantiate(s + p, insts) == Some(s + r)
    decreases |s|
  {
    hide Decimal, Instantiate, Room;
    if s == "" {
      assert s + p == p && s + r == r;
    } else {
      var src := s + p;
      assert src[1..] == s[1..] + p && src[0] == s[0];
      assert !AtNumber(src) by {
        assert |src| >= 3 ==> src[..3][0] == s[0];
      }
      CharStep(src, insts);
      CopyName(s[1..], p, insts, r);
      assert [s[0]] + (s[1..] + r) == s + r;
    }
  }

  /** One {i} of the schema path and the number that replaces it. */
  lemma InstantiateNumber(tail: string, n: nat, insts: seq<nat>, r: string)
    requires insts != [] && insts[0] == n && Instantiate(tail, insts[1..]) == Some(r)
    ensures Instantiate("." + "{i}" + tail, insts) == Some("." + Decimal(n) + r)
  {
    hide Decimal;
    var p := "{i}" + tail;
    assert p[..3] == "{i}" && p[3..] == tail;
    CopyName(".", p, insts, Decimal(n) + r);
    assert "." + "{i}" + tail == "." + p;
    assert "." + Decimal(n) + r == "." + (Decimal(n) + r);
  }

  lemma {:induction false} InstantiateRest(steps: seq<Step>, insts: seq<nat>)
    requires SchemaSteps(steps) && |insts| == Order(steps)
    ensures Instantiate(NormalRest(steps), insts) == Some(Rest(Filled(steps, insts), 0))
    decreases |steps|
  {
    hide Decimal;
    if steps == [] {
    } else {
      hide Instantiate;
      var g, tail, f := steps[0].seg, NormalRest(steps[1..]), Filled(steps, insts);
      OneDot();
      if g.Schema? {
        InstantiateRest(steps[1..], insts[1..]);
        assert f[1..] == Filled(steps[1..], insts[1..]);
        InstantiateNumber(tail, insts[0], insts, Rest(f[1..], 0));
      } else {
        InstantiateRest(steps[1..], insts);
        assert f[1..] == Filled(steps[1..], insts);
        CopyName("." + g.name, tail, insts, Rest(f[1..], 0));
      }
    }
  }

  lemma {:induction false} CopyNothing(s: string, p: string, insts: seq<nat>)
    requires forall i :: 0 <= i < |s| ==> s[i] != '{'
    requires Instantiate(p, insts) == None
    ensures Instantiate(s + p, insts) == None
    decreases |s|
  {
    hide Decimal, Instantiate, Room;
    if s == "" {
      assert s + p == p;
    } else {
      var src := s + p;
      assert src[1..] == s[1..] + p && src[0] == s[0];
      assert !AtNumber(src) by {
        assert |src| >= 3 ==> src[..3][0] == s[0];
      }
      CharStep(src, insts);
      CopyNothing(s[1..], p, insts);
    }
  }

  /** A schema path takes exactly as many instance numbers as it has {i}. */
  lemma {:induction false} InstantiateCounts(steps: seq<Step>, insts: seq<nat>)
    requires SchemaSteps(steps)
    ensures Instantiate(NormalRest(steps), insts).Some? <==> |insts| == Order(steps)
    decreases |steps|
  {
    hide Decimal;
    if |insts| == Order(steps) {
      InstantiateRest(steps, insts);
    } else if steps == [] {
    } else {
      hide Instantiate;
      var g, tail := steps[0].seg, NormalRest(steps[1..]);
      if g.Schema? {
        assert "." + "{i}" + tail == "." + ("{i}" + tail);
        var p := "{i}" + tail;
        assert AtNumber(p) && p[3..] == tail;
        NumberStep(p, insts);
        if insts != [] {
          InstantiateCounts(steps[1..], insts[1..]);
        }
        CopyNothing(".", p, insts);
      } else {
        InstantiateCounts(steps[1..], insts);
        CopyNothing("." + g.name, tail, insts);
      }
    }
  }

  lemma OneDot()
    ensures Dots(1) == "."
  {
    assert Dots(0) == "";
    assert "." + "" == ".";
  }

  lemma {:induction false} FilledIsNormal(steps: seq<Step>, insts: seq<nat>, search: bool)
    requires SchemaSteps(steps) && |insts| == Order(steps)
    ensures var f := Filled(steps, insts);
      AllValid(f, search) && NormalRest(f) == NormalRest(steps) && Instances(f, search) == insts
    decreases |steps|
  {
    hide Decimal, ValidName, ValidSegment, AllValid, AllDigits;
    if steps == [] {
      NothingFilled(search);
    } else {
      var f := Filled(steps, insts);
      var more := if steps[0].seg.Schema? then insts[1..] else insts;
      FilledIsNormal(steps[1..], more, search);
      assert f == [f[0]] + Filled(steps[1..], more) && f[1..] == Filled(steps[1..], more);
      FilledStep(steps[0], insts, search);
      ValidInFront(f[0], f[1..], search);
      if steps[0].seg.Schema? {
        assert [insts[0]] + insts[1..] == insts;
      } else {
        assert [] + insts == insts;
      }
    }
  }

  lemma NothingFilled(search: bool)
    ensures AllValid([], search)
  {
  }

  lemma ValidInFront(s: Step, rest: seq<Step>, search: bool)
    requires ValidSegment(s.seg, search) && AllValid(rest, search)
    ensures AllValid([s] + rest, search)
  {
    hide ValidSegment;
  }

  /** One step filled in: a valid segment of the same normal form, with the number, if any, as its instance */
  lemma FilledStep(s: Step, insts: seq<nat>, search: bool)
    requires s.seg.Schema? || (s.seg.Name? && ValidName(s.seg.name))
    requires s.seg.Schema? ==> insts != []
    ensures var g := if s.seg.Schema? then Number(Decimal(insts[0])) else s.seg;
      && ValidSegment(g, search) && Normal(g) == Normal(s.seg)
      && Instance(g) == if s.seg.Schema? then [insts[0]] else []
  {
    hide Decimal;
    if s.seg.Schema? {
      DecimalValue(insts[0]);
    }
  }

  // ---------------------------------------------------------------- keys

  /** A registered parameter: the schema path it was registered with, by segments, and its kind. */
  datatype Node = Node(first: string, steps: seq<Step>, isDbParam: bool)

  function SchemaPath(n: Node): string {
    n.first + NormalRest(n.steps)
  }

  /** The schema: nodes by the hash of their path, as FindNodeFromHash finds them. */
  datatype Schema = Schema(step: HashStep, basis: int, nodes: map<int, Node>)

  function HashOf(m: Schema, n: Node): int {
    HashFrom(m.step, m.basis, SchemaPath(n))
  }

  predicate Registered(m: Schema, n: Node) {
    && ValidName(n.first) && SchemaSteps(n.steps) && Order(n.steps) <= MAX_DM_INSTANCE_ORDER
    && HashOf(m, n) in m.nodes && m.nodes[HashOf(m, n)] == n
  }

  datatype Key = Key(hash: int, instances: string)

  /** DM_PRIV_FormDB_FromPath for a parameter that has not been migrated */
  function KeyOfPath(m: Schema, path: string): Option<Key> {
    var r := CalcHash(m.step, m.basis, false, path);
    if r.Failed? then None else
    var qualified := HashFrom(m.step, r.hash, ".{i}");
    var h := if r.hash in m.nodes then r.hash else qualified;
    if h !in m.nodes || !m.nodes[h].isDbParam then None
    else Some(Key(h, InstanceString(r.inst)))
  }

  /** DM_PRIV_FormPath_FromDB */
  function PathOfKey(m: Schema, key: Key): Option<string> {
    if key.hash !in m.nodes then None else
    var insts := ParseInstances(key.instances);
    if insts.None? || |insts.value| != Order(m.nodes[key.hash].steps) then None
    else Instantiate(SchemaPath(m.nodes[key.hash]), insts.value)
  }

  /** The path of a parameter for given instance numbers. */
  function PathOf(n: Node, insts: seq<nat>): string
    requires |insts| == Order(n.steps)
  {
    n.first + Rest(Filled(n.steps, insts), 0)
  }

  lemma InstantiateNode(n: Node, insts: seq<nat>)
    requires ValidName(n.first) && SchemaSteps(n.steps) && |insts| == Order(n.steps)
    ensures Instantiate(SchemaPath(n), insts) == Some(PathOf(n, insts))
  {
    hide Instantiate, NormalRest, Rest, Filled;
    InstantiateRest(n.steps, insts);
    CopyName(n.first, NormalRest(n.steps), insts, Rest(Filled(n.steps, insts), 0));
  }

  /**
   For every registered database parameter and every vector of instance numbers, the path maps to the key of that
   parameter and those numbers, and the key maps back to the same path.
   */
  lemma KeyRoundTrip(m: Schema, n: Node, insts: seq<nat>)
    requires Registered(m, n) && n.isDbParam && |insts| == Order(n.steps)
    ensures KeyOfPath(m, PathOf(n, insts)) == Some(Key(HashOf(m, n), InstanceString(insts)))
    ensures PathOfKey(m, Key(HashOf(m, n), InstanceString(insts))) == Some(PathOf(n, insts))
  {
    hide CalcHash, Instantiate, InstanceString, ParseInstances, HashFrom, NormalRest, Rest, Filled;
    FilledIsNormal(n.steps, insts, false);
    HashIsHashOfNormalForm(m.step, m.basis, false, n.first, Filled(n.steps, insts), 0);
    InstancesRoundTrip(insts);
    InstantiateNode(n, insts);
  }

  /** Only database parameters have keys; and a key with another number of instances has no path. */
  lemma OnlyDbParameters(m: Schema, n: Node, insts: seq<nat>, others: seq<nat>)
    requires Registered(m, n) && |insts| == Order(n.steps) && |others| != Order(n.steps)
    ensures KeyOfPath(m, PathOf(n, insts)).Some? <==> n.isDbParam
    ensures PathOfKey(m, Key(HashOf(m, n), InstanceString(others))) == None
  {
    hide CalcHash, Instantiate, InstanceString, ParseInstances, HashFrom, NormalRest, Rest, Filled;
    FilledIsNormal(n.steps, insts, false);
    HashIsHashOfNormalForm(m.step, m.basis, false, n.first, Filled(n.steps, insts), 0);
    InstancesRoundTrip(others);
  }

  /** Different parameters or different instance numbers never share a key. */
  lemma KeysDiffer(m: Schema, n: Node, a: seq<nat>, k: Node, b: seq<nat>)
    requires Registered(m, n) && Registered(m, k) && |a| == Order(n.steps) && |b| == Order(k.steps)
    requires n != k || a != b
    ensures Key(HashOf(m, n), InstanceString(a)) != Key(HashOf(m, k), InstanceString(b))
  {
    hide HashFrom, InstanceString;
    if InstanceString(a) == InstanceString(b) {
      InstanceStringInjective(a, b);
    }
  }

  // ---------------------------------------------------------------- the loops as they run

  method FormInstanceString(insts: seq<int>) returns (buf: string)
    ensures buf == InstanceString(insts)
  {
    buf := "";
    var i := 0;
    while i < |insts|
      invariant 0 <= i <= |insts| && buf == InstanceString(insts[..i])
    {
      InstanceStringSnoc(insts[..i], insts[i]);
      assert insts[..i + 1] == insts[..i] + [insts[i]];
      if i == 0 {
        buf := Printed(insts[i]);
      } else {
        buf := buf + ("." + Printed(insts[i]));
      }
      i := i + 1;
    }
    assert insts[..i] == insts;
  }

  lemma {:induction false} InstanceStringSnoc(insts: seq<int>, n: int)
    ensures InstanceString(insts + [n]) ==
            if insts == [] then Printed(n) else InstanceString(insts) + ("." + Printed(n))
    decreases |insts|
  {
    if insts == [] {
      assert insts + [n] == [n];
    } else {
      assert (insts + [n])[1..] == insts[1..] + [n];
      InstanceStringSnoc(insts[1..], n);
      if |insts| == 1 {
        assert Printed(insts[0]) + "." + Printed(n) == Printed(insts[0]) + ("." + Printed(n));
      } else {
        var a, b, c := Printed(insts[0]) + ".", InstanceString(insts[1..]), "." + Printed(n);
        assert a + b + c == a + (b + c);
      }
    }
  }

  /** The characters that instantiating writes */
  function Room(src: string, insts: seq<nat>): nat
    decreases |src|
  {
    if src == "" then 0
    else if |src| >= 3 && src[..3] == "{i}" then
      if insts == [] then 0 else |Decimal(insts[0])| + Room(src[3..], insts[1..])
    else 1 + Room(src[1..], insts)
  }

  predicate AtNumber(src: string) {
    |src| >= 3 && src[..3] == "{i}"
  }

  lemma NumberStep(src: string, insts: seq<nat>)
    requires AtNumber(src)
    ensures insts == [] ==> Instantiate(src, insts) == None
    ensures insts != [] ==>
              && Instantiate(src, insts) == Prefix(Decimal(insts[0]), Instantiate(src[3..], insts[1..]))
              && Room(src, insts) == |Decimal(insts[0])| + Room(src[3..], insts[1..])
  {
  }

  lemma CharStep(src: string, insts: seq<nat>)
    requires src != "" && !AtNumber(src)
    ensures Instantiate(src, insts) == Prefix([src[0]], Instantiate(src[1..], insts))
    ensures Room(src, insts) == 1 + Room(src[1..], insts)
  {
  }

  lemma AtEnd(insts: seq<nat>)
    ensures Instantiate("", insts) == if insts == [] then Some("") else None
  {
  }

  /** With room for the result and its terminator the copy loop ends; with less, len stops at 1 and it would not. */
  method FormInstantiatedPath(schema: string, insts: seq<nat>, size: nat) returns (r: Option<string>)
    requires size > Room(schema, insts)
    ensures r == Instantiate(schema, insts)
  {
    hide Decimal, Instantiate, Room;
    var src, dest, i, len := schema, "", 0, size;
    assert insts[0..] == insts;
    PrefixTwice("", "", Instantiate(src, insts));
    while src != ""
      invariant i <= |insts| && len > Room(src, insts[i..])
      invariant Instantiate(schema, insts) == Prefix(dest, Instantiate(src, insts[i..]))
      decreases |src|
    {
      ghost var rest := insts[i..];
      if AtNumber(src) {
        NumberStep(src, rest);
        if i == |insts| {
          return None;
        }
        var printed := Decimal(insts[i]);
        assert rest[1..] == insts[i + 1..] && rest[0] == insts[i];
        PrefixTwice(dest, printed, Instantiate(src[3..], insts[i + 1..]));
        dest, len := dest + printed, len - |printed|;
        src := src[3..];
        i := i + 1;
      } else {
        CharStep(src, rest);
        if len > 1 {
          PrefixTwice(dest, [src[0]], Instantiate(src[1..], rest));
          dest, src, len := dest + [src[0]], src[1..], len - 1;
        }
      }
    }
    AtEnd(insts[i..]);
    if i != |insts| {
      return None;
    }
    PrefixTwice(dest, "", None);
    r := Some(dest);
  }

  function Prefix(d: string, r: Option<string>): Option<string> {
    if r.None? then None else Some(d + r.value)
  }

  lemma PrefixTwice(a: string, b: string, r: Option<string>)
    ensures Prefix(a, Prefix(b, r)) == Prefix(a + b, r) && Prefix("", r) == r && Prefix(a, Some("")) == Some(a)
  {
    assert r.Some? ==> a + (b + r.value) == (a + b) + r.value && "" + r.value == r.value;
    assert a + "" == a;
  }

  method ParseInstanceString(s: string) returns (r: Option<seq<nat>>)
    ensures r == ParseInstances(s)
  {
    var p, inst: seq<nat> := s, [];
    assert ParseInstances(p).Some? ==> [] + ParseInstances(p).value == ParseInstances(p).value;
    while p != ""
      invariant ParseInstances(s) == if ParseInstances(p).None? then None else Some(inst + ParseInstances(p).value)
      decreases |p|
    {
      var value: nat := 0;
      ghost var start := p;
      while p != "" && p[0] != '.'
        invariant ParseInteger(start, 0) == ParseInteger(p, value) && |p| <= |start|
        decreases |p|
      {
        if !IsDigit(p[0]) {
          return None;
        }
        value := value * 10 + (p[0] as int - '0' as int);
        p := p[1..];
      }
      if p != "" {
        p := p[1..];
      }
      ParseIntegerShorter(start, 0);
      ghost var rest := ParseInstances(p);
      if rest.Some? {
        assert inst + ([value] + rest.value) == inst + [value] + rest.value;
      }
      inst := inst + [value];
    }
    assert inst + [] == inst;
    r := Some(inst);
  }
}
