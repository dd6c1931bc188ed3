/**
 Hashing of data model paths (DM_PRIV_CalcHashFromPath): every spelling of a schema path has one hash.
 */
module PathHash {
  import opened CommonDefs

  const MAX_DM_INSTANCE_ORDER := 6
  const WILDCARD := -1      // WILDCARD_INSTANCE
  const NUL := '\0'

  /** One ADD_TO_HASH. The theorems hold for any such function. */
  type HashStep = (int, char) -> int

  /** TEXT_UTILS_CalcHash continued from h */
  function HashFrom(step: HashStep, h: int, s: string): int
    decreases |s|
  {
    if s == "" then h else HashFrom(step, step(h, s[0]), s[1..])
  }

  predicate IsDigit(c: char) {
    '0' <= c <= '9'
  }

  predicate AllDigits(s: string) {
    forall i :: 0 <= i < |s| ==> IsDigit(s[i])
  }

  function SkipDots(p: string): (r: string)
    ensures |r| <= |p| && (r == "" || r[0] != '.')
  {
    if p == "" || p[0] != '.' then p else SkipDots(p[1..])
  }

  function LeadingDigits(p: string): (n: nat)
    ensures n <= |p| && AllDigits(p[..n]) && (n == |p| || !IsDigit(p[n]))
  {
    if p == "" || !IsDigit(p[0]) then 0 else
    var n := 1 + LeadingDigits(p[1..]);
    assert p[..n] == [p[0]] + p[1..][..n - 1];
    n
  }

  /** The value of a run of digits, which the source keeps in 32 bits */
  function Value(d: string): nat
    requires AllDigits(d)
  {
    if d == "" then 0 else 10 * Value(d[..|d| - 1]) + (d[|d| - 1] as int - '0' as int)
  }

  /** TEXT_UTILS_StrStr(p, "]"): the position of the first ']' outside quotes. */
  function FindClose(p: string): (r: Option<nat>)
    ensures r.Some? ==> r.value < |p|
    decreases |p|
  {
    if p == "" then None
    else if p[0] == '"' || p[0] == '\'' then
      var q := FindChar(p[1..], p[0]);
      if q.None? then None else
      var r := FindClose(p[q.value + 2..]);
      if r.None? then None else Some(r.value + q.value + 2)
    else if p[0] == ']' then Some(0)
    else
      var r := FindClose(p[1..]);
      if r.None? then None else Some(r.value + 1)
  }

  function FindChar(p: string, c: char): (r: Option<nat>)
    ensures r.Some? ==> r.value < |p|
  {
    if p == "" then None
    else if p[0] == c then Some(0)
    else
      var r := FindChar(p[1..], c);
      if r.None? then None else Some(r.value + 1)
  }

  // ---------------------------------------------------------------- where a search expression ends

  predicate IsQuote(c: char) {
    c == '"' || c == '\''
  }

  /** The quote that is open after the first i characters, if quote is open before them */
  function QuoteAfter(quote: Option<char>, p: string, i: nat): Option<char>
    requires i <= |p|
    decreases i
  {
    if i == 0 then quote
    else
      var next :=
        if quote == Some(p[0]) then None else if quote.None? && IsQuote(p[0]) then Some(p[0]) else quote;
      QuoteAfter(next, p[1..], i - 1)
  }

  /** A ']' at n outside quotes */
  predicate ClosesAt(p: string, n: nat) {
    n < |p| && p[n] == ']' && QuoteAfter(None, p, n).None?
  }

  predicate FirstClose(p: string, n: nat) {
    ClosesAt(p, n) && forall i: nat :: i < n ==> !ClosesAt(p, i)
  }

  lemma {:induction false} QuoteSplit(quote: Option<char>, p: string, i: nat, j: nat)
    requires i + j <= |p|
    ensures QuoteAfter(quote, p, i + j) == QuoteAfter(QuoteAfter(quote, p, i), p[i..], j)
    decreases i
  {
    if i == 0 {
      assert p[0..] == p;
    } else {
      var next :=
        if quote == Some(p[0]) then None else if quote.None? && IsQuote(p[0]) then Some(p[0]) else quote;
      QuoteSplit(next, p[1..], i - 1, j);
      assert p[1..][i - 1..] == p[i..];
    }
  }

  /** A quote stays open up to the next one of its kind. */
  lemma {:induction false} QuoteStays(p: string, c: char, i: nat)
    requires i <= |p| && (FindChar(p, c).Some? ==> i <= FindChar(p, c).value)
    ensures QuoteAfter(Some(c), p, i) == Some(c)
    decreases i
  {
    if i == 0 {
    } else {
      QuoteStays(p[1..], c, i - 1);
    }
  }

  lemma {:induction false} FoundChar(p: string, c: char)
    requires FindChar(p, c).Some?
    ensures p[FindChar(p, c).value] == c
  {
    if p[0] != c {
      FoundChar(p[1..], c);
    }
  }

  /** The end that is found is exactly the first ']' outside quotes. */
  lemma {:induction false} FindCloseExactly(p: string, n: nat)
    ensures FindClose(p) == Some(n) <==> FirstClose(p, n)
    decreases |p|
  {
    hide QuoteAfter, FindChar;
    if p == "" {
    } else if IsQuote(p[0]) {
      var q := FindChar(p[1..], p[0]);
      Quoted(p);
      if q.Some? {
        var k := q.value + 2;
        forall i: nat ensures ClosesAt(p, i) <==> i >= k && ClosesAt(p[k..], i - k) {}
        if n >= k {
          FindCloseExactly(p[k..], n - k);
          ShiftedClose(p, k, n);
        }
      }
    } else {
      FirstChar(p);
      if p[0] != ']' {
        forall i: nat ensures ClosesAt(p, i) <==> i >= 1 && ClosesAt(p[1..], i - 1) {}
        if n >= 1 {
          FindCloseExactly(p[1..], n - 1);
          ShiftedClose(p, 1, n);
        }
      }
    }
  }

  lemma ShiftedClose(p: string, k: nat, n: nat)
    requires k <= n && k <= |p|
    requires forall i: nat :: ClosesAt(p, i) <==> i >= k && ClosesAt(p[k..], i - k)
    ensures FirstClose(p, n) <==> FirstClose(p[k..], n - k)
  {
    if FirstClose(p, n) {
      forall i: nat | i < n - k ensures !ClosesAt(p[k..], i) {
        assert !ClosesAt(p, i + k);
      }
    }
  }

  lemma FirstChar(p: string)
    requires p != "" && !IsQuote(p[0])
    ensures ClosesAt(p, 0) <==> p[0] == ']'
    ensures forall i: nat :: 1 <= i < |p| ==> QuoteAfter(None, p, i) == QuoteAfter(None, p[1..], i - 1)
  {
  }

  /** Nothing closes inside quotes; behind them the search goes on with none open. */
  lemma Quoted(p: string)
    requires p != "" && IsQuote(p[0])
    ensures var q := FindChar(p[1..], p[0]);
      if q.None? then forall i: nat :: !ClosesAt(p, i)
      else
        forall i: nat :: i < |p| ==>
          if i < q.value + 2 then !ClosesAt(p, i)
          else QuoteAfter(None, p, i) == QuoteAfter(None, p[q.value + 2..], i - (q.value + 2))
  {
    hide QuoteAfter, FindChar;
    var q := FindChar(p[1..], p[0]);
    NothingOpen(p);
    if q.None? {
      forall i: nat | 1 <= i < |p| ensures QuoteAfter(None, p, i).Some? {
        InQuote(p, i);
      }
    } else {
      forall i: nat | i < |p|
        ensures if i < q.value + 2 then !ClosesAt(p, i)
                else QuoteAfter(None, p, i) == QuoteAfter(None, p[q.value + 2..], i - (q.value + 2))
      {
        if 1 <= i < q.value + 2 {
          InQuote(p, i);
        } else if i > 0 {
          BehindQuote(p, i);
        }
      }
    }
  }

  lemma NothingOpen(p: string)
    requires p != "" && IsQuote(p[0])
    ensures !ClosesAt(p, 0)
  {
  }

  lemma OpensQuote(p: string, i: nat)
    requires p != "" && IsQuote(p[0]) && 1 <= i <= |p|
    ensures QuoteAfter(None, p, i) == QuoteAfter(Some(p[0]), p[1..], i - 1)
  {
  }

  lemma InQuote(p: string, i: nat)
    requires p != "" && IsQuote(p[0]) && 1 <= i <= |p|
    requires var q := FindChar(p[1..], p[0]); q.Some? ==> i < q.value + 2
    ensures QuoteAfter(None, p, i) == Some(p[0])
  {
    hide QuoteAfter, FindChar;
    OpensQuote(p, i);
    QuoteStays(p[1..], p[0], i - 1);
  }

  lemma BehindQuote(p: string, i: nat)
    requires p != "" && IsQuote(p[0]) && FindChar(p[1..], p[0]).Some?
    requires FindChar(p[1..], p[0]).value + 2 <= i <= |p|
    ensures var k := FindChar(p[1..], p[0]).value + 2;
      QuoteAfter(None, p, i) == QuoteAfter(None, p[k..], i - k)
  {
    hide QuoteAfter, FindChar;
    var k := FindChar(p[1..], p[0]).value + 2;
    FoundChar(p[1..], p[0]);
    InQuote(p, k - 1);
    assert p[k - 1..][0] == p[1..][k - 2] == p[0];
    QuoteSplit(None, p, k - 1, 1);
    QuoteSplit(None, p, k, i - k);
    ClosesQuote(p[k - 1..]);
  }

  lemma ClosesQuote(p: string)
    requires p != ""
    ensures QuoteAfter(Some(p[0]), p, 1) == None
  {
  }

  /** c = *p++ */
  function Head(p: string): char {
    if p == "" then NUL else p[0]
  }

  function Tail(p: string): string {
    if p == "" then "" else p[1..]
  }

  datatype Calc = Failed | Hashed(hash: int, inst: seq<int>)

  /** STORE_INSTANCE_NUMBER, then the rest of the loop */
  function Stored(inst: seq<int>, number: int): Option<seq<int>> {
    if |inst| == MAX_DM_INSTANCE_ORDER then None else Some(inst + [number])
  }

  /**
   The loop of DM_PRIV_CalcHashFromPath: c is the current character and p what its pointer addresses, normally
   the character after c but c itself right after a search expression. search is SUBSTITUTE_SEARCH_EXPRS.
   */
  function Scan(step: HashStep, search: bool, c: char, p: string, h: int, inst: seq<int>): Calc
    decreases |p|, if c == NUL then 0 else 1
  {
    if c == NUL then Hashed(h, inst)
    else if c == '.' then
      var q := SkipDots(p);
      if q == "" then Hashed(h, inst) else
      var n := LeadingDigits(q);
      var r := q[n..];
      if n > 0 && (r == "" || r[0] == '.') then
        var i := Stored(inst, Value(q[..n]));
        if i.None? then Failed
        else Scan(step, search, Head(r), Tail(r), HashFrom(step, h, ".{i}"), i.value)
      else Scan(step, search, Head(q), Tail(q), step(h, '.'), inst)
    else if c == '{' && |p| >= 2 && p[0] == 'i' && p[1] == '}' then
      var i := Stored(inst, WILDCARD);
      if i.None? then Failed
      else Scan(step, search, Head(p[2..]), Tail(p[2..]), HashFrom(step, h, "{i}"), i.value)
    else if c == '*' then
      var i := Stored(inst, WILDCARD);
      if i.None? then Failed else Scan(step, search, Head(p), Tail(p), HashFrom(step, h, "{i}"), i.value)
    else if c == '[' && search then
      var i := Stored(inst, WILDCARD);
      var end := FindClose(p);
      if i.None? || end.None? then Failed
      else Scan(step, search, Head(p[end.value + 1..]), p[end.value + 1..], HashFrom(step, h, "{i}"), i.value)
    else Scan(step, search, Head(p), Tail(p), step(h, c), inst)
  }

  /** DM_PRIV_CalcHashFromPath */
  function CalcHash(step: HashStep, basis: int, search: bool, path: string): Calc {
    Scan(step, search, Head(path), Tail(path), basis, [])
  }

  // ---------------------------------------------------------------- paths by segments

  /** A path segment: a name, or one of the ways to write an instance. */
  datatype Segment = Name(name: string) | Number(digits: string) | Star | Schema | Search(expr: string)

  /** A name is text that the loop hashes as it is: no dot, no '*', no {i}, no '[' where that starts a search. */
  predicate IsName(s: string, search: bool) {
    && s != "" && Literal(s, search) && !AllDigits(s)
  }

  predicate Literal(s: string, search: bool) {
    && (forall i :: 0 <= i < |s| ==> s[i] != '.' && s[i] != '*' && s[i] != NUL && (search ==> s[i] != '['))
    && forall i :: 0 <= i < |s| - 2 ==> !(s[i] == '{' && s[i + 1] == 'i' && s[i + 2] == '}')
  }

  /** A name with none of the special characters, wherever they stand */
  predicate ValidName(s: string) {
    && s != "" && (forall i :: 0 <= i < |s| ==> s[i] != '.' && s[i] != '{' && s[i] != '*' && s[i] != '[' && s[i] != NUL)
    && !AllDigits(s)
  }

  /** The inside of a search expression: the first ']' outside quotes is the one that ends it. */
  predicate IsSearchExpr(e: string) {
    FindClose(e + "]") == Some(|e|)
  }

  predicate ValidSegment(g: Segment, search: bool) {
    match g
    case Name(s) => IsName(s, search)
    case Number(d) => d != "" && AllDigits(d)
    case Search(e) => search && IsSearchExpr(e)
    case _ => true
  }

  function Text(g: Segment): string {
    match g
    case Name(s) => s
    case Number(d) => d
    case Star => "*"
    case Schema => "{i}"
    case Search(e) => "[" + e + "]"
  }

  /** The schema form of a segment. */
  function Normal(g: Segment): string {
    if g.Name? then g.name else "{i}"
  }

  function Instance(g: Segment): seq<int>
    requires g.Number? ==> AllDigits(g.digits)
  {
    match g
    case Name(_) => []
    case Number(d) => [Value(d)]
    case _ => [WILDCARD]
  }

  /** A segment after the first, and the number of dots in front of it beyond the one needed. */
  datatype Step = Step(extra: nat, seg: Segment)

  function Dots(n: nat): string {
    if n == 0 then "" else "." + Dots(n - 1)
  }

  predicate AllValid(steps: seq<Step>, search: bool) {
    forall i :: 0 <= i < |steps| ==> ValidSegment(steps[i].seg, search)
  }

  /** The rest of a path: each segment behind its dots, then trailing dots. */
  function Rest(steps: seq<Step>, trailing: nat): string {
    if steps == [] then Dots(trailing)
    else Dots(steps[0].extra + 1) + Text(steps[0].seg) + Rest(steps[1..], trailing)
  }

  /** The plain normal form: single dots, no trailing dot, every instance written {i}. */
  function NormalRest(steps: seq<Step>): string {
    if steps == [] then "" else "." + Normal(steps[0].seg) + NormalRest(steps[1..])
  }

  function Instances(steps: seq<Step>, search: bool): seq<int>
    requires AllValid(steps, search)
  {
    if steps == [] then [] else Instance(steps[0].seg) + Instances(steps[1..], search)
  }

  // ---------------------------------------------------------------- the loop, one segment at a time

  lemma {:induction false} HashAppend(step: HashStep, h: int, a: string, b: string)
    ensures HashFrom(step, h, a + b) == HashFrom(step, HashFrom(step, h, a), b)
    decreases |a|
  {
    if a == "" {
      assert a + b == b;
    } else {
      assert (a + b)[1..] == a[1..] + b;
      HashAppend(step, step(h, a[0]), a[1..], b);
    }
  }

  /** After a segment comes the end of the path or a dot. */
  predicate AtBoundary(p: string) {
    p == "" || p[0] == '.'
  }

  lemma {:induction false} SkipAllDots(n: nat, p: string)
    requires p == "" || p[0] != '.'
    ensures SkipDots(Dots(n) + p) == p
  {
    if n == 0 {
      assert Dots(n) + p == p;
    } else {
      assert (Dots(n) + p)[1..] == Dots(n - 1) + p;
      SkipAllDots(n - 1, p);
    }
  }

  lemma {:induction false} DigitsThenBoundary(d: string, p: string)
    requires AllDigits(d) && AtBoundary(p)
    ensures LeadingDigits(d + p) == |d|
  {
    if d == "" {
      assert d + p == p;
    } else {
      assert (d + p)[1..] == d[1..] + p;
      DigitsThenBoundary(d[1..], p);
    }
  }

  /** A name is never taken for a number. */
  lemma {:induction false} NameIsNotNumber(s: string, p: string)
    requires !AllDigits(s) && (forall i :: 0 <= i < |s| ==> s[i] != '.')
    ensures var n := LeadingDigits(s + p); n < |s| && (s + p)[n] != '.'
  {
    if IsDigit(s[0]) {
      assert (s + p)[1..] == s[1..] + p;
      NameIsNotNumber(s[1..], p);
    }
  }

  lemma NoTable(s: string, p: string)
    requires s != "" && Literal(s, false) && AtBoundary(p)
    ensures var t := s[1..] + p; s[0] == '{' && |t| >= 2 ==> !(t[0] == 'i' && t[1] == '}')
  {
    var t := s[1..] + p;
    assert |s| > 1 ==> t[0] == s[1];
    assert |s| > 2 ==> t[1] == s[2];
  }

  /** A name, character by character. */
  lemma {:induction false} ScanName(step: HashStep, search: bool, s: string, p: string, h: int, inst: seq<int>)
    requires Literal(s, search) && AtBoundary(p)
    ensures Scan(step, search, Head(s + p), Tail(s + p), h, inst) ==
            Scan(step, search, Head(p), Tail(p), HashFrom(step, h, s), inst)
    decreases |s|
  {
    if s == "" {
      assert s + p == p;
    } else {
      assert Tail(s + p) == s[1..] + p;
      NoTable(s, p);
      ScanName(step, search, s[1..], p, step(h, s[0]), inst);
    }
  }

  lemma {:induction false} FindInQuotes(p: string, c: char, t: string)
    requires FindChar(p, c).Some?
    ensures FindChar(p + t, c) == FindChar(p, c)
  {
    if p[0] != c {
      assert (p + t)[1..] == p[1..] + t;
      FindInQuotes(p[1..], c, t);
    }
  }

  lemma {:induction false} CloseFound(p: string, t: string)
    requires FindClose(p).Some?
    ensures FindClose(p + t) == FindClose(p)
    decreases |p|
  {
    hide FindChar;
    assert (p + t)[1..] == p[1..] + t;
    if p[0] == '"' || p[0] == '\'' {
      FindInQuotes(p[1..], p[0], t);
      var q := FindChar(p[1..], p[0]).value;
      assert (p + t)[q + 2..] == p[q + 2..] + t;
      CloseFound(p[q + 2..], t);
    } else if p[0] != ']' {
      CloseFound(p[1..], t);
    }
  }

  /** The dots in front of a segment are one dot. */
  lemma DotsThen(step: HashStep, search: bool, k: nat, q: string, h: int, inst: seq<int>)
    requires q != "" && q[0] != '.'
    ensures Scan(step, search, '.', Dots(k) + q, h, inst) == Scan(step, search, '.', q, h, inst)
  {
    SkipAllDots(k, q);
    assert SkipDots(q) == q;
  }

  lemma HashDot(step: HashStep, h: int, s: string)
    ensures HashFrom(step, h, "." + s) == HashFrom(step, step(h, '.'), s)
  {
    assert ("." + s)[1..] == s;
  }

  /** The outcome of one segment: its schema form is hashed and its instance, if any, stored. */
  function AfterSegment(step: HashStep, search: bool, g: Segment, p: string, h: int, inst: seq<int>): Calc
    requires ValidSegment(g, search)
  {
    if |inst| + |Instance(g)| > MAX_DM_INSTANCE_ORDER then Failed
    else Scan(step, search, Head(p), if g.Search? then p else Tail(p), HashFrom(step, h, "." + Normal(g)),
      inst + Instance(g))
  }

  lemma ScanNameSegment(step: HashStep, search: bool, g: Segment, p: string, h: int, inst: seq<int>)
    requires ValidSegment(g, search) && g.Name? && AtBoundary(p) && |inst| <= MAX_DM_INSTANCE_ORDER
    ensures Scan(step, search, '.', Text(g) + p, h, inst) == AfterSegment(step, search, g, p, h, inst)
  {
    var q := g.name + p;
    assert q[0] == g.name[0];
    NameIsNotNumber(g.name, p);
    assert SkipDots(q) == q;
    ScanName(step, search, g.name, p, step(h, '.'), inst);
    HashDot(step, h, g.name);
    assert inst + [] == inst;
  }

  lemma ScanNumberSegment(step: HashStep, search: bool, g: Segment, p: string, h: int, inst: seq<int>)
    requires ValidSegment(g, search) && g.Number? && AtBoundary(p) && |inst| <= MAX_DM_INSTANCE_ORDER
    ensures Scan(step, search, '.', Text(g) + p, h, inst) == AfterSegment(step, search, g, p, h, inst)
  {
    var q := g.digits + p;
    assert q[0] == g.digits[0];
    DigitsThenBoundary(g.digits, p);
    assert SkipDots(q) == q && q[..|g.digits|] == g.digits && q[|g.digits|..] == p;
    assert "." + "{i}" == ".{i}";
  }

  lemma ScanWildSegment(step: HashStep, search: bool, g: Segment, p: string, h: int, inst: seq<int>)
    requires ValidSegment(g, search) && (g.Star? || g.Schema? || g.Search?) && AtBoundary(p)
        && |inst| <= MAX_DM_INSTANCE_ORDER
    ensures Scan(step, search, '.', Text(g) + p, h, inst) == AfterSegment(step, search, g, p, h, inst)
  {
    hide HashFrom, FindClose;
    var q := Text(g) + p;
    assert SkipDots(q) == q && LeadingDigits(q) == 0;
    HashDot(step, h, "{i}");
    hide SkipDots, LeadingDigits;
    if g.Star? {
      assert Tail(q) == p;
    } else if g.Schema? {
      assert Tail(q)[2..] == p;
    } else {
      assert Tail(q) == g.expr + "]" + p;
      CloseFound(g.expr + "]", p);
      assert Tail(q)[|g.expr| + 1..] == p;
    }
  }

  lemma ScanSegment(step: HashStep, search: bool, k: nat, g: Segment, p: string, h: int, inst: seq<int>)
    requires ValidSegment(g, search) && AtBoundary(p) && |inst| <= MAX_DM_INSTANCE_ORDER
    ensures Scan(step, search, '.', Dots(k) + (Text(g) + p), h, inst) == AfterSegment(step, search, g, p, h, inst)
  {
    hide Scan;
    DotsThen(step, search, k, Text(g) + p, h, inst);
    match g
    case Name(_) => ScanNameSegment(step, search, g, p, h, inst);
    case Number(_) => ScanNumberSegment(step, search, g, p, h, inst);
    case _ => ScanWildSegment(step, search, g, p, h, inst);
  }

  lemma RestParts(steps: seq<Step>, trailing: nat)
    requires steps != []
    ensures var s, r := steps[0], Rest(steps, trailing);
      && r == Dots(s.extra + 1) + (Text(s.seg) + Rest(steps[1..], trailing))
      && Tail(r) == Dots(s.extra) + (Text(s.seg) + Rest(steps[1..], trailing))
      && Head(r) == '.'
  {
    hide Text;
    var t, r, d := Text(steps[0].seg), Rest(steps[1..], trailing), Dots(steps[0].extra);
    assert Dots(steps[0].extra + 1) == "." + d;
    assert "." + d + t + r == "." + d + (t + r);
    assert ("." + d + (t + r))[1..] == d + (t + r);
  }

  lemma RestAtBoundary(steps: seq<Step>, trailing: nat)
    ensures AtBoundary(Rest(steps, trailing))
  {
    hide Text;
    if steps != [] {
      RestParts(steps, trailing);
    }
  }

  lemma OnlyDots(step: HashStep, search: bool, n: nat, stuck: bool, h: int, inst: seq<int>)
    ensures Scan(step, search, Head(Dots(n)), if stuck then Dots(n) else Tail(Dots(n)), h, inst) == Hashed(h, inst)
  {
    if n > 0 {
      SkipAllDots(n, "");
      SkipAllDots(n - 1, "");
      assert Dots(n) + "" == Dots(n) && Dots(n - 1) + "" == Dots(n - 1);
      assert Tail(Dots(n)) == Dots(n - 1);
    }
  }

  /** The result for text norm still to be hashed and instances more still to be stored. */
  function Outcome(step: HashStep, h: int, inst: seq<int>, norm: string, more: seq<int>): Calc {
    if |inst| + |more| <= MAX_DM_INSTANCE_ORDER then Hashed(HashFrom(step, h, norm), inst + more) else Failed
  }

  lemma OutcomeOfParts(step: HashStep, h: int, inst: seq<int>, a: string, b: string, i: seq<int>, j: seq<int>)
    ensures Outcome(step, h, inst, a + b, i + j) ==
      if |inst| + |i| > MAX_DM_INSTANCE_ORDER then Failed else Outcome(step, HashFrom(step, h, a), inst + i, b, j)
  {
    hide HashFrom;
    HashAppend(step, h, a, b);
    assert inst + (i + j) == inst + i + j;
  }

  /** The loop over the rest of a path, whatever the dots; stuck is the position right after a search expression. */
  lemma {:induction false} ScanRest(
    step: HashStep, search: bool, steps: seq<Step>, trailing: nat, stuck: bool, h: int, inst: seq<int>)
    requires AllValid(steps, search) && |inst| <= MAX_DM_INSTANCE_ORDER
    ensures var r := Rest(steps, trailing);
      Scan(step, search, Head(r), if stuck then r else Tail(r), h, inst) ==
      Outcome(step, h, inst, NormalRest(steps), Instances(steps, search))
    decreases |steps|
  {
    hide Scan, Text, Normal, HashFrom, Dots, Outcome, Instance;
    if steps == [] {
      NothingToHash(step, h, inst);
      OnlyDots(step, search, trailing, stuck, h, inst);
    } else {
      var g, tail := steps[0].seg, steps[1..];
      assert ValidSegment(g, search);
      hide Rest;
      RestParts(steps, trailing);
      RestAtBoundary(tail, trailing);
      var k := if stuck then steps[0].extra + 1 else steps[0].extra;
      ScanSegment(step, search, k, g, Rest(tail, trailing), h, inst);
      OutcomeOfParts(step, h, inst, "." + Normal(g), NormalRest(tail), Instance(g), Instances(tail, search));
      if |inst| + |Instance(g)| <= MAX_DM_INSTANCE_ORDER {
        ScanRest(step, search, tail, trailing, g.Search?, HashFrom(step, h, "." + Normal(g)), inst + Instance(g));
      }
    }
  }

  lemma NothingToHash(step: HashStep, h: int, inst: seq<int>)
    requires |inst| <= MAX_DM_INSTANCE_ORDER
    ensures Outcome(step, h, inst, "", []) == Hashed(h, inst)
  {
    assert inst + [] == inst;
  }

  /**
   The hash of a path is the plain hash of its normal form, and its instance numbers come out in order, for every
   way of writing the instances and any number of repeated and trailing dots; more than six instances are an error.
   */
  lemma HashIsHashOfNormalForm(
    step: HashStep, basis: int, search: bool, first: string, steps: seq<Step>, trailing: nat)
    requires IsName(first, search) && AllValid(steps, search)
    ensures CalcHash(step, basis, search, first + Rest(steps, trailing)) ==
      if |Instances(steps, search)| <= MAX_DM_INSTANCE_ORDER
      then Hashed(HashFrom(step, basis, first + NormalRest(steps)), Instances(steps, search)) else Failed
  {
    hide Scan;
    RestAtBoundary(steps, trailing);
    ScanName(step, search, first, Rest(steps, trailing), basis, []);
    ScanRest(step, search, steps, trailing, false, HashFrom(step, basis, first), []);
    HashAppend(step, basis, first, NormalRest(steps));
    assert [] + Instances(steps, search) == Instances(steps, search);
  }

  /** A search expression that nothing closes outside quotes is an error. */
  lemma UnclosedFails(step: HashStep, basis: int, first: string, e: string)
    requires IsName(first, true) && forall n: nat :: !ClosesAt(e, n)
    ensures CalcHash(step, basis, true, first + (".[" + e)) == Failed
  {
    hide FindClose, HashFrom, Literal;
    var p := ".[" + e;
    ScanName(step, true, first, p, basis, []);
    assert Tail(p) == "[" + e && Tail(Tail(p)) == e && SkipDots(Tail(p)) == Tail(p);
    if FindClose(e).Some? {
      FindCloseExactly(e, FindClose(e).value);
      assert false;
    }
  }

  /** Two spellings of one schema path have the same hash, and so find the same node. */
  lemma SpellingsAgree(
    step: HashStep, basis: int, search: bool, first: string, a: seq<Step>, m: nat, b: seq<Step>, n: nat)
    requires IsName(first, search) && AllValid(a, search) && AllValid(b, search)
    requires |a| == |b|
    requires forall i :: 0 <= i < |a| ==> Normal(a[i].seg) == Normal(b[i].seg) && a[i].seg.Name? == b[i].seg.Name?
    ensures var x := CalcHash(step, basis, search, first + Rest(a, m));
      var y := CalcHash(step, basis, search, first + Rest(b, n));
      x.Failed? == y.Failed? && (x.Hashed? ==> x.hash == y.hash)
  {
    hide CalcHash;
    HashIsHashOfNormalForm(step, basis, search, first, a, m);
    HashIsHashOfNormalForm(step, basis, search, first, b, n);
    SameNormalForm(a, b, search);
  }

  lemma {:induction false} SameNormalForm(a: seq<Step>, b: seq<Step>, search: bool)
    requires AllValid(a, search) && AllValid(b, search)
    requires |a| == |b|
    requires forall i :: 0 <= i < |a| ==> Normal(a[i].seg) == Normal(b[i].seg) && a[i].seg.Name? == b[i].seg.Name?
    ensures NormalRest(a) == NormalRest(b) && |Instances(a, search)| == |Instances(b, search)|
  {
    if a == [] {
    } else {
      SameNormalForm(a[1..], b[1..], search);
    }
  }

  /** DM_PRIV_CalcHashFromPath as it runs: two characters under examination and a moving position. */
  method CalcHashFromPath(step: HashStep, basis: int, search: bool, path: string) returns (r: Calc)
    requires NUL !in path
    ensures r == CalcHash(step, basis, search, path)
  {
    var h, inst: seq<int> := basis, [];
    var c, p := Head(path), Tail(path);
    while c != NUL
      invariant Scan(step, search, c, p, h, inst) == CalcHash(step, basis, search, path)
      invariant |inst| <= MAX_DM_INSTANCE_ORDER
      decreases |p|, c != NUL
    {
      if c == '.' {
        p := SkipDots(p);
        if p == "" {
          return Hashed(h, inst);
        }
        var n := LeadingDigits(p);
        if n > 0 && (n == |p| || p[n] == '.') {
          if |inst| == MAX_DM_INSTANCE_ORDER {
            return Failed;
          }
          inst := inst + [Value(p[..n])];
          h := HashFrom(step, h, ".{i}");
          p := p[n..];
        } else {
          h := step(h, '.');
        }
        c, p := Head(p), Tail(p);
      } else if c == '{' && |p| >= 2 && p[0] == 'i' && p[1] == '}' {
        if |inst| == MAX_DM_INSTANCE_ORDER {
          return Failed;
        }
        inst := inst + [WILDCARD];
        h := HashFrom(step, h, "{i}");
        p := p[2..];
        c, p := Head(p), Tail(p);
      } else if c == '*' {
        if |inst| == MAX_DM_INSTANCE_ORDER {
          return Failed;
        }
        inst := inst + [WILDCARD];
        h := HashFrom(step, h, "{i}");
        c, p := Head(p), Tail(p);
      } else if c == '[' && search {
        if |inst| == MAX_DM_INSTANCE_ORDER {
          return Failed;
        }
        inst := inst + [WILDCARD];
        h := HashFrom(step, h, "{i}");
        var end := FindClose(p);
        if end.None? {
          return Failed;
        }
        p := p[end.value + 1..];
        c := Head(p);
      } else {
        h := step(h, c);
        c, p := Head(p), Tail(p);
      }
    }
    r := Hashed(h, inst);
  }
}
