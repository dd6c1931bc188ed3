/**
 Reduction of a full data model path to an alternative name (bulkdata_reduce_to_alt_name).
 */
module AltName {
  import opened CommonDefs
  import PathHash

  // ---------------------------------------------------------------- the character loop

  function At(s: string, i: nat): char {
    if i < |s| then s[i] else '\0'
  }

  /** strchr(s, c): the part of s from the first c on, or None */
  function From(s: string, c: char): (r: string)
    ensures |r| <= |s|
  {
    if s == "" || s[0] == c then s else From(s[1..], c)
  }

  /** s moved past the search expression at its head, as the source does it. */
  function AfterSearch(s: string): string
    requires s != ""
  {
    var t := From(s, ']');
    if t != "" then t[1..] else s[1..]
  }

  /** The loop: p and s step through path and specification, o is the output so far (never empty). */
  function Reduce(p: string, s: string, o: string): (r: string)
    requires o != ""
    ensures r != ""
    decreases |p|
  {
    if p == "" then o
    else if At(s, 0) == p[0] && s != "" then Reduce(p[1..], s[1..], o)
    else if s != "" && (s[0] == '*' || s[0] == '[') then
      var o1 := o + [p[0]];
      if p[1..] != "" && p[1] == '.' then
        Reduce(p[1..], if s[0] == '*' then s[1..] else AfterSearch(s), o1 + ".")
      else Reduce(p[1..], s, o1)
    else if o[|o| - 1] == '.' && p[0] == '.' then Reduce(p[1..], s, o)
    else Reduce(p[1..], s, o + [p[0]])
  }

  function StripDot(o: string): string
    requires o != ""
  {
    if o[|o| - 1] == '.' then o[..|o| - 1] else o
  }

  /** bulkdata_reduce_to_alt_name, when the output buffer is large enough */
  function ReduceToAltName(spec: string, path: string, alt: string): string {
    if alt == "" then path else StripDot(Reduce(path, spec, alt + "."))
  }

  // ---------------------------------------------------------------- specifications and the paths they match

  datatype Segment = Literal(name: string) | Star | Search(expr: string)

  predicate HasNo(s: string, c: char) {
    forall i :: 0 <= i < |s| ==> s[i] != c
  }

  predicate ValidSegment(g: Segment) {
    match g
    case Literal(name) => true
    case Star => true
    case Search(expr) => PathHash.IsSearchExpr(expr)
  }

  /** No ']' inside a search expression, not even in quotes. */
  predicate Plain(g: Segment) {
    g.Search? ==> HasNo(g.expr, ']')
  }

  function SpecText(g: Segment): string {
    match g case Literal(name) => name case Star => "*" case Search(expr) => "[" + expr + "]"
  }

  /** An instance number as it stands in a path. */
  predicate IsNumber(d: string) {
    d != "" && forall i :: 0 <= i < |d| ==> '0' <= d[i] <= '9'
  }

  /** A specification segment and what it matched: the name itself, or an instance number. */
  datatype Match = Match(seg: Segment, number: string)

  predicate ValidMatch(m: Match) {
    ValidSegment(m.seg) && (!m.seg.Literal? ==> IsNumber(m.number))
  }

  function PathText(m: Match): string {
    if m.seg.Literal? then m.seg.name else m.number
  }

  predicate AllValid(ms: seq<Match>) {
    forall i :: 0 <= i < |ms| ==> ValidMatch(ms[i])
  }

  predicate AllPlain(ms: seq<Match>) {
    forall i :: 0 <= i < |ms| ==> Plain(ms[i].seg)
  }

  function Spec(ms: seq<Match>): string {
    if ms == [] then "" else if |ms| == 1 then SpecText(ms[0].seg) else SpecText(ms[0].seg) + "." + Spec(ms[1..])
  }

  function Path(ms: seq<Match>): string {
    if ms == [] then "" else if |ms| == 1 then PathText(ms[0]) else PathText(ms[0]) + "." + Path(ms[1..])
  }

  /** The part of a path below what the specification names: no empty segments. */
  predicate IsRemainder(rest: string) {
    && rest != "" && rest[0] != '.' && rest[|rest| - 1] != '.'
    && forall i :: 0 <= i < |rest| - 1 ==> !(rest[i] == '.' && rest[i + 1] == '.')
  }

  /** The instance numbers matched, each followed by a dot. */
  function Numbers(ms: seq<Match>): string {
    if ms == [] then "" else (if ms[0].seg.Literal? then "" else ms[0].number + ".") + Numbers(ms[1..])
  }

  // ---------------------------------------------------------------- one segment at a time

  /** A literal segment is skipped in both. */
  lemma {:induction false} SkipLiteral(name: string, p: string, s: string, o: string)
    requires o != ""
    ensures Reduce(name + p, name + s, o) == Reduce(p, s, o)
  {
    if name == "" {
      assert name + p == p && name + s == s;
    } else {
      assert (name + p)[1..] == name[1..] + p && (name + s)[1..] == name[1..] + s;
      SkipLiteral(name[1..], p, s, o);
    }
  }

  lemma {:induction false} FindClose(expr: string, s: string)
    requires HasNo(expr, ']')
    ensures From(expr + "]" + s, ']') == "]" + s
  {
    if expr == "" {
      assert expr + "]" + s == "]" + s;
    } else {
      assert (expr + "]" + s)[1..] == expr[1..] + "]" + s;
      FindClose(expr[1..], s);
    }
  }

  /** What follows a wildcard or search expression in the specification. */
  lemma AfterWild(g: Segment, s: string)
    requires Plain(g) && !g.Literal?
    ensures var t := SpecText(g) + s;
      && t != "" && (t[0] == '*' || t[0] == '[')
      && (if t[0] == '*' then t[1..] else AfterSearch(t)) == s
  {
    var t := SpecText(g) + s;
    if g.Search? {
      assert t == "[" + g.expr + "]" + s;
      FindClose(g.expr, s);
      assert t[1..] == g.expr + "]" + s;
      assert From(t, ']') == From(t[1..], ']');
    } else {
      assert t == "*" + s;
    }
  }

  /** Where the source goes on in a specification t that starts with a wildcard or a search expression */
  function AfterMatched(t: string): string
    requires t != ""
  {
    if t[0] == '*' then t[1..] else AfterSearch(t)
  }

  /** At a wildcard or search expression one character is copied. */
  lemma CopyOne(q: string, t: string, o: string)
    requires o != "" && q != "" && t != "" && (t[0] == '*' || t[0] == '[') && q[0] != t[0]
    ensures Reduce(q, t, o) ==
            if q[1..] != "" && q[1] == '.' then Reduce(q[1..], AfterMatched(t), o + [q[0]] + ".")
            else Reduce(q[1..], t, o + [q[0]])
  {
    hide AfterSearch;
  }

  /** An instance number is copied; then both move on, and a dot is added if the path goes on. */
  lemma {:induction false} CopyDigits(d: string, p: string, t: string, o: string)
    requires o != "" && IsNumber(d) && (p == "" || p[0] == '.') && t != "" && (t[0] == '*' || t[0] == '[')
    ensures Reduce(d + p, t, o) == if p == "" then o + d else Reduce(p, AfterMatched(t), o + d + ".")
    decreases |d|
  {
    hide Reduce, AfterMatched;
    var q := d + p;
    CopyOne(q, t, o);
    assert q[1..] == d[1..] + p;
    var o1 := o + [d[0]];
    if |d| == 1 {
      assert q[1..] == p && o1 == o + d;
      if p == "" {
        NothingLeft(t, o1);
      }
    } else {
      assert q[1] == d[1];
      CopyDigits(d[1..], p, t, o1);
      assert o1 + d[1..] == o + d;
    }
  }

  lemma SpecStart(g: Segment, s: string)
    requires !g.Literal?
    ensures var t := SpecText(g) + s; t != "" && (t[0] == '*' || t[0] == '[')
  {
  }

  /** Behind a plain segment the source goes on where it should. */
  lemma CopyNumber(g: Segment, d: string, p: string, s: string, o: string)
    requires o != "" && !g.Literal? && IsNumber(d) && (p == "" || p[0] == '.') && (p != "" ==> Plain(g))
    ensures Reduce(d + p, SpecText(g) + s, o) == if p == "" then o + d else Reduce(p, s, o + d + ".")
  {
    hide Reduce, AfterSearch, SpecText;
    SpecStart(g, s);
    CopyDigits(d, p, SpecText(g) + s, o);
    if p != "" {
      AfterWild(g, s);
    }
  }

  /** Below the specification everything is copied. */
  lemma {:induction false} CopyRest(rest: string, o: string)
    requires o != ""
    requires rest != "" ==> !(o[|o| - 1] == '.' && rest[0] == '.')
    requires forall i :: 0 <= i < |rest| - 1 ==> !(rest[i] == '.' && rest[i + 1] == '.')
    ensures Reduce(rest, "", o) == o + rest
    decreases |rest|
  {
    if rest == "" {
      assert o + rest == o;
    } else {
      CopyRest(rest[1..], o + [rest[0]]);
      assert o + [rest[0]] + rest[1..] == o + rest;
    }
  }

  // ---------------------------------------------------------------- whole specifications

  /** What the output gains from one segment. */
  function Gained(m: Match, o: string): string {
    if m.seg.Literal? then o else o + m.number + "."
  }

  lemma TextsOfOne(ms: seq<Match>, o: string)
    requires |ms| == 1
    ensures Path(ms) == PathText(ms[0]) && Spec(ms) == SpecText(ms[0].seg) && o + Numbers(ms) == Gained(ms[0], o)
  {
    assert ms[1..] == [] && Numbers(ms[1..]) == "";
  }

  lemma TextsOfMany(ms: seq<Match>, p: string, s: string, o: string)
    requires |ms| > 1
    ensures Path(ms) + p == PathText(ms[0]) + ("." + (Path(ms[1..]) + p))
    ensures Spec(ms) + s == SpecText(ms[0].seg) + ("." + (Spec(ms[1..]) + s))
    ensures Gained(ms[0], o) + Numbers(ms[1..]) == o + Numbers(ms)
  {
    hide SpecText, PathText;
    Regroup(PathText(ms[0]), Path(ms[1..]), p);
    Regroup(SpecText(ms[0].seg), Spec(ms[1..]), s);
    GainedFirst(ms, o);
  }

  lemma Regroup(a: string, b: string, c: string)
    ensures a + "." + b + c == a + ("." + (b + c))
  {
  }

  lemma GainedFirst(ms: seq<Match>, o: string)
    requires ms != []
    ensures Gained(ms[0], o) + Numbers(ms[1..]) == o + Numbers(ms)
  {
    if ms[0].seg.Literal? {
      assert Numbers(ms) == "" + Numbers(ms[1..]);
    } else {
      assert o + (ms[0].number + "." + Numbers(ms[1..])) == o + ms[0].number + "." + Numbers(ms[1..]);
    }
  }

  /** A full match: every segment is consumed and the output gains the matched numbers. */
  lemma {:induction false} ReduceMatches(ms: seq<Match>, p: string, s: string, o: string)
    requires AllValid(ms) && AllPlain(ms) && ms != [] && o != "" && p != "" && p[0] == '.'
    ensures Reduce(Path(ms) + p, Spec(ms) + s, o) == Reduce(p, s, o + Numbers(ms))
    decreases |ms|
  {
    hide Reduce, Path, Spec, Numbers;
    var m := ms[0];
    if |ms| == 1 {
      TextsOfOne(ms, o);
      OneSegment(m, p, s, o);
    } else {
      TextsOfMany(ms, p, s, o);
      OneSegment(m, "." + (Path(ms[1..]) + p), "." + (Spec(ms[1..]) + s), o);
      SkipLiteral(".", Path(ms[1..]) + p, Spec(ms[1..]) + s, Gained(m, o));
      ReduceMatches(ms[1..], p, s, Gained(m, o));
    }
  }

  lemma OneSegment(m: Match, p: string, s: string, o: string)
    requires ValidMatch(m) && Plain(m.seg) && o != "" && p != "" && p[0] == '.'
    ensures Reduce(PathText(m) + p, SpecText(m.seg) + s, o) ==
            Reduce(p, s, Gained(m, o))
  {
    if m.seg.Literal? {
      SkipLiteral(m.seg.name, p, s, o);
    } else {
      CopyNumber(m.seg, m.number, p, s, o);
    }
  }

  /** A path that ends where the specification does: its last segment may be any. */
  lemma {:induction false} ReduceToEnd(ms: seq<Match>, s: string, o: string)
    requires AllValid(ms) && ms != [] && AllPlain(ms[..|ms| - 1]) && o != "" && o[|o| - 1] == '.'
    ensures StripDot(Reduce(Path(ms), Spec(ms) + s, o)) == StripDot(o + Numbers(ms))
    decreases |ms|
  {
    hide Reduce, Path, Spec, Numbers, StripDot;
    var m := ms[0];
    if |ms| == 1 {
      TextsOfOne(ms, o);
      assert PathText(m) + "" == PathText(m);
      if m.seg.Literal? {
        SkipLiteral(m.seg.name, "", s, o);
        NothingLeft(s, o);
      } else {
        CopyNumber(m.seg, m.number, "", s, o);
        NumberHasNoDot(m.number, o);
      }
    } else {
      TextsOfMany(ms, "", s, o);
      assert Path(ms) + "" == Path(ms) && Path(ms[1..]) + "" == Path(ms[1..]);
      assert ms[..|ms| - 1][0] == m && ms[1..][..|ms| - 2] == ms[..|ms| - 1][1..];
      OneSegment(m, "." + Path(ms[1..]), "." + (Spec(ms[1..]) + s), o);
      SkipLiteral(".", Path(ms[1..]), Spec(ms[1..]) + s, Gained(m, o));
      ReduceToEnd(ms[1..], s, Gained(m, o));
    }
  }

  lemma NothingLeft(s: string, o: string)
    requires o != ""
    ensures Reduce("", s, o) == o
  {
  }

  lemma NumberHasNoDot(d: string, o: string)
    requires IsNumber(d) && o != ""
    ensures StripDot(o + d) == o + d && StripDot(o + d + ".") == o + d
  {
    assert (o + d)[|o + d| - 1] == d[|d| - 1];
  }

  lemma {:induction false} NumbersEndInDot(ms: seq<Match>, o: string)
    requires o != "" && o[|o| - 1] == '.'
    ensures o + Numbers(ms) != "" && (o + Numbers(ms))[|o + Numbers(ms)| - 1] == '.'
  {
    if ms == [] {
    } else {
      NumbersEndInDot(ms[1..], Gained(ms[0], o));
      GainedFirst(ms, o);
    }
  }

  /** The name, the numbers and the remainder, separated by single dots. */
  function Expected(alt: string, ms: seq<Match>, rest: string): string {
    StripDot(alt + "." + Numbers(ms) + rest)
  }

  function SpecOf(ms: seq<Match>, dotted: bool): string {
    Spec(ms) + if dotted then "." else ""
  }

  function PathWith(ms: seq<Match>, rest: string): string {
    Path(ms) + if rest == "" then "" else "." + rest
  }

  /** No ']' in quotes in a search expression that has path text behind it */
  predicate PlainInside(ms: seq<Match>, rest: string) {
    if rest == "" && ms != [] then AllPlain(ms[..|ms| - 1]) else AllPlain(ms)
  }

  /**
   For every specification of literal, '*' and '[..]' segments, with or without a trailing dot, and every path that
   instantiates it: the output is the alternative name, the matched instance numbers in order and the rest of the path,
   separated by single dots and with no trailing dot. A ']' in quotes is harmless in a search expression that ends the
   path; QuotedBracketExactly says what it does elsewhere.
   */
  lemma AltNameCorrect(ms: seq<Match>, dotted: bool, rest: string, alt: string)
    requires AllValid(ms) && ms != [] && alt != "" && (rest == "" || IsRemainder(rest)) && PlainInside(ms, rest)
    ensures ReduceToAltName(SpecOf(ms, dotted), PathWith(ms, rest), alt) == Expected(alt, ms, rest)
  {
    var o, s := alt + ".", if dotted then "." else "";
    var o1 := o + Numbers(ms);
    NumbersEndInDot(ms, o);
    if rest == "" {
      ReduceToEnd(ms, s, o);
      assert Path(ms) + "" == Path(ms) && o1 + rest == o1;
    } else {
      ReduceMatches(ms, "." + rest, s, o);
      assert ("." + rest)[1..] == rest;
      if dotted {
        assert s[1..] == "";
      }
      assert Reduce("." + rest, s, o1) == Reduce(rest, "", o1);
      CopyRest(rest, o1);
    }
  }

  // ---------------------------------------------------------------- a ']' in quotes

  /** The character behind the first ']' of a search expression, where the source goes on looking */
  function BehindBracket(g: Segment): char
    requires g.Search? && !Plain(g)
  {
    FromHas(g.expr);
    At(From(g.expr, ']') + "]", 1)
  }

  lemma {:induction false} FromHas(expr: string)
    ensures HasNo(expr, ']') <==> From(expr, ']') == ""
    ensures From(expr, ']') != "" ==> From(expr, ']')[0] == ']'
  {
    if expr == "" || expr[0] == ']' {
    } else {
      FromHas(expr[1..]);
      if HasNo(expr[1..], ']') {
        assert forall i :: 0 <= i < |expr| ==> i == 0 || expr[i] == expr[1..][i - 1];
      }
    }
  }

  lemma {:induction false} FromAppend(expr: string, s: string)
    requires From(expr, ']') != ""
    ensures From(expr + s, ']') == From(expr, ']') + s
  {
    if expr[0] == ']' {
    } else {
      assert (expr + s)[1..] == expr[1..] + s;
      FromAppend(expr[1..], s);
    }
  }

  /** Behind the number, the source looks at the inside of the search expression. */
  lemma GoesOnInside(g: Segment, s: string)
    requires g.Search? && !Plain(g)
    ensures var t := AfterMatched(SpecText(g) + s); t != "" && t[0] == BehindBracket(g)
  {
    hide From;
    FromHas(g.expr);
    var t, e := SpecText(g) + s, From(g.expr, ']');
    assert t == "[" + (g.expr + ("]" + s));
    FromAppend(g.expr, "]" + s);
    FromNext('[', g.expr + ("]" + s));
    SecondChar(e, s);
  }

  lemma FromNext(c: char, s: string)
    requires c != ']'
    ensures From([c] + s, ']') == From(s, ']')
  {
    assert ([c] + s)[1..] == s;
  }

  lemma SecondChar(e: string, s: string)
    requires e != ""
    ensures (e + ("]" + s))[1..] != "" && (e + ("]" + s))[1..][0] == At(e + "]", 1)
  {
  }

  /** At a character that the path does not have, everything is copied. */
  lemma {:induction false} CopyStuck(p: string, s: string, o: string)
    requires o != "" && s != "" && s[0] != '*' && s[0] != '[' && HasNo(p, s[0])
    requires p != "" ==> !(o[|o| - 1] == '.' && p[0] == '.')
    requires forall i :: 0 <= i < |p| - 1 ==> !(p[i] == '.' && p[i + 1] == '.')
    ensures Reduce(p, s, o) == o + p
    decreases |p|
  {
    if p == "" {
      assert o + p == o;
    } else {
      CopyStuck(p[1..], s, o + [p[0]]);
      assert o + [p[0]] + p[1..] == o + p;
    }
  }

  /** A name as the data model has it */
  predicate Named(ms: seq<Match>) {
    forall i :: 0 <= i < |ms| && ms[i].seg.Literal? ==> ms[i].seg.name != "" && HasNo(ms[i].seg.name, '.')
  }

  lemma {:induction false} PathIsRemainder(ms: seq<Match>, rest: string)
    requires AllValid(ms) && Named(ms) && (rest == "" || IsRemainder(rest)) && (ms != [] || rest != "")
    ensures IsRemainder(Joined(ms, rest))
    decreases |ms|
  {
    if ms == [] {
    } else {
      var text := PathText(ms[0]);
      assert text != "" && HasNo(text, '.');
      if |ms| == 1 && rest == "" {
        assert Joined(ms, rest) == text;
      } else {
        PathIsRemainder(ms[1..], rest);
        JoinedFirst(ms, rest);
        SegmentInFront(text, Joined(ms[1..], rest));
      }
    }
  }

  lemma SegmentInFront(text: string, more: string)
    requires text != "" && HasNo(text, '.') && IsRemainder(more)
    ensures IsRemainder(text + "." + more)
  {
    var t := text + "." + more;
    forall i | 0 <= i < |t| - 1 ensures !(t[i] == '.' && t[i + 1] == '.') {
      if i < |text| {
        assert t[i] == text[i];
      } else if i > |text| {
        assert t[i] == more[i - |text| - 1] && t[i + 1] == more[i - |text|];
      } else {
        assert t[i + 1] == more[0];
      }
    }
    assert t[|t| - 1] == more[|more| - 1];
  }

  /** The texts of the matches and the rest, with dots between them */
  function Joined(ms: seq<Match>, rest: string): string {
    if ms == [] then rest else PathWith(ms, rest)
  }

  lemma JoinedFirst(ms: seq<Match>, rest: string)
    requires ms != [] && (|ms| > 1 || rest != "")
    ensures Joined(ms, rest) == PathText(ms[0]) + "." + Joined(ms[1..], rest)
  {
    if |ms| == 1 {
      assert PathText(ms[0]) + ("." + rest) == PathText(ms[0]) + "." + rest;
    } else {
      var tail := if rest == "" then "" else "." + rest;
      assert PathText(ms[0]) + "." + Path(ms[1..]) + tail == PathText(ms[0]) + "." + (Path(ms[1..]) + tail);
    }
  }

  /** Up to the search expression all is well; then the source goes on inside it, at t. */
  lemma {:induction false} UpToBracket(ms: seq<Match>, k: nat, rest: string, s: string, o: string) returns (t: string)
    requires AllValid(ms) && k < |ms| && AllPlain(ms[..k]) && ms[k].seg.Search? && !Plain(ms[k].seg)
    requires o != "" && (k + 1 < |ms| || rest != "")
    ensures t != "" && t[0] == BehindBracket(ms[k].seg)
    ensures Reduce(PathWith(ms, rest), Spec(ms) + s, o) ==
            Reduce("." + Joined(ms[k + 1..], rest), t, o + Numbers(ms[..k + 1]))
    decreases |ms|
  {
    hide Reduce, Path, Spec, Numbers, SpecText, AfterMatched, BehindBracket, Plain;
    var m, p := ms[0], if rest == "" then "" else "." + rest;
    var s1 := if |ms| == 1 then s else "." + (Spec(ms[1..]) + s);
    var p1 := if |ms| == 1 then p else "." + (Path(ms[1..]) + p);
    assert p1 == "." + Joined(ms[1..], rest);
    if |ms| == 1 {
      TextsOfOne(ms, o);
    } else {
      TextsOfMany(ms, p, s, o);
    }
    if k == 0 {
      SpecStart(m.seg, s1);
      t := AfterMatched(SpecText(m.seg) + s1);
      GoesOnInside(m.seg, s1);
      CopyDigits(m.number, p1, SpecText(m.seg) + s1, o);
      TextsOfOne(ms[..1], o);
    } else {
      assert ms[..k][0] == m && ms[1..][..k - 1] == ms[..k][1..] && ms[1..][k..] == ms[k + 1..];
      OneSegment(m, p1, s1, o);
      SkipLiteral(".", Path(ms[1..]) + p, Spec(ms[1..]) + s, Gained(m, o));
      t := UpToBracket(ms[1..], k - 1, rest, s, Gained(m, o));
      assert ms[1..][..k] == ms[..k + 1][1..];
      GainedFirst(ms[..k + 1], o);
    }
  }

  predicate NoNames(ms: seq<Match>) {
    forall i :: 0 <= i < |ms| ==> !ms[i].seg.Literal?
  }

  /** Only the names make the text of a path longer than its instance numbers. */
  lemma {:induction false} NamesAddLength(ms: seq<Match>, rest: string)
    requires AllValid(ms) && Named(ms)
    ensures var all := |Joined(ms, rest)| + if rest == "" && ms != [] then 1 else 0;
      if NoNames(ms) then |Numbers(ms)| + |rest| == all else |Numbers(ms)| + |rest| < all
  {
    if ms == [] {
    } else {
      NamesAddLength(ms[1..], rest);
      if |ms| > 1 || rest != "" {
        JoinedFirst(ms, rest);
      }
      NoNamesFirst(ms);
    }
  }

  lemma NoNamesFirst(ms: seq<Match>)
    requires ms != []
    ensures NoNames(ms) <==> !ms[0].seg.Literal? && NoNames(ms[1..])
  {
    assert forall i :: 0 < i < |ms| ==> ms[i] == ms[1..][i - 1];
  }

  /** Without names, the text of a path is its instance numbers. */
  lemma {:induction false} NoNamesJoined(ms: seq<Match>, rest: string)
    requires AllValid(ms) && NoNames(ms)
    ensures Joined(ms, rest) + (if rest == "" && ms != [] then "." else "") == Numbers(ms) + rest
  {
    if ms == [] {
    } else {
      var more := Joined(ms[1..], rest);
      NoNamesFirst(ms);
      NoNamesJoined(ms[1..], rest);
      if |ms| > 1 || rest != "" {
        JoinedFirst(ms, rest);
        assert ms[0].number + "." + (Numbers(ms[1..]) + rest) == Numbers(ms) + rest;
        if rest == "" && |ms| == 1 {
        } else if rest == "" {
          assert ms[0].number + "." + more + "." == ms[0].number + "." + (more + ".");
        } else {
          assert more + "" == more && Joined(ms, rest) + "" == Joined(ms, rest);
        }
      } else {
        assert Numbers(ms[1..]) == "";
        assert Joined(ms, rest) == ms[0].number;
      }
    }
  }

  lemma {:induction false} NumbersSplit(ms: seq<Match>, k: nat, o: string)
    requires k <= |ms|
    ensures o + Numbers(ms) == o + Numbers(ms[..k]) + Numbers(ms[k..])
  {
    if k == 0 {
      assert ms[0..] == ms && o + Numbers(ms[..0]) == o;
    } else {
      NumbersSplit(ms[1..], k - 1, Gained(ms[0], o));
      GainedFirst(ms, o);
      assert ms[..k][1..] == ms[1..][..k - 1] && ms[1..][k - 1..] == ms[k..];
      GainedFirst(ms[..k], o);
    }
  }

  /** The whole remaining path is what was expected exactly if it holds instance numbers only. */
  lemma RightExactly(o: string, ms: seq<Match>, rest: string)
    requires AllValid(ms) && Named(ms) && o != "" && o[|o| - 1] == '.' && (rest == "" || IsRemainder(rest))
    requires ms != [] || rest != ""
    ensures o + Joined(ms, rest) == StripDot(o + Numbers(ms) + rest) <==> NoNames(ms)
  {
    hide Numbers, Joined;
    NamesAddLength(ms, rest);
    var n := o + Numbers(ms) + rest;
    NumbersEndInDot(ms, o);
    if rest == "" {
      assert n == o + Numbers(ms);
    } else {
      assert n[|n| - 1] == rest[|rest| - 1];
    }
    if NoNames(ms) {
      NoNamesJoined(ms, rest);
      assert n == o + (Numbers(ms) + rest);
      StripAdded(o, Joined(ms, rest), n, rest == "");
    }
  }

  lemma StripAdded(o: string, j: string, n: string, dot: bool)
    requires n == o + (j + if dot then "." else "") && n != "" && dot == (n[|n| - 1] == '.')
    ensures o + j == StripDot(n)
  {
  }

  /** Where the source goes on inside the quotes of ms[k], and the remaining path has no such character */
  predicate Astray(ms: seq<Match>, k: nat, rest: string) {
    && k < |ms| && AllPlain(ms[..k]) && ms[k].seg.Search? && !Plain(ms[k].seg)
    && (k + 1 < |ms| || rest != "")
    && var c := BehindBracket(ms[k].seg);
      c != '*' && c != '[' && HasNo("." + Joined(ms[k + 1..], rest), c)
  }

  /**
   A search expression with a ']' in quotes and path text behind it: the search for its end stops at the quoted ']'.
   If the character there does not occur in the path, nothing behind the expression is matched any more: the output is
   the alternative name, the numbers so far and the whole remaining path, which is right exactly if no name of the
   specification follows.
   */
  lemma QuotedBracketExactly(ms: seq<Match>, k: nat, dotted: bool, rest: string, alt: string)
    requires AllValid(ms) && Named(ms) && alt != "" && (rest == "" || IsRemainder(rest)) && Astray(ms, k, rest)
    ensures var r := ReduceToAltName(SpecOf(ms, dotted), PathWith(ms, rest), alt);
      && r == alt + "." + Numbers(ms[..k + 1]) + Joined(ms[k + 1..], rest)
      && (r == Expected(alt, ms, rest) <==> NoNames(ms[k + 1..]))
  {
    hide Reduce, Numbers, Joined, PathWith, Spec, BehindBracket, Plain;
    var o, s, more := alt + ".", if dotted then "." else "", ms[k + 1..];
    var t := UpToBracket(ms, k, rest, s, o);
    var o1, j := o + Numbers(ms[..k + 1]), Joined(more, rest);
    NumbersEndInDot(ms[..k + 1], o);
    PathIsRemainder(more, rest);
    CopyDotted(j, t, o1);
    assert (o1 + j)[|o1 + j| - 1] == j[|j| - 1];
    NumbersSplit(ms, k + 1, o);
    RightExactly(o1, more, rest);
  }

  /** The dot in front is dropped, and the rest is copied. */
  lemma CopyDotted(p: string, s: string, o: string)
    requires o != "" && o[|o| - 1] == '.' && IsRemainder(p)
    requires s != "" && s[0] != '*' && s[0] != '[' && HasNo("." + p, s[0])
    ensures Reduce("." + p, s, o) == o + p
  {
    assert ("." + p)[0] == '.' && ("." + p)[1..] == p;
    assert forall i :: 0 <= i < |p| ==> p[i] == ("." + p)[i + 1];
    CopyStuck(p, s, o);
    assert Reduce("." + p, s, o) == Reduce(p, s, o);
  }

  const Quoted := Search("\"]x\"")

  lemma QuotedIsSearch()
    ensures ValidSegment(Quoted) && !Plain(Quoted) && BehindBracket(Quoted) == 'x'
  {
    var e := "\"]x\"";
    var t := e + "]";
    assert t[1..] == "]x\"]" && t[4..] == "]";
    assert t[1..][1..] == "x\"]" && t[1..][1..][1..] == "\"]";
    assert PathHash.FindChar(t[1..][1..][1..], '"') == Some(0);
    assert PathHash.FindChar(t[1..][1..], '"') == Some(1);
    assert PathHash.FindChar(t[1..], '"') == Some(2);
    assert PathHash.FindClose(t[4..]) == Some(0);
    assert e[1] == ']' && e[1..] == "]x\"";
    assert From(e, ']') == From(e[1..], ']') == e[1..];
  }

  const First := Match(Quoted, "1")
  const Last := Match(Literal("b"), "")

  lemma TextsOfPair()
    ensures Path([First, Last]) == "1" + "." + "b" && Spec([First, Last]) == "[" + Quoted.expr + "]" + "." + "b"
    ensures Joined([Last], "") == "b" && Numbers([First]) == "1."
    ensures Numbers([First, Last]) == "1."
  {
    var f, l := First, Last;
    TextsOfOne([l], "");
    TextsOfOne([f], "");
    assert [f, l][1..] == [l] && [f][1..] == [] && [l][1..] == [];
  }

  /** Such a specification, and a path that instantiates it: the name behind the search expression is not taken out. */
  lemma QuotedBracketKeepsName()
    ensures var ms := [First, Last];
      && AllValid(ms) && SpecOf(ms, false) == "[\"]x\"].b" && PathWith(ms, "") == "1.b"
      && ReduceToAltName("[\"]x\"].b", "1.b", "a") == "a.1.b" && Expected("a", ms, "") == "a.1"
  {
    hide Reduce, PathHash.IsSearchExpr, Plain, BehindBracket, Path, Spec, Numbers, Joined, ReduceToAltName;
    var ms := [First, Last];
    QuotedIsSearch();
    TextsOfPair();
    assert ms[..1] == [First] && ms[1..] == [Last];
    QuotedBracketExactly(ms, 0, false, "", "a");
  }

  // ---------------------------------------------------------------- the loop as it runs

  /**
   bulkdata_reduce_to_alt_name: one pass over the path, the output growing in place; ok is false where the
   source finds its buffer too small.
   */
  method ReduceInto(spec: string, path: string, alt: string, bufLen: nat) returns (ok: bool, out: string)
    ensures ok && (alt != "" || |path| < bufLen) ==> out == ReduceToAltName(spec, path, alt)
    ensures alt != "" && bufLen > |alt| + 2 * |path| + 2 ==> ok
    ensures alt == "" ==> ok && out == if |path| < bufLen then path else if bufLen == 0 then "" else path[..bufLen - 1]
  {
    if alt == "" {
      return true, if |path| < bufLen then path else if bufLen == 0 then "" else path[..bufLen - 1];
    }
    ok, out := false, "";
    if bufLen < |alt| + 1 {
      return;
    }
    var o := alt + ".";
    var p, s := 0, spec;
    assert path[0..] == path;
    while p < |path|
      invariant p <= |path| && o != "" && |o| <= |alt| + 1 + 2 * p
      invariant Reduce(path[p..], s, o) == Reduce(path, spec, alt + ".")
    {
      if |o| + 1 >= bufLen {
        return;
      }
      ghost var q := path[p..];
      assert q[0] == path[p] && q[1..] == path[p + 1..];
      if s != "" && path[p] == s[0] {
        p, s := p + 1, s[1..];
      } else if s != "" && (s[0] == '*' || s[0] == '[') {
        o := o + [path[p]];
        p := p + 1;
        if p < |path| && path[p] == '.' {
          s := if s[0] == '*' then s[1..] else AfterSearch(s);
          o := o + ".";
        }
      } else if o[|o| - 1] == '.' && path[p] == '.' {
        p := p + 1;
      } else {
        o := o + [path[p]];
        p := p + 1;
      }
    }
    assert path[p..] == "";
    ok, out := true, StripDot(o);
  }
}
