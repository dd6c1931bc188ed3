/**
 The writers and the parser of coap_common.c as they run: filling a buffer from left to right, walking a
 received datagram with a moving position. Each is proved to compute the function of CoapCodec.
 */
module CoapWire {
  import opened CommonDefs
  import opened CoapCodec

  /** memcpy to position p of a buffer; q is the position after the copy. */
  method Put(buf: array<byte>, p: nat, data: bytes) returns (q: nat)
    requires p + |data| <= buf.Length
    modifies buf
    ensures q == p + |data| && buf[..q] == old(buf[..p]) + data
  {
    var i := 0;
    while i < |data|
      invariant 0 <= i <= |data|
      invariant buf[..p] == old(buf[..p])
      invariant buf[p..p + i] == data[..i]
    {
      buf[p + i] := data[i];
      i := i + 1;
    }
    q := p + |data|;
    assert data[..|data|] == data;
    assert buf[..q] == buf[..p] + buf[p..q];
  }

  /** The header word built field by field with MODIFY_BITS. */
  method HeaderWord(h: Header) returns (w: nat)
    requires h.Valid()
    ensures w == (COAP_VERSION * 4 + PduTypeCode(h.pduType)) * 0x1000_0000 + h.tokenSize * 0x100_0000 +
                 h.cls * 0x20_0000 + h.code * 0x1_0000 + h.mid
  {
    var t := PduTypeCode(h.pduType);
    ModifyBitsAppends(0, 0, 0x4000_0000, 4, COAP_VERSION);
    w := ModifyBits(0, 0x4000_0000, 4, COAP_VERSION);
    ModifyBitsAppends(w, 1, 0x1000_0000, 4, t);
    w := ModifyBits(w, 0x1000_0000, 4, t);
    ModifyBitsAppends(w, 4 + t, 0x100_0000, 16, h.tokenSize);
    w := ModifyBits(w, 0x100_0000, 16, h.tokenSize);
    var p2 := (4 + t) * 16 + h.tokenSize;
    ModifyBitsAppends(w, p2, 0x20_0000, 8, h.cls);
    w := ModifyBits(w, 0x20_0000, 8, h.cls);
    ModifyBitsAppends(w, p2 * 8 + h.cls, 0x1_0000, 32, h.code);
    w := ModifyBits(w, 0x1_0000, 32, h.code);
    ModifyBitsAppends(w, (p2 * 8 + h.cls) * 32 + h.code, 1, 0x1_0000, h.mid);
    w := ModifyBits(w, 1, 0x1_0000, h.mid);
  }

  lemma StoreStep(n: nat, v: nat, q: nat, r: byte)
    requires n > 0 && v == q * 0x100 + r as int
    ensures Store(n, v) == Store(n - 1, q) + [r]
  {
    QuotRemUnique(q, 0x100, r, v);
  }

  /** Storing the header word gives the header bytes. */
  lemma HeaderWordBytes(h: Header, w: nat)
    requires h.Valid()
    requires w == (COAP_VERSION * 4 + PduTypeCode(h.pduType)) * 0x1000_0000 + h.tokenSize * 0x100_0000 +
                  h.cls * 0x20_0000 + h.code * 0x1_0000 + h.mid
    ensures Store(4, w) == EncodeHeader(h)
  {
    var b0: byte := (4 + PduTypeCode(h.pduType)) * 16 + h.tokenSize;
    var b1: byte := h.cls * 32 + h.code;
    QuotRemIsDivMod(h.mid, 0x100);
    var b2: byte, b3: byte := Quot(h.mid, 0x100), Rem(h.mid, 0x100);
    hide Quot, Rem, Store;
    TwoBytes(b2, b3);
    FourBytes(b0, b1, b2, b3);
    assert w == ((b0 as int * 0x100 + b1 as int) * 0x100 + b2 as int) * 0x100 + b3 as int;
    assert h.mid == b2 as int * 0x100 + b3 as int;
  }

  lemma TwoBytes(b0: byte, b1: byte)
    ensures Store(2, b0 as int * 0x100 + b1 as int) == [b0, b1]
  {
    hide Quot, Rem;
    StoreStep(2, b0 as int * 0x100 + b1 as int, b0 as int, b1);
    StoreStep(1, b0 as int, 0, b0);
    assert Store(0, 0) == [];
  }

  lemma FourBytes(b0: byte, b1: byte, b2: byte, b3: byte)
    ensures Store(4, ((b0 as int * 0x100 + b1 as int) * 0x100 + b2 as int) * 0x100 + b3 as int) == [b0, b1, b2, b3]
  {
    hide Quot, Rem, Store;
    var q2 := b0 as int * 0x100 + b1 as int;
    var q3 := q2 * 0x100 + b2 as int;
    StoreStep(4, q3 * 0x100 + b3 as int, q3, b3);
    StoreStep(3, q3, q2, b2);
    TwoBytes(b0, b1);
  }

  /** WRITE_4_BYTES of the header, then the token. */
  method WriteHeader(h: Header, token: bytes, buf: array<byte>) returns (p: nat)
    requires h.Valid() && COAP_HEADER_SIZE + |token| <= buf.Length
    modifies buf
    ensures p == COAP_HEADER_SIZE + |token| && buf[..p] == EncodeHeader(h) + token
  {
    var w := HeaderWord(h);
    HeaderWordBytes(h, w);
    p := Put(buf, 0, Store(4, w));
    assert buf[..p] == [] + EncodeHeader(h);
    assert [] + EncodeHeader(h) == EncodeHeader(h);
    p := Put(buf, p, token);
  }

  /** The option header: two MODIFY_BITS. */
  method JoinNibbles(hi: nat, lo: nat) returns (b: byte)
    requires hi < 16 && lo < 16
    ensures b == hi * 16 + lo
  {
    ModifyBitsAppends(0, 0, 16, 16, hi);
    var header := ModifyBits(0, 16, 16, hi);
    ModifyBitsAppends(header, hi, 1, 16, lo);
    b := ModifyBits(header, 1, 16, lo);
  }

  /** The option header read back: BITS(7, 4) and BITS(3, 0). */
  method SplitNibbles(b: byte) returns (hi: nat, lo: nat)
    ensures hi == Quot(b, 16) < 16 && lo == Rem(b, 16) < 16
  {
    QuotRemIsDivMod(b, 16);
    BitsOfField(b, 0, 16, 16, Quot(b, 16), Rem(b, 16));
    BitsOfField(b, Quot(b, 16), 1, 16, Rem(b, 16), 0);
    hi := Bits(b, 16, 16);
    lo := Bits(b, 1, 16);
  }

  /** COAP_WriteOption; ok is false where one of its assertions fails, and then nothing is written. */
  method WriteOption(num: nat, data: bytes, buf: array<byte>, p: nat, last: nat) returns (ok: bool, q: nat)
    requires p + |data| + 3 <= buf.Length
    modifies buf
    ensures ok <==> Writable(last, Opt(num, data))
    ensures ok ==> p < q <= p + |data| + 3 && buf[..q] == old(buf[..p]) + EncodeOption(last, Opt(num, data))
  {
    hide EncodeOption;
    ok, q := false, p;
    if num < last || num - last >= 268 || |data| >= 268 {
      return;
    }
    var delta, deltaExt := num - last, 0;
    if delta > 12 {
      deltaExt := delta - 13;
      delta := 13;
    }
    var len, lenExt := |data|, 0;
    if len > 12 {
      lenExt := len - 13;
      len := 13;
    }
    var header := JoinNibbles(delta, len);
    ghost var start := buf[..p];
    q := Put(buf, p, [header]);
    ghost var out: bytes := [header];
    if delta == 13 {
      q := Put(buf, q, [deltaExt]);
      ConcatAssoc(start, out, [deltaExt]);
      out := out + [deltaExt];
    }
    if len == 13 {
      q := Put(buf, q, [lenExt]);
      ConcatAssoc(start, out, [lenExt]);
      out := out + [lenExt];
    }
    q := Put(buf, q, data);
    ConcatAssoc(start, out, data);
    ok := true;
    OptionLayout(last, num, data, out);
  }

  lemma OptionLayout(last: nat, num: nat, data: bytes, out: bytes)
    requires Writable(last, Opt(num, data))
    requires out == [Nibble(num - last) * 16 + Nibble(|data|)] +
                    (if num - last > 12 then [num - last - 13] else []) + (if |data| > 12 then [|data| - 13] else [])
    ensures EncodeOption(last, Opt(num, data)) == out + data
  {
  }

  /** The option number the next delta is taken from. */
  function LastNum(last: nat, opts: seq<Opt>): nat {
    if opts == [] then last else opts[|opts| - 1].num
  }

  lemma {:induction false} OptionsAppend(last: nat, a: seq<Opt>, b: seq<Opt>)
    ensures AllWritable(last, a + b) <==> AllWritable(last, a) && AllWritable(LastNum(last, a), b)
    ensures AllWritable(last, a + b) ==>
      EncodeOptions(last, a + b) == EncodeOptions(last, a) + EncodeOptions(LastNum(last, a), b)
    ensures ValuesSize(a + b) == ValuesSize(a) + ValuesSize(b)
    decreases |a|
  {
    hide EncodeOption;
    if a == [] {
      assert a + b == b;
    } else {
      assert (a + b)[1..] == a[1..] + b && (a + b)[0] == a[0];
      OptionsAppend(a[0].num, a[1..], b);
      if AllWritable(last, a + b) {
        ConcatAssoc(EncodeOption(last, a[0]), EncodeOptions(a[0].num, a[1..]), EncodeOptions(LastNum(last, a), b));
      }
    }
  }

  lemma {:induction false} ValuesSizeSplit(opts: seq<Opt>, i: nat)
    requires i < |opts|
    ensures ValuesSize(opts) == ValuesSize(opts[..i]) + |opts[i].val| + ValuesSize(opts[i + 1..])
  {
    if i == 0 {
      assert opts[..0] == [];
    } else {
      ValuesSizeSplit(opts[1..], i - 1);
      assert opts[1..][..i - 1] == opts[..i][1..] && opts[1..][i..] == opts[i + 1..];
      assert opts[..i][0] == opts[0];
    }
  }

  /** A series of COAP_WriteOption calls; ok is false where an assertion fails in one of them. */
  method WriteOptions(opts: seq<Opt>, buf: array<byte>, p: nat, last: nat) returns (ok: bool, q: nat)
    requires p + 3 * |opts| + ValuesSize(opts) <= buf.Length
    modifies buf
    ensures ok <==> AllWritable(last, opts)
    ensures ok ==> p <= q <= p + 3 * |opts| + ValuesSize(opts)
    ensures ok ==> buf[..q] == old(buf[..p]) + EncodeOptions(last, opts)
  {
    hide EncodeOption, AllWritable, ValuesSize, EncodeOptions, Writable;
    ghost var start := buf[..p];
    ok, q := true, p;
    var i := 0;
    assert opts[..0] == [];
    assert AllWritable(last, []) && EncodeOptions(last, []) == [] && ValuesSize([]) == 0 by { NoOptions(last); }
    assert start + [] == start;
    while i < |opts|
      invariant 0 <= i <= |opts| && AllWritable(last, opts[..i])
      invariant p <= q <= p + 3 * i + ValuesSize(opts[..i])
      invariant q <= buf.Length && buf[..q] == start + EncodeOptions(last, opts[..i])
    {
      var before := LastNum(last, opts[..i]);
      ValuesSizeSplit(opts, i);
      OneMore(last, opts, i);
      ghost var done := EncodeOptions(last, opts[..i]);
      ok, q := WriteOption(opts[i].num, opts[i].val, buf, q, before);
      if !ok {
        return;
      }
      ConcatAssoc(start, done, EncodeOption(before, opts[i]));
      i := i + 1;
    }
    assert opts[..i] == opts;
  }

  lemma NoOptions(last: nat)
    ensures AllWritable(last, []) && EncodeOptions(last, []) == [] && ValuesSize([]) == 0
  {
  }

  lemma OneMore(last: nat, opts: seq<Opt>, i: nat)
    requires i < |opts| && AllWritable(last, opts[..i])
    ensures var before := LastNum(last, opts[..i]);
      && AllWritable(last, opts[..i + 1]) == Writable(before, opts[i])
      && (Writable(before, opts[i]) ==>
            EncodeOptions(last, opts[..i + 1]) == EncodeOptions(last, opts[..i]) + EncodeOption(before, opts[i]))
      && (!Writable(before, opts[i]) ==> !AllWritable(last, opts))
      && ValuesSize(opts[..i + 1]) == ValuesSize(opts[..i]) + |opts[i].val|
  {
    hide EncodeOption, Writable;
    var before := LastNum(last, opts[..i]);
    assert opts[..i + 1] == opts[..i] + [opts[i]];
    OptionsAppend(last, opts[..i], [opts[i]]);
    assert [opts[i]][1..] == [];
    assert AllWritable(before, [opts[i]]) == Writable(before, opts[i]);
    if Writable(before, opts[i]) {
      assert EncodeOptions(before, [opts[i]]) == EncodeOption(before, opts[i]) + [];
    }
    assert opts == opts[..i + 1] + opts[i + 1..];
    OptionsAppend(last, opts[..i + 1], opts[i + 1..]);
    assert ValuesSize([opts[i]]) == |opts[i].val|;
  }

  /** COAP_CalcBlockOption: a block number that does not fit 20 bits is masked, as BlockNumberWraps reads it back. */
  method CalcBlockOption(b: Block) returns (v: bytes)
    requires ValidBlockSize(b.size)
    ensures v == EncodeBlock(b)
  {
    hide Quot, Rem, Store, ModifyBits, BlockSizeToCode, BlockValue;
    var code := BlockSizeToCode(b.size);
    var m := if b.more then 1 else 0;
    var n := if b.num < 16 then 1 else if b.num < 4096 then 2 else 3;
    var range := if n == 1 then 0x10 else if n == 2 then 0x1000 else 0x10_0000;
    NumberField(b.num, range);
    MoreField(b.num % range, m);
    CodeField(b.num % range * 2 + m, code);
    var option := ModifyBits(0, 16, range, b.num);
    option := ModifyBits(option, 8, 2, m);
    option := ModifyBits(option, 1, 8, code);
    v := Store(n, option);
    MaskedBlock(b, range, option);
  }

  lemma NumberField(num: nat, range: nat)
    requires range > 0
    ensures num % range >= 0 && ModifyBits(0, 16, range, num) == num % range * 16
  {
    ModifyBitsMasks(0, 16, range, num);
    ModifyBitsAppends(0, 0, 16, range, num % range);
  }

  lemma MoreField(num: nat, m: nat)
    requires m < 2
    ensures ModifyBits(num * 16, 8, 2, m) == (num * 2 + m) * 8
  {
    ModifyBitsAppends(num * 16, num, 8, 2, m);
  }

  lemma CodeField(high: nat, code: nat)
    requires code < 8
    ensures ModifyBits(high * 8, 1, 8, code) == high * 8 + code
  {
    ModifyBitsAppends(high * 8, high, 1, 8, code);
  }

  /** Only a number of more than 20 bits loses anything. */
  lemma MaskedBlock(b: Block, range: nat, option: nat)
    requires ValidBlockSize(b.size)
    requires range == if b.num < 16 then 0x10 else if b.num < 4096 then 0x1000 else 0x10_0000
    requires option == (b.num % range * 2 + if b.more then 1 else 0) * 8 + BlockSizeToCode(b.size)
    ensures Store(BlockOptionSize(b.num), option) == EncodeBlock(b)
  {
    hide BlockSizeToCode, Store;
    if b.num < 4096 {
      DivModUnique(0, range, b.num);
      assert option == BlockValue(b);
    } else {
      var num := b.num % range;
      assert option == BlockValue(b.(num := num));
      WideBlock(b, num, b.num / range);
    }
  }

  /** option_walker_t: a position in the datagram and the option found there. */
  class OptionWalker {
    const data: bytes
    var pos: nat
    var cur: nat
    var value: bytes

    ghost predicate Valid()
      reads this
    {
      pos <= |data|
    }

    constructor (data: bytes, pos: nat)
      requires pos <= |data|
      ensures Valid() && this.data == data && this.pos == pos && cur == 0
    {
      this.data := data;
      this.pos := pos;
      cur, value := 0, [];
    }

    /** READ of an option_delta_ext or option_len_ext. */
    method ReadExtension(nibble: nat) returns (n: nat)
      requires Valid() && nibble < 15 && pos + ExtensionSize(nibble) <= |data|
      modifies `pos
      ensures pos == old(pos) + ExtensionSize(nibble) && Valid()
      ensures n == Extended(nibble, data[old(pos)..pos])
    {
      n := nibble;
      if nibble == 13 {
        n := Convert(data[pos..pos + 1]) + 13;
        pos := pos + 1;
      } else if nibble == 14 {
        n := Convert(data[pos..pos + 2]) + 269;
        pos := pos + 2;
      }
    }

    /** WalkCoapOption; on failure the walker is left where the source stops caring about it. */
    method Walk() returns (ok: bool)
      requires Valid()
      modifies this
      ensures Valid()
      ensures var w := WalkOption(old(data[pos..]), old(cur));
        && ok == w.Some?
        && (ok ==> cur == w.value.opt.num && value == w.value.opt.val && data[pos..] == w.value.rest)
    {
      hide Quot, Rem, Convert, WalkOption, Extended;
      ok := false;
      WalkAt(data, pos, cur);
      if pos == |data| {
        return;
      }
      var delta, len := SplitNibbles(data[pos]);
      pos := pos + 1;
      if delta == 15 || len == 15 {
        return;
      }
      var required := 0;
      if delta > 12 {
        required := required + delta - 12;
      }
      if len > 12 {
        required := required + len - 12;
      }
      if |data| - pos < required {
        return;
      }
      var number := ReadExtension(delta);
      var size := ReadExtension(len);
      if |data| - pos < size {
        return;
      }
      value := data[pos..pos + size];
      pos := pos + size;
      cur := cur + number;
      ok := true;
    }
  }

  /** WalkOption by positions in the whole buffer */
  function WalkFrom(data: bytes, at: nat, cur: nat): Option<Walk>
    requires at <= |data|
  {
    if at == |data| then None else
    var d, l := Quot(data[at], 16), Rem(data[at], 16);
    if d >= 15 || l >= 15 then None else
    var p := at + 1 + ExtensionSize(d);
    var q := p + ExtensionSize(l);
    if q > |data| then None else
    var len := Extended(l, data[p..q]);
    if |data| - q < len then None
    else Some(Walk(Opt(cur + Extended(d, data[at + 1..p]), data[q..q + len]), data[q + len..]))
  }

  lemma WalkAt(data: bytes, at: nat, cur: nat)
    requires at <= |data|
    ensures WalkOption(data[at..], cur) == WalkFrom(data, at, cur)
  {
    hide Quot, Rem, Extended;
    if at < |data| {
      var d, l := Quot(data[at], 16), Rem(data[at], 16);
      var xd, xl := ExtensionSize(d), ExtensionSize(l);
      if d < 15 && l < 15 && at + 1 + xd + xl <= |data| {
        SliceOfDrop(data, at, 1, 1 + xd);
        SliceOfDrop(data, at, 1 + xd, 1 + xd + xl);
        var n := 1 + xd + xl;
        var len := Extended(l, data[at + 1 + xd..at + n]);
        if at + n + len <= |data| {
          SliceOfDrop(data, at, n, n + len);
          DropDrop(data, at, n + len);
        }
      }
    }
  }

  lemma SliceOfDrop(s: bytes, at: nat, i: nat, j: nat)
    requires i <= j && at + j <= |s|
    ensures s[at..][i..j] == s[at + i..at + j]
  {
  }

  /** The option loop of COAP_ParsePdu */
  method ParseOptionsAt(data: bytes, pos: nat, base: Pdu, queryOk: bytes -> bool) returns (r: Parsed, end: nat)
    requires pos <= |data|
    ensures end <= |data|
    ensures r == ParseOptions(data[pos..], 0, base, queryOk).0
    ensures r.flags == {} ==> data[end..] == ParseOptions(data[pos..], 0, base, queryOk).1
  {
    hide WalkOption, ParseOption;
    var walker := new OptionWalker(data, pos);
    r := Parsed({}, base);
    while walker.pos < |data| && data[walker.pos] != END_MARKER
      invariant walker.data == data && walker.Valid() && r.flags == {}
      invariant ParseOptions(data[pos..], 0, base, queryOk) == ParseOptions(data[walker.pos..], walker.cur, r.pdu,
          queryOk)
      decreases |data| - walker.pos
    {
      ghost var rest := data[walker.pos..];
      assert rest != [] && rest[0] == data[walker.pos];
      var ok := walker.Walk();
      end := walker.pos;
      if !ok {
        r := Parsed({SendRst}, r.pdu);
        return;
      }
      r := ParseOption(Opt(walker.cur, walker.value), r.pdu, queryOk);
      if r.flags != {} {
        return;
      }
    }
    end := walker.pos;
  }

  lemma ConvertSnoc(b: bytes, x: byte)
    ensures Convert(b + [x]) == Convert(b) * 0x100 + x as int
  {
    assert (b + [x])[..|b|] == b;
  }

  lemma ConvertFour(b: bytes)
    requires |b| == 4
    ensures Convert(b) == ((b[0] as int * 0x100 + b[1] as int) * 0x100 + b[2] as int) * 0x100 + b[3] as int
    ensures Convert(b[2..]) == b[2] as int * 0x100 + b[3] as int
  {
    ConvertSnoc([], b[0]);
    ConvertSnoc([b[0]], b[1]);
    ConvertSnoc([b[0], b[1]], b[2]);
    ConvertSnoc([b[0], b[1], b[2]], b[3]);
    ConvertSnoc([], b[2]);
    ConvertSnoc([b[2]], b[3]);
    assert [] + [b[0]] == [b[0]] && [b[0]] + [b[1]] == [b[0], b[1]] && [b[0], b[1]] + [b[2]] == [b[0], b[1], b[2]];
    assert [b[0], b[1], b[2]] + [b[3]] == b;
    assert [] + [b[2]] == [b[2]] && [b[2]] + [b[3]] == b[2..];
  }

  /** READ_4_BYTES of the header and its BITS: the version and the other fields. */
  method ReadHeader(b: bytes) returns (version: nat, h: Header)
    requires |b| == COAP_HEADER_SIZE
    ensures version == Version(b[0]) && h == DecodeHeader(b)
  {
    var w := Convert(b);
    ghost var v, t := Quot(Quot(b[0], 16), 4), Rem(Quot(b[0], 16), 4);
    ghost var k, c, d := Rem(b[0], 16), Quot(b[1], 32), Rem(b[1], 32);
    ghost var mid := Convert(b[2..]);
    assert b[0] == (v * 4 + t) * 16 + k && b[1] == c * 32 + d && v < 4 && c < 8 by {
      QuotRemIsDivMod(b[0], 16);
      QuotRemIsDivMod(Quot(b[0], 16), 4);
      QuotRemIsDivMod(b[1], 32);
    }
    ConvertFour(b);
    hide Quot, Rem, Convert, Bits;
    var low2 := d * 0x1_0000 + mid;
    var low1 := c * 0x20_0000 + low2;
    var low0 := k * 0x100_0000 + low1;
    BitsOfField(w, 0, 0x4000_0000, 4, v, t * 0x1000_0000 + low0);
    BitsOfField(w, v, 0x1000_0000, 4, t, low0);
    BitsOfField(w, v * 4 + t, 0x100_0000, 16, k, low1);
    BitsOfField(w, (v * 4 + t) * 16 + k, 0x20_0000, 8, c, low2);
    BitsOfField(w, ((v * 4 + t) * 16 + k) * 8 + c, 0x1_0000, 32, d, mid);
    BitsOfField(w, (((v * 4 + t) * 16 + k) * 8 + c) * 32 + d, 1, 0x1_0000, mid, 0);
    version := Bits(w, 0x4000_0000, 4);
    h := Header(PduTypeOf(Bits(w, 0x1000_0000, 4)), Bits(w, 0x100_0000, 16), Bits(w, 0x20_0000, 8),
                Bits(w, 0x1_0000, 32), Bits(w, 1, 0x1_0000));
  }

  /** COAP_ParsePdu */
  method Parse(data: bytes, queryOk: bytes -> bool) returns (r: Parsed)
    ensures r == ParsePdu(data, queryOk)
  {
    hide ParseOptions, DecodeHeader, Version;
    if |data| < COAP_HEADER_SIZE {
      return Parsed({IgnorePdu}, EmptyPdu(Header(Reset, 0, 0, 0, 0)));
    }
    var version, h := ReadHeader(data[..COAP_HEADER_SIZE]);
    if version != COAP_VERSION || h.cls == 1 || h.cls == 6 || h.cls == 7 {
      return Parsed({SendRst}, TokenUnread(h));
    }
    if h.tokenSize > MAX_COAP_TOKEN_SIZE || |data| - COAP_HEADER_SIZE < h.tokenSize {
      return Parsed({SendRst}, TokenUnread(h));
    }
    var at := COAP_HEADER_SIZE + h.tokenSize;
    DropDrop(data, COAP_HEADER_SIZE, h.tokenSize);
    var end;
    r, end := ParseOptionsAt(data, at, EmptyPdu(h).(token := data[COAP_HEADER_SIZE..at]), queryOk);
    if r.flags != {} {
      return;
    }
    var payload := data[at..];
    if end < |data| {
      DropDrop(data, end, 1);
      payload := data[end + 1..];
    }
    r := Parsed({}, r.pdu.(payload := payload));
  }
}
