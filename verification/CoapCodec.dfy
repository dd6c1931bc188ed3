/**
 The CoAP wire format of coap_common.c: header, token, delta-encoded options,
 Block1 value, payload marker and payload.
 */
module CoapCodec {
  import opened CommonDefs

  const COAP_VERSION := 1
  const COAP_HEADER_SIZE := 4
  const MAX_COAP_PDU_SIZE := 1152
  const MAX_COAP_TOKEN_SIZE := 8
  const MAX_COAP_URI_PATH := 128
  const MAX_COAP_URI_QUERY := 128
  const END_MARKER: byte := 255
  const OCTET_STREAM: byte := 42

  // Option numbers
  const URI_HOST := 3
  const URI_PORT := 7
  const URI_PATH := 11
  const CONTENT_FORMAT := 12
  const URI_QUERY := 15
  const BLOCK2 := 23
  const BLOCK1 := 27
  const SIZE1 := 60

  /** What to do with a received PDU; the source's bit mask is a set of these. */
  datatype Action =
    | SendRst | SendAck
    | BadRequest | BadOption | NotFound | BadMethod | Incomplete | TooLarge | BadContent
    | WellKnown
    | SendNextUspRecord | SendNextBlock | IgnorePdu | ResetState | ResendLastResponse | UspRecordComplete

  /** INDICATE_ERR_IN_ACK */
  predicate IndicatesError(flags: set<Action>) {
    || BadRequest in flags || BadOption in flags || NotFound in flags || BadMethod in flags
    || Incomplete in flags || TooLarge in flags || BadContent in flags
  }

  datatype PduType = Confirmable | NonConfirmable | Acknowledgement | Reset

  function PduTypeCode(t: PduType): nat {
    match t case Confirmable => 0 case NonConfirmable => 1 case Acknowledgement => 2 case Reset => 3
  }

  function PduTypeOf(n: nat): PduType {
    if n == 0 then Confirmable else if n == 1 then NonConfirmable else if n == 2 then Acknowledgement else Reset
  }

  datatype Header = Header(pduType: PduType, tokenSize: nat, cls: nat, code: nat, mid: nat) {
    predicate Valid() {
      tokenSize < 16 && cls < 8 && code < 32 && mid < 0x1_0000
    }
  }

  datatype Block = Block(num: nat, more: bool, size: nat)

  datatype Opt = Opt(num: nat, val: bytes)

  /** parsed_pdu_t. An absent option is None (the source clears its bit in options_present). */
  datatype Pdu = Pdu(
    hdr: Header, token: bytes,
    block1: Option<Block>, uriPath: Option<bytes>, uriQuery: Option<bytes>,
    contentFormat: Option<nat>, size1: Option<nat>, payload: bytes)

  /** The result of COAP_ParsePdu: no flags means the PDU was parsed in full. */
  datatype Parsed = Parsed(flags: set<Action>, pdu: Pdu)

  // ---------------------------------------------------------------- header

  /** The four header bytes: version, type and token size; class and code; message id. */
  function EncodeHeader(h: Header): (b: bytes)
    requires h.Valid()
    ensures |b| == COAP_HEADER_SIZE
  {
    [(COAP_VERSION * 4 + PduTypeCode(h.pduType)) * 16 + h.tokenSize, h.cls * 32 + h.code] + Store(2, h.mid)
  }

  function DecodeHeader(b: bytes): (h: Header)
    requires |b| == COAP_HEADER_SIZE
    ensures h.Valid()
  {
    QuotRemIsDivMod(b[1], 32);
    ConvertBound(b[2..]);
    Pow256Small();
    Header(PduTypeOf(Rem(Quot(b[0], 16), 4)), Rem(b[0], 16), Quot(b[1], 32), Rem(b[1], 32), Convert(b[2..]))
  }

  function Version(b0: byte): nat {
    Quot(Quot(b0, 16), 4)
  }

  lemma HeaderRoundTrip(h: Header)
    requires h.Valid()
    ensures DecodeHeader(EncodeHeader(h)) == h && Version(EncodeHeader(h)[0]) == COAP_VERSION
  {
    var b := EncodeHeader(h);
    var t := PduTypeCode(h.pduType);
    QuotRemUnique(4 + t, 16, h.tokenSize, b[0]);
    QuotRemUnique(1, 4, t, 4 + t);
    QuotRemUnique(h.cls, 32, h.code, b[1]);
    Pow256Small();
    StoreConvert(2, h.mid);
    assert b[2..] == Store(2, h.mid);
  }

  // ---------------------------------------------------------------- Block1

  predicate ValidBlockSize(size: nat) {
    size == 16 || size == 32 || size == 64 || size == 128 || size == 256 || size == 512 || size == 1024
  }

  /** CalcBlockSize_Int2Pdu; any other size ends the program (TERMINATE_BAD_CASE). */
  function BlockSizeToCode(size: nat): (code: nat)
    requires ValidBlockSize(size)
    ensures code < 7
  {
    if size == 1024 then 6 else if size == 512 then 5 else if size == 256 then 4
    else if size == 128 then 3 else if size == 64 then 2 else if size == 32 then 1 else 0
  }

  /** CalcBlockSize_Pdu2Int: 1 << (4 + code). The reserved code 7 reads as 2048. */
  function BlockSizeFromCode(code: nat): (size: nat)
    requires code < 8
    ensures code < 7 ==> ValidBlockSize(size) && BlockSizeToCode(size) == code
    ensures code == 7 ==> size == 2048
  {
    if code == 0 then 16 else if code == 1 then 32 else if code == 2 then 64 else if code == 3 then 128
    else if code == 4 then 256 else if code == 5 then 512 else if code == 6 then 1024 else 2048
  }

  function BlockOptionSize(num: nat): (n: nat)
    ensures 1 <= n <= 3
  {
    if num < 16 then 1 else if num < 4096 then 2 else 3
  }

  function BlockValue(b: Block): nat
    requires ValidBlockSize(b.size)
  {
    b.num * 16 + (if b.more then 8 else 0) + BlockSizeToCode(b.size)
  }

  /** The value of a Block1 option: the shortest of one to three bytes that holds it. */
  function EncodeBlock(b: Block): (v: bytes)
    requires ValidBlockSize(b.size)
    ensures |v| == BlockOptionSize(b.num)
  {
    Store(BlockOptionSize(b.num), BlockValue(b))
  }

  lemma Pow256Small()
    ensures Pow256(0) == 1 && Pow256(1) == 0x100 && Pow256(2) == 0x1_0000 && Pow256(3) == 0x100_0000
  {
    assert Pow256(3) == 0x100 * Pow256(2);
  }

  function DecodeBlock(v: bytes): (b: Block)
    requires |v| <= 3
    ensures b.num < 0x10_0000
    ensures ValidBlockSize(b.size) || b.size == 2048
  {
    var w := Convert(v);
    assert Quot(w, 16) < 0x10_0000 by {
      ConvertBound(v);
      Pow256Small();
      QuotRemIsDivMod(w, 16);
    }
    Block(Quot(w, 16), Rem(Quot(w, 8), 2) == 1, BlockSizeFromCode(Rem(w, 8)))
  }

  lemma BlockRoundTrip(b: Block)
    requires ValidBlockSize(b.size) && b.num < 0x10_0000
    ensures DecodeBlock(EncodeBlock(b)) == b
  {
    var v, code := BlockValue(b), BlockSizeToCode(b.size);
    assert Convert(EncodeBlock(b)) == v by {
      Pow256Small();
      StoreConvert(BlockOptionSize(b.num), v);
    }
    BlockFields(b.num, if b.more then 1 else 0, code, v);
  }

  /** A block number that does not fit its field is taken modulo 2^20. */
  lemma BlockNumberWraps(b: Block)
    requires ValidBlockSize(b.size)
    ensures DecodeBlock(EncodeBlock(b)) == b.(num := Rem(b.num, 0x10_0000))
  {
    var m, k := Rem(b.num, 0x10_0000), Quot(b.num, 0x10_0000);
    QuotRemIsDivMod(b.num, 0x10_0000);
    if b.num < 0x10_0000 {
      BlockRoundTrip(b);
    } else {
      var v := BlockValue(b.(num := m));
      WideBlock(b, m, k);
      assert Convert(Store(3, v)) == v by {
        Pow256Small();
        StoreConvert(3, v);
      }
      BlockFields(m, if b.more then 1 else 0, BlockSizeToCode(b.size), v);
    }
  }

  lemma WideBlock(b: Block, m: nat, k: nat)
    requires ValidBlockSize(b.size) && b.num == k * 0x10_0000 + m && b.num >= 4096
    ensures EncodeBlock(b) == Store(3, BlockValue(b.(num := m)))
  {
    Pow256Small();
    assert BlockValue(b) == BlockValue(b.(num := m)) + k * Pow256(3);
    StoreWraps(3, BlockValue(b.(num := m)), k);
  }

  lemma BlockFields(num: nat, m: nat, code: nat, v: nat)
    requires m < 2 && code < 8 && v == num * 16 + m * 8 + code
    ensures Quot(v, 16) == num && Rem(Quot(v, 8), 2) == m && Rem(v, 8) == code
  {
    QuotRemUnique(num, 16, m * 8 + code, v);
    QuotRemUnique(num * 2 + m, 8, code, v);
    QuotRemUnique(num, 2, m, num * 2 + m);
  }

  // ---------------------------------------------------------------- options

  /** The header nibble that announces n: 13 stands for one extension byte. */
  function Nibble(n: nat): (d: nat)
    ensures d < 14
  {
    if n > 12 then 13 else n
  }

  /** The extension byte, present exactly when the nibble is 13. */
  function Extension(n: nat): bytes
    requires n < 268
  {
    if n > 12 then [n - 13] else []
  }

  /** An option COAP_WriteOption can write after option number last: its asserts hold. */
  predicate Writable(last: nat, o: Opt) {
    last <= o.num && o.num - last < 268 && |o.val| < 268
  }

  /** COAP_WriteOption: nibbles of delta and length, their extensions, the value. */
  function EncodeOption(last: nat, o: Opt): (b: bytes)
    requires Writable(last, o)
    ensures |b| <= |o.val| + 3 && |b| > 0 && b[0] != END_MARKER
  {
    [Nibble(o.num - last) * 16 + Nibble(|o.val|)] + Extension(o.num - last) + Extension(|o.val|) + o.val
  }

  predicate AllWritable(last: nat, opts: seq<Opt>)
    decreases |opts|
  {
    opts == [] || (Writable(last, opts[0]) && AllWritable(opts[0].num, opts[1..]))
  }

  function EncodeOptions(last: nat, opts: seq<Opt>): bytes
    requires AllWritable(last, opts)
    decreases |opts|
  {
    if opts == [] then [] else EncodeOption(last, opts[0]) + EncodeOptions(opts[0].num, opts[1..])
  }

  /** The bytes the values of the options take. */
  function ValuesSize(opts: seq<Opt>): nat {
    if opts == [] then 0 else |opts[0].val| + ValuesSize(opts[1..])
  }

  /** option_walker_t after a successful WalkCoapOption; None is its SEND_RST result. */
  datatype Walk = Walk(opt: Opt, rest: bytes)

  /** Nibble 13 is followed by one extension byte, 14 by two. */
  function ExtensionSize(nibble: nat): nat {
    if nibble == 13 then 1 else if nibble == 14 then 2 else 0
  }

  function Extended(nibble: nat, ext: bytes): nat
    requires |ext| == ExtensionSize(nibble)
  {
    if nibble == 13 then Convert(ext) + 13 else if nibble == 14 then Convert(ext) + 269 else nibble
  }

  /** WalkCoapOption. The value and the rest are slices of the buffer, so nothing outside it is read. */
  function WalkOption(buf: bytes, cur: nat): (w: Option<Walk>)
    ensures w.Some? ==> |w.value.rest| < |buf|
  {
    if |buf| < 1 then None else
    var d, l := Quot(buf[0], 16), Rem(buf[0], 16);
    if d >= 15 || l >= 15 then None else
    var xd, xl := ExtensionSize(d), ExtensionSize(l);
    if |buf| - 1 < xd + xl then None else
    var delta := Extended(d, buf[1..1 + xd]);
    var len := Extended(l, buf[1 + xd..1 + xd + xl]);
    var at := 1 + xd + xl;
    if |buf| - at < len then None
    else Some(Walk(Opt(cur + delta, buf[at..at + len]), buf[at + len..]))
  }

  lemma Slices(a: bytes, b: bytes, c: bytes, v: bytes, tail: bytes)
    ensures var buf := a + b + c + v + tail;
      && buf[|a|..|a| + |b|] == b
      && buf[|a| + |b|..|a| + |b| + |c|] == c
      && buf[|a| + |b| + |c|..|a| + |b| + |c| + |v|] == v
      && buf[|a| + |b| + |c| + |v|..] == tail
  {
  }

  lemma ExtensionRoundTrip(n: nat)
    requires n < 268
    ensures |Extension(n)| == ExtensionSize(Nibble(n)) && Extended(Nibble(n), Extension(n)) == n
  {
    if n > 12 {
      ConvertOne(n - 13);
    }
  }

  /** Writing an option and walking it gives the option back, and what followed it. */
  lemma OptionRoundTrip(last: nat, o: Opt, tail: bytes)
    requires Writable(last, o)
    ensures WalkOption(EncodeOption(last, o) + tail, last) == Some(Walk(o, tail))
  {
    var delta, len := o.num - last, |o.val|;
    ExtensionRoundTrip(delta);
    ExtensionRoundTrip(len);
    var h: bytes := [Nibble(delta) * 16 + Nibble(len)];
    QuotRemUnique(Nibble(delta), 16, Nibble(len), h[0]);
    Slices(h, Extension(delta), Extension(len), o.val, tail);
    var buf := EncodeOption(last, o) + tail;
    assert buf == h + Extension(delta) + Extension(len) + o.val + tail;
    assert buf[0] == h[0];
  }

  /** Every option up to the end of the buffer or the payload marker, and what is left from there. */
  function WalkAll(buf: bytes, cur: nat): (r: Option<(seq<Opt>, bytes)>)
    decreases |buf|
  {
    if buf == [] || buf[0] == END_MARKER then Some(([], buf)) else
    var w := WalkOption(buf, cur);
    if w.None? then None else
    var r := WalkAll(w.value.rest, w.value.opt.num);
    if r.None? then None else Some(([w.value.opt] + r.value.0, r.value.1))
  }

  lemma WalkIsSlice(buf: bytes, cur: nat)
    requires WalkOption(buf, cur).Some?
    ensures var w := WalkOption(buf, cur).value;
      && |w.opt.val| + |w.rest| < |buf| && IsTail(w.rest, buf)
      && buf[|buf| - |w.rest| - |w.opt.val|..|buf| - |w.rest|] == w.opt.val
  {
  }

  /** end is what is left of buf from some position on. */
  predicate IsTail(end: bytes, buf: bytes) {
    |end| <= |buf| && buf[|buf| - |end|..] == end
  }

  lemma TailOfTail(end: bytes, mid: bytes, buf: bytes)
    requires IsTail(end, mid) && IsTail(mid, buf)
    ensures IsTail(end, buf)
  {
  }

  /** Walking stops at a tail of the buffer that is empty or starts with the marker. */
  lemma {:induction false} WalkAllIsSuffix(buf: bytes, cur: nat)
    requires WalkAll(buf, cur).Some?
    ensures var end := WalkAll(buf, cur).value.1; IsTail(end, buf) && (end == [] || end[0] == END_MARKER)
    decreases |buf|
  {
    hide WalkOption, IsTail;
    if buf == [] || buf[0] == END_MARKER {
      WholeIsTail(buf);
    } else {
      var w := WalkOption(buf, cur).value;
      WalkIsSlice(buf, cur);
      WalkAllIsSuffix(w.rest, w.opt.num);
      TailOfTail(WalkAll(buf, cur).value.1, w.rest, buf);
    }
  }

  lemma WholeIsTail(buf: bytes)
    ensures IsTail(buf, buf)
  {
  }

  lemma WalkAllStep(buf: bytes, cur: nat, o: Opt, rest: bytes, opts: seq<Opt>, tail: bytes)
    requires buf != [] && buf[0] != END_MARKER
    requires WalkOption(buf, cur) == Some(Walk(o, rest))
    requires WalkAll(rest, o.num) == Some((opts, tail))
    ensures WalkAll(buf, cur) == Some(([o] + opts, tail))
  {
  }

  lemma EncodeOptionsStep(last: nat, opts: seq<Opt>, tail: bytes)
    requires AllWritable(last, opts) && opts != []
    ensures Writable(last, opts[0]) && AllWritable(opts[0].num, opts[1..])
    ensures var first, rest := EncodeOption(last, opts[0]), EncodeOptions(opts[0].num, opts[1..]) + tail;
      && EncodeOptions(last, opts) + tail == first + rest
      && (first + rest)[0] == first[0] != END_MARKER
  {
    hide EncodeOption;
    ConcatAssoc(EncodeOption(last, opts[0]), EncodeOptions(opts[0].num, opts[1..]), tail);
  }

  /** Any writable option list is walked back as exactly that list. */
  lemma {:induction false} OptionsRoundTrip(last: nat, opts: seq<Opt>, tail: bytes)
    requires AllWritable(last, opts)
    requires tail == [] || tail[0] == END_MARKER
    ensures WalkAll(EncodeOptions(last, opts) + tail, last) == Some((opts, tail))
    decreases |opts|
  {
    if opts == [] {
      assert EncodeOptions(last, opts) + tail == tail;
    } else {
      hide EncodeOption, WalkOption, WalkAll, EncodeOptions, AllWritable;
      EncodeOptionsStep(last, opts, tail);
      var o, rest := opts[0], EncodeOptions(opts[0].num, opts[1..]) + tail;
      OptionRoundTrip(last, o, rest);
      OptionsRoundTrip(o.num, opts[1..], tail);
      WalkAllStep(EncodeOption(last, o) + rest, last, o, rest, opts[1..], tail);
      assert [o] + opts[1..] == opts;
    }
  }

  // ---------------------------------------------------------------- PDU

  /** The lengths ParseCoapOption refuses. */
  predicate WrongLength(num: nat, len: nat) {
    || ((num == URI_HOST || num == URI_PATH || num == URI_QUERY) && len == 0)
    || (num == CONTENT_FORMAT && len > 2)
    || (num == URI_PORT && len != 2)
    || (num == SIZE1 && len > 4)
    || (num == BLOCK1 && len > 3)
  }

  /** AppendUriPath: segments joined by '/', cut to the size of the C buffer. */
  function AppendUriPath(path: bytes, segment: bytes): bytes {
    if path == [] then CString(Take(segment, MAX_COAP_URI_PATH - 1))
    else Take(path + ['/' as int] + CString(Take(segment, MAX_COAP_URI_PATH - 2)), MAX_COAP_URI_PATH - 1)
  }

  function GetOr(o: Option<bytes>, default: bytes): bytes {
    if o.Some? then o.value else default
  }

  /**
   ParseCoapOption. queryOk says whether ParseCoapUriQuery accepts a reply-to string.
   */
  function ParseOption(o: Opt, pdu: Pdu, queryOk: bytes -> bool): Parsed {
    if WrongLength(o.num, |o.val|) then Parsed({SendRst}, pdu)
    else if o.num == URI_HOST || o.num == URI_PORT || o.num == BLOCK2 then Parsed({}, pdu)
    else if o.num == URI_PATH then
      Parsed({}, pdu.(uriPath := Some(AppendUriPath(GetOr(pdu.uriPath, []), o.val))))
    else if o.num == URI_QUERY then
      var query := CString(Take(o.val, MAX_COAP_URI_QUERY - 1));
      Parsed(if queryOk(query) then {} else {SendAck, BadOption}, pdu.(uriQuery := Some(query)))
    else if o.num == CONTENT_FORMAT then Parsed({}, pdu.(contentFormat := Some(Convert(o.val))))
    else if o.num == BLOCK1 then Parsed({}, pdu.(block1 := Some(DecodeBlock(o.val))))
    else if o.num == SIZE1 then Parsed({}, pdu.(size1 := Some(Convert(o.val))))
    else if o.num % 2 == 1 then
      Parsed(if pdu.hdr.pduType.Confirmable? then {SendAck, BadOption} else {SendRst}, pdu)
    else Parsed({}, pdu)
  }

  /** Options applied in order until one of them is refused. */
  function ParseOptionList(opts: seq<Opt>, pdu: Pdu, queryOk: bytes -> bool): Parsed
    decreases |opts|
  {
    if opts == [] then Parsed({}, pdu) else
    var r := ParseOption(opts[0], pdu, queryOk);
    if r.flags != {} then r else ParseOptionList(opts[1..], r.pdu, queryOk)
  }

  /** The option loop of COAP_ParsePdu: walk one, parse one. The second result is the unread part. */
  function ParseOptions(buf: bytes, cur: nat, pdu: Pdu, queryOk: bytes -> bool): (Parsed, bytes)
    decreases |buf|
  {
    if buf == [] || buf[0] == END_MARKER then (Parsed({}, pdu), buf) else
    var w := WalkOption(buf, cur);
    if w.None? then (Parsed({SendRst}, pdu), buf) else
    var r := ParseOption(w.value.opt, pdu, queryOk);
    if r.flags != {} then (r, w.value.rest)
    else ParseOptions(w.value.rest, w.value.opt.num, r.pdu, queryOk)
  }

  /** When the whole option area can be walked, the loop is the list fold over it. */
  lemma {:induction false} ParseOptionsFold(buf: bytes, cur: nat, pdu: Pdu, queryOk: bytes -> bool)
    ensures var r := ParseOptions(buf, cur, pdu, queryOk);
      var w := WalkAll(buf, cur);
      && (w.Some? ==> r.0 == ParseOptionList(w.value.0, pdu, queryOk))
      && (r.0.flags == {} ==> w.Some? && r.1 == w.value.1)
    decreases |buf|
  {
    if buf != [] && buf[0] != END_MARKER {
      var w := WalkOption(buf, cur);
      if w.Some? {
        var r := ParseOption(w.value.opt, pdu, queryOk);
        ParseOptionsFold(w.value.rest, w.value.opt.num, r.pdu, queryOk);
        var all := WalkAll(w.value.rest, w.value.opt.num);
        if all.Some? {
          var opts := [w.value.opt] + all.value.0;
          assert opts[1..] == all.value.0;
        }
      }
    }
  }

  function EmptyPdu(h: Header): Pdu {
    Pdu(h, [], None, None, None, None, None, [])
  }

  /** A PDU refused before its token was copied: the token is still zero, as long as the header says it is. */
  function TokenUnread(h: Header): Pdu {
    EmptyPdu(h).(token := Zeros(Min(h.tokenSize, MAX_COAP_TOKEN_SIZE)))
  }

  function Zeros(n: nat): (z: bytes)
    ensures |z| == n
  {
    if n == 0 then [] else [0] + Zeros(n - 1)
  }

  /** COAP_ParsePdu */
  function ParsePdu(buf: bytes, queryOk: bytes -> bool): Parsed {
    if |buf| < COAP_HEADER_SIZE then Parsed({IgnorePdu}, EmptyPdu(Header(Reset, 0, 0, 0, 0))) else
    var h := DecodeHeader(buf[..COAP_HEADER_SIZE]);
    var body := buf[COAP_HEADER_SIZE..];
    if Version(buf[0]) != COAP_VERSION || h.cls == 1 || h.cls == 6 || h.cls == 7
       || h.tokenSize > MAX_COAP_TOKEN_SIZE || |body| < h.tokenSize
    then Parsed({SendRst}, TokenUnread(h)) else
    var area := body[h.tokenSize..];
    var (r, rest) := ParseOptions(area, 0, EmptyPdu(h).(token := body[..h.tokenSize]), queryOk);
    if r.flags != {} then r
    else Parsed({}, r.pdu.(payload := if rest != [] then rest[1..] else area))
  }

  /** The bytes after the options: nothing, or the marker and a payload. */
  function Payload(body: Option<bytes>): bytes {
    if body.None? then [] else [END_MARKER] + body.value
  }

  /** A whole PDU as the writers lay it out. */
  function EncodePdu(h: Header, token: bytes, opts: seq<Opt>, body: Option<bytes>): bytes
    requires h.Valid() && AllWritable(0, opts)
  {
    EncodeHeader(h) + token + EncodeOptions(0, opts) + Payload(body)
  }

  predicate Encodable(h: Header, token: bytes) {
    h.Valid() && h.tokenSize == |token| <= MAX_COAP_TOKEN_SIZE && h.cls != 1 && h.cls != 6 && h.cls != 7
  }

  /** COAP_ParsePdu on a buffer already cut into header, token and the area after them. */
  lemma ParsePieces(h: Header, token: bytes, area: bytes, queryOk: bytes -> bool)
    requires Encodable(h, token)
    ensures var (r, rest) := ParseOptions(area, 0, EmptyPdu(h).(token := token), queryOk);
      ParsePdu(EncodeHeader(h) + (token + area), queryOk) ==
      if r.flags != {} then r else Parsed({}, r.pdu.(payload := if rest != [] then rest[1..] else area))
  {
    HeaderRoundTrip(h);
    var head := EncodeHeader(h);
    var buf := head + (token + area);
    assert buf[..COAP_HEADER_SIZE] == head && buf[0] == head[0];
    assert buf[COAP_HEADER_SIZE..] == token + area;
    assert (token + area)[..|token|] == token && (token + area)[|token|..] == area;
  }

  /** Parsing a written PDU applies its options in order, then takes exactly its payload. */
  lemma PduRoundTrip(h: Header, token: bytes, opts: seq<Opt>, body: Option<bytes>, queryOk: bytes -> bool)
    requires Encodable(h, token) && AllWritable(0, opts)
    ensures var r := ParseOptionList(opts, EmptyPdu(h).(token := token), queryOk);
      && ParsePdu(EncodePdu(h, token, opts, body), queryOk) ==
         if r.flags != {} then r
         else Parsed({}, r.pdu.(payload := if body.Some? then body.value else EncodeOptions(0, opts)))
  {
    hide EncodeHeader, EncodeOptions, ParsePdu, ParseOptions, WalkAll, ParseOptionList, AllWritable;
    var o, tail := EncodeOptions(0, opts), Payload(body);
    assert EncodePdu(h, token, opts, body) == EncodeHeader(h) + (token + (o + tail));
    ParsePieces(h, token, o + tail, queryOk);
    OptionsRoundTrip(0, opts, tail);
    ParseOptionsFold(o + tail, 0, EmptyPdu(h).(token := token), queryOk);
    if body.None? {
      assert o + tail == o;
    } else {
      assert tail[1..] == body.value;
    }
  }

  /**
   How a datagram divides: header, token, options walked up to end, then either the end of the datagram
   (the payload is then the option area itself) or the marker and the payload.
   */
  predicate Divides(buf: bytes, p: Pdu, end: nat) {
    var at := COAP_HEADER_SIZE + |p.token|;
    && p.hdr.tokenSize == |p.token| <= MAX_COAP_TOKEN_SIZE
    && at <= end <= |buf|
    && p.token == buf[COAP_HEADER_SIZE..at]
    && WalkAll(buf[at..], 0).Some? && buf[end..] == WalkAll(buf[at..], 0).value.1
    && (if end == |buf| then p.payload == buf[at..] else buf[end] == END_MARKER && p.payload == buf[end + 1..])
  }

  lemma OptionAreaDivides(area: bytes, pdu: Pdu, queryOk: bytes -> bool)
    requires ParseOptions(area, 0, pdu, queryOk).0.flags == {}
    ensures var (r, rest) := ParseOptions(area, 0, pdu, queryOk);
      && r.pdu.hdr == pdu.hdr && r.pdu.token == pdu.token
      && WalkAll(area, 0).Some? && WalkAll(area, 0).value.1 == rest
      && |rest| <= |area| && area[|area| - |rest|..] == rest && (rest == [] || rest[0] == END_MARKER)
  {
    hide ParseOptions, WalkAll, ParseOptionList;
    ParseOptionsFold(area, 0, pdu, queryOk);
    OptionsKeepHeader(WalkAll(area, 0).value.0, pdu, queryOk);
    WalkAllIsSuffix(area, 0);
  }

  /** Every byte string that parses without error divides this way: nothing outside it is read. */
  lemma ParseAddsUp(buf: bytes, queryOk: bytes -> bool) returns (end: nat)
    requires ParsePdu(buf, queryOk).flags == {}
    ensures Divides(buf, ParsePdu(buf, queryOk).pdu, end)
  {
    hide ParseOptions, WalkAll, DecodeHeader, Version;
    var h := DecodeHeader(buf[..COAP_HEADER_SIZE]);
    var at := COAP_HEADER_SIZE + h.tokenSize;
    var area, token := buf[at..], buf[COAP_HEADER_SIZE..at];
    DropDrop(buf, COAP_HEADER_SIZE, h.tokenSize);
    var pdu := EmptyPdu(h).(token := token);
    OptionAreaDivides(area, pdu, queryOk);
    var rest := ParseOptions(area, 0, pdu, queryOk).1;
    end := |buf| - |rest|;
    DropDrop(buf, at, end - at);
    if rest != [] {
      DropDrop(buf, end, 1);
    }
  }

  /** Options never change the header or the token. */
  lemma {:induction false} OptionsKeepHeader(opts: seq<Opt>, pdu: Pdu, queryOk: bytes -> bool)
    ensures var r := ParseOptionList(opts, pdu, queryOk).pdu; r.hdr == pdu.hdr && r.token == pdu.token
    decreases |opts|
  {
    if opts == [] {
    } else {
      OptionsKeepHeader(opts[1..], ParseOption(opts[0], pdu, queryOk).pdu, queryOk);
    }
  }

  // ---------------------------------------------------------------- options the parser does not know

  predicate Known(num: nat) {
    num in {URI_HOST, URI_PORT, URI_PATH, CONTENT_FORMAT, URI_QUERY, BLOCK1, BLOCK2, SIZE1}
  }

  /** Options accepted so far decide nothing about those behind them. */
  lemma {:induction false} OptionListSplit(a: seq<Opt>, b: seq<Opt>, pdu: Pdu, queryOk: bytes -> bool)
    ensures var r := ParseOptionList(a, pdu, queryOk);
      ParseOptionList(a + b, pdu, queryOk) == if r.flags != {} then r else ParseOptionList(b, r.pdu, queryOk)
    decreases |a|
  {
    if a == [] {
      assert a + b == b;
    } else {
      assert (a + b)[1..] == a[1..] + b && (a + b)[0] == a[0];
      OptionListSplit(a[1..], b, ParseOption(a[0], pdu, queryOk).pdu, queryOk);
    }
  }

  /**
   An option of a number the parser does not know, behind options it accepts: an even one is skipped, so that the PDU is
   read as if it were not there; an odd one makes a confirmable PDU bad, and any other one to be reset.
   */
  lemma UnknownOption(h: Header, token: bytes, a: seq<Opt>, o: Opt, b: seq<Opt>, body: bytes, queryOk: bytes -> bool)
    requires Encodable(h, token) && AllWritable(0, a + ([o] + b)) && AllWritable(0, a + b) && !Known(o.num)
    requires ParseOptionList(a, EmptyPdu(h).(token := token), queryOk).flags == {}
    ensures var r := ParsePdu(EncodePdu(h, token, a + ([o] + b), Some(body)), queryOk);
      if o.num % 2 == 0 then r == ParsePdu(EncodePdu(h, token, a + b, Some(body)), queryOk)
      else r.flags == if h.pduType.Confirmable? then {SendAck, BadOption} else {SendRst}
  {
    hide ParsePdu, EncodePdu, ParseOptionList, AllWritable;
    var p := EmptyPdu(h).(token := token);
    PduRoundTrip(h, token, a + ([o] + b), Some(body), queryOk);
    PduRoundTrip(h, token, a + b, Some(body), queryOk);
    OptionListSplit(a, [o] + b, p, queryOk);
    OptionListSplit(a, b, p, queryOk);
    OptionsKeepHeader(a, p, queryOk);
    UnknownFirst(o, b, ParseOptionList(a, p, queryOk).pdu, queryOk);
  }

  lemma UnknownFirst(o: Opt, b: seq<Opt>, pdu: Pdu, queryOk: bytes -> bool)
    requires !Known(o.num)
    ensures var r := ParseOptionList([o] + b, pdu, queryOk);
      if o.num % 2 == 0 then r == ParseOptionList(b, pdu, queryOk)
      else r.flags == if pdu.hdr.pduType.Confirmable? then {SendAck, BadOption} else {SendRst}
  {
    assert ([o] + b)[1..] == b && ([o] + b)[0] == o;
  }

  /** An option of a length its number does not allow, behind options that are accepted, makes a PDU to be reset. */
  lemma OptionLengths(h: Header, token: bytes, a: seq<Opt>, o: Opt, b: seq<Opt>, body: bytes, queryOk: bytes -> bool)
    requires Encodable(h, token) && AllWritable(0, a + ([o] + b))
    requires ParseOptionList(a, EmptyPdu(h).(token := token), queryOk).flags == {}
    ensures var r := ParsePdu(EncodePdu(h, token, a + ([o] + b), Some(body)), queryOk);
      && (o.num in {3, 11, 15} && o.val == [] ==> r.flags == {SendRst})
      && (o.num == 7 && |o.val| != 2 ==> r.flags == {SendRst})
      && (o.num == 12 && |o.val| > 2 ==> r.flags == {SendRst})
      && (o.num == 27 && |o.val| > 3 ==> r.flags == {SendRst})
      && (o.num == 60 && |o.val| > 4 ==> r.flags == {SendRst})
  {
    hide ParsePdu, EncodePdu, ParseOptionList, AllWritable;
    var p := EmptyPdu(h).(token := token);
    PduRoundTrip(h, token, a + ([o] + b), Some(body), queryOk);
    OptionListSplit(a, [o] + b, p, queryOk);
    if WrongLength(o.num, |o.val|) {
      FirstWrongLength(o, b, ParseOptionList(a, p, queryOk).pdu, queryOk);
    }
  }

  lemma FirstWrongLength(o: Opt, b: seq<Opt>, pdu: Pdu, queryOk: bytes -> bool)
    requires WrongLength(o.num, |o.val|)
    ensures ParseOptionList([o] + b, pdu, queryOk).flags == {SendRst}
  {
    assert ([o] + b)[0] == o;
  }

  /**
   Another version, a reserved class, a token longer than eight bytes or one that the datagram does not hold makes a PDU
   to be reset, under its own message id.
   */
  lemma HeaderRefused(version: nat, h: Header, rest: bytes, data: bytes, queryOk: bytes -> bool)
    requires version < 4 && h.Valid()
    requires data == [(version * 4 + PduTypeCode(h.pduType)) * 16 + h.tokenSize, h.cls * 32 + h.code] +
                     (Store(2, h.mid) + rest)
    requires version != 1 || h.cls in {1, 6, 7} || h.tokenSize > 8 || |rest| < h.tokenSize
    ensures ParsePdu(data, queryOk).flags == {SendRst} && ParsePdu(data, queryOk).pdu.hdr == h
  {
    hide ParseOptions;
    var t := PduTypeCode(h.pduType);
    var head := data[..COAP_HEADER_SIZE];
    assert head == [data[0], data[1]] + Store(2, h.mid) && data[COAP_HEADER_SIZE..] == rest;
    QuotRemUnique(version * 4 + t, 16, h.tokenSize, data[0]);
    QuotRemUnique(version, 4, t, version * 4 + t);
    QuotRemUnique(h.cls, 32, h.code, data[1]);
    Pow256Small();
    StoreConvert(2, h.mid);
    assert head[2..] == Store(2, h.mid);
  }

  // ---------------------------------------------------------------- bytes on the wire

  lemma StoreTwo(v: nat, a: byte, b: byte)
    requires v == a * 0x100 + b
    ensures Store(2, v) == [a, b] && Store(1, b) == [b]
  {
    QuotRemUnique(a, 0x100, b, v);
    QuotRemUnique(0, 0x100, a, a);
    QuotRemUnique(0, 0x100, b, b);
    assert Store(0, 0) == [] && [] + [a] == [a] && [a] + [b] == [a, b] && [] + [b] == [b];
    assert Store(1, a) == [a];
  }

  /** A confirmable POST with a token of four bytes, and the ACK that asks for the next block */
  lemma HeaderBytes()
    ensures EncodeHeader(Header(Confirmable, 4, 0, 2, 0x1234)) == [0x44, 0x02, 0x12, 0x34]
    ensures EncodeHeader(Header(Acknowledgement, 4, 2, 31, 0xBEEF)) == [0x64, 0x5F, 0xBE, 0xEF]
    ensures EncodeHeader(Header(Reset, 0, 0, 0, 1)) == [0x70, 0x00, 0x00, 0x01]
  {
    StoreTwo(0x1234, 0x12, 0x34);
    StoreTwo(0xBEEF, 0xBE, 0xEF);
    StoreTwo(1, 0, 1);
  }

  /** Block1 values of one and two bytes: number, more flag and size exponent */
  lemma BlockBytes()
    ensures EncodeBlock(Block(0, false, 16)) == [0x00] && EncodeBlock(Block(1, true, 1024)) == [0x1E]
    ensures EncodeBlock(Block(15, false, 64)) == [0xF2] && EncodeBlock(Block(16, true, 512)) == [0x01, 0x0D]
  {
    StoreTwo(0x00, 0, 0x00);
    StoreTwo(0x1E, 0, 0x1E);
    StoreTwo(0xF2, 0, 0xF2);
    StoreTwo(0x10D, 1, 0x0D);
  }

  /** Options with and without extensions of number and length */
  lemma OptionBytes(v: byte)
    ensures EncodeOption(0, Opt(URI_HOST, [v])) == [0x31, v]
    ensures EncodeOption(12, Opt(URI_QUERY, [v, v])) == [0x32, v, v]
    ensures EncodeOption(0, Opt(URI_QUERY, [v])) == [0xD1, 0x02, v]
    ensures EncodeOption(27, Opt(SIZE1, [v])) == [0xD1, 0x14, v]
    ensures var value := seq(13, i => v); EncodeOption(7, Opt(URI_PATH, value)) == [0x4D, 0x00] + value
  {
  }
}
