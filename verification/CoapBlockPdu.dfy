/**
 The PDUs the client and the server exchange, as the other side parses them.
 */
module CoapBlockPdu {
  import opened CommonDefs
  import opened CoapCodec
  import opened CoapClient
  import CoapServer

  /** Options the parser does not refuse: no empty host, path segment or query, and a reply-to it understands. */
  predicate WellFormed(cfg: Config, c: Client, queryOk: bytes -> bool)
    requires Sending(c)
  {
    && cfg.addrText(c.peerAddr).Some? && cfg.addrText(c.peerAddr).value != []
    && (forall i :: 0 <= i < |c.queue[0].resource| ==> c.queue[0].resource[i] != [])
    && c.query != [] && queryOk(QueryText(c.query))
    && c.curBlock < 0x10_0000
  }

  function QueryText(query: bytes): bytes {
    CString(Take(query, MAX_COAP_URI_QUERY - 1))
  }

  /** The segments as AppendUriPath joins them. */
  function JoinPath(path: Option<bytes>, segments: seq<bytes>): Option<bytes>
    decreases |segments|
  {
    if segments == [] then path else JoinPath(Some(AppendUriPath(GetOr(path, []), segments[0])), segments[1..])
  }

  /** What the receiver should read out of the current block's PDU. */
  function BlockPdu(c: Client): Pdu
    requires Sending(c)
  {
    Pdu(BlockHeader(c), c.token, Some(Block(c.curBlock, MoreBlocks(c), c.blockSize)),
        JoinPath(None, c.queue[0].resource), Some(QueryText(c.query)), Some(OCTET_STREAM as nat),
        Some(Convert(Store(2, |c.queue[0].payload|))), BlockPayload(c))
  }

  lemma {:induction false} OptionListConcat(a: seq<Opt>, b: seq<Opt>, p: Pdu, queryOk: bytes -> bool)
    requires ParseOptionList(a, p, queryOk).flags == {}
    ensures ParseOptionList(a + b, p, queryOk) == ParseOptionList(b, ParseOptionList(a, p, queryOk).pdu, queryOk)
    decreases |a|
  {
    hide ParseOption;
    if a == [] {
      assert a + b == b;
    } else {
      assert (a + b)[0] == a[0] && (a + b)[1..] == a[1..] + b;
      OptionListConcat(a[1..], b, ParseOption(a[0], p, queryOk).pdu, queryOk);
    }
  }

  lemma OneOption(o: Opt, p: Pdu, queryOk: bytes -> bool)
    ensures ParseOptionList([o], p, queryOk) == ParseOption(o, p, queryOk)
  {
    hide ParseOption;
    var r := ParseOption(o, p, queryOk);
    assert [o][1..] == [];
    assert ParseOptionList([], r.pdu, queryOk) == Parsed({}, r.pdu);
  }

  lemma TwoOptions(o1: Opt, o2: Opt, p: Pdu, queryOk: bytes -> bool)
    requires ParseOption(o1, p, queryOk).flags == {}
    ensures ParseOptionList([o1, o2], p, queryOk) == ParseOption(o2, ParseOption(o1, p, queryOk).pdu, queryOk)
  {
    hide ParseOption;
    OneOption(o1, p, queryOk);
    OneOption(o2, ParseOption(o1, p, queryOk).pdu, queryOk);
    assert [o1, o2] == [o1] + [o2];
    OptionListConcat([o1], [o2], p, queryOk);
  }

  lemma {:induction false} PathOptionsParse(segments: seq<bytes>, p: Pdu, queryOk: bytes -> bool)
    requires forall i :: 0 <= i < |segments| ==> segments[i] != []
    ensures ParseOptionList(PathOptions(segments), p, queryOk) ==
            Parsed({}, p.(uriPath := JoinPath(p.uriPath, segments)))
    decreases |segments|
  {
    hide AppendUriPath;
    if segments == [] {
    } else {
      var o := Opt(URI_PATH, segments[0]);
      var q := ParseOption(o, p, queryOk).pdu;
      assert PathOptions(segments)[1..] == PathOptions(segments[1..]);
      PathOptionsParse(segments[1..], q, queryOk);
    }
  }

  /** The options of a block, applied in order to an empty PDU. */
  lemma BlockOptionsParse(cfg: Config, c: Client, queryOk: bytes -> bool)
    requires Sending(c) && WellFormed(cfg, c, queryOk)
    ensures var p := EmptyPdu(BlockHeader(c)).(token := c.token);
      ParseOptionList(BlockOptions(cfg, c), p, queryOk) == Parsed({}, BlockPdu(c).(payload := []))
  {
    hide EncodeBlock, DecodeBlock, JoinPath, PathOptions, CString, Take, Store, Convert, ParseOptionList;
    var item := c.queue[0];
    var p := EmptyPdu(BlockHeader(c)).(token := c.token);
    var block := Block(c.curBlock, MoreBlocks(c), c.blockSize);
    var head := [Opt(URI_HOST, cfg.addrText(c.peerAddr).value), Opt(URI_PORT, Store(2, item.port))];
    var paths := PathOptions(item.resource);
    var o1, o2 := Opt(CONTENT_FORMAT, [OCTET_STREAM]), Opt(URI_QUERY, c.query);
    var o3, o4 := Opt(BLOCK1, EncodeBlock(block)), Opt(SIZE1, Store(2, |item.payload|));
    TwoOptions(head[0], head[1], p, queryOk);
    OptionListConcat(head, paths, p, queryOk);
    PathOptionsParse(item.resource, p, queryOk);
    var p1 := p.(uriPath := JoinPath(None, item.resource));
    OptionListConcat(head + paths, [o1, o2, o3, o4], p, queryOk);
    assert [o1, o2, o3, o4] == [o1, o2] + [o3, o4];
    ConvertOne(OCTET_STREAM);
    var p2 := p1.(contentFormat := Some(OCTET_STREAM as nat));
    TwoOptions(o1, o2, p1, queryOk);
    var p3 := p2.(uriQuery := Some(QueryText(c.query)));
    OptionListConcat([o1, o2], [o3, o4], p1, queryOk);
    BlockRoundTrip(block);
    TwoOptions(o3, o4, p3, queryOk);
  }

  /** Parsing what WriteCoapBlock wrote gives back every field and exactly the payload slice. */
  lemma BlockParses(cfg: Config, c: Client, queryOk: bytes -> bool)
    requires Sending(c) && WellFormed(cfg, c, queryOk) && WriteBlock(cfg, c).Some?
    ensures ParsePdu(WriteBlock(cfg, c).value, queryOk) == Parsed({}, BlockPdu(c))
  {
    hide ParsePdu, EncodePdu, BlockOptions, ParseOptionList, AllWritable, EncodeOptions, PduSize;
    PduRoundTrip(BlockHeader(c), c.token, BlockOptions(cfg, c), Some(BlockPayload(c)), queryOk);
    BlockOptionsParse(cfg, c, queryOk);
  }

  /**
   What a written block says, option by option: behind header and token come the host, the port in two bytes, the path
   segments, the content format, the reply-to, the block and the total size, and then the marker and the payload.
   */
  lemma BlockSays(cfg: Config, c: Client)
    requires Sending(c) && WriteBlock(cfg, c).Some?
    ensures var item := c.queue[0];
      var pdu := WriteBlock(cfg, c).value;
      var host := cfg.addrText(c.peerAddr);
      && |pdu| >= 8 && host.Some?
      && pdu[..8] == EncodeHeader(Header(Confirmable, 4, 0, 2, c.mid)) + c.token
      && WalkAll(pdu[8..], 0) ==
         Some(([Opt(3, host.value), Opt(7, Store(2, item.port))] + PathOptions(item.resource)
               + [Opt(12, [42]), Opt(15, c.query), Opt(27, EncodeBlock(Block(c.curBlock, MoreBlocks(c), c.blockSize))),
                  Opt(60, Store(2, |item.payload|))], [255] + BlockPayload(c)))
  {
    hide EncodeHeader, EncodeOptions, WalkAll, AllWritable, PduSize, EncodeBlock, Store, PathOptions, ValuesSize;
    var opts, tail := BlockOptions(cfg, c), Payload(Some(BlockPayload(c)));
    OptionsRoundTrip(0, opts, tail);
    CutAtEight(EncodeHeader(BlockHeader(c)), c.token, EncodeOptions(0, opts), tail);
  }

  lemma CutAtEight(head: bytes, token: bytes, opts: bytes, tail: bytes)
    requires |head| == 4 && |token| == 4
    ensures var pdu := head + token + opts + tail; pdu[..8] == head + token && pdu[8..] == opts + tail
  {
  }

  /** The text of a path: its segments with '/' in between */
  function Slashed(segments: seq<bytes>): bytes {
    if segments == [] then []
    else if |segments| == 1 then segments[0]
    else Slashed(segments[..|segments| - 1]) + (['/' as int] + segments[|segments| - 1])
  }

  lemma {:induction false} JoinSnoc(path: Option<bytes>, segments: seq<bytes>, x: bytes)
    ensures JoinPath(path, segments + [x]) == Some(AppendUriPath(GetOr(JoinPath(path, segments), []), x))
    decreases |segments|
  {
    hide AppendUriPath;
    if segments == [] {
      assert segments + [x] == [x] && [x][1..] == [];
    } else {
      assert (segments + [x])[1..] == segments[1..] + [x] && (segments + [x])[0] == segments[0];
      JoinSnoc(Some(AppendUriPath(GetOr(path, []), segments[0])), segments[1..], x);
    }
  }

  /** A path that fits the parser's buffer is read as its segments with '/' in between. */
  lemma {:induction false} PathReads(segments: seq<bytes>)
    requires segments != [] && |Slashed(segments)| < MAX_COAP_URI_PATH
    requires forall i :: 0 <= i < |segments| ==> segments[i] != [] && 0 !in segments[i]
    ensures JoinPath(None, segments) == Some(Slashed(segments)) && Slashed(segments) != []
    decreases |segments|
  {
    hide JoinPath, AppendUriPath;
    var n := |segments| - 1;
    var front, x := segments[..n], segments[n];
    assert segments == front + [x];
    JoinSnoc(None, front, x);
    if n == 0 {
      assert front == [];
      NoSegments();
    } else {
      PathReads(front);
    }
    SegmentRead(Slashed(front), x);
  }

  lemma NoSegments()
    ensures JoinPath(None, []) == None
  {
  }

  lemma SegmentRead(path: bytes, x: bytes)
    requires x != [] && 0 !in x && |path| + 1 + |x| <= MAX_COAP_URI_PATH
    requires path != [] ==> |path| + 1 + |x| < MAX_COAP_URI_PATH
    ensures AppendUriPath(path, x) == if path == [] then x else path + (['/' as int] + x)
  {
    WholeText(x);
    assert path + ['/' as int] + x == path + (['/' as int] + x);
  }

  lemma WholeText(x: bytes)
    requires 0 !in x
    ensures CString(x) == x
  {
    assert forall i :: 0 <= i < |x| ==> x[i] in x;
  }

  // ---------------------------------------------------------------- options the receiver refuses

  /** The two ways the option loop refuses a PDU */
  predicate Refusal(flags: set<Action>) {
    flags == {SendRst} || flags == {SendAck, BadOption}
  }

  lemma {:induction false} OptionListFlags(opts: seq<Opt>, p: Pdu, queryOk: bytes -> bool)
    ensures var f := ParseOptionList(opts, p, queryOk).flags; f == {} || Refusal(f)
    decreases |opts|
  {
    if opts == [] {
    } else {
      OptionListFlags(opts[1..], ParseOption(opts[0], p, queryOk).pdu, queryOk);
    }
  }

  /** A list that is accepted has no option of the wrong length, and no query that is not understood. */
  lemma {:induction false} AcceptedOption(opts: seq<Opt>, p: Pdu, queryOk: bytes -> bool, i: nat)
    requires ParseOptionList(opts, p, queryOk).flags == {} && i < |opts|
    ensures !WrongLength(opts[i].num, |opts[i].val|) && (opts[i].num == URI_QUERY ==> queryOk(QueryText(opts[i].val)))
    decreases |opts|
  {
    if i == 0 {
    } else {
      AcceptedOption(opts[1..], ParseOption(opts[0], p, queryOk).pdu, queryOk, i - 1);
    }
  }

  lemma {:induction false} PathOptionAt(segments: seq<bytes>, i: nat)
    requires i < |segments|
    ensures |PathOptions(segments)| == |segments| && PathOptions(segments)[i] == Opt(URI_PATH, segments[i])
  {
    if |segments| == 1 {
      assert PathOptions(segments[1..]) == [];
    } else {
      PathOptionAt(segments[1..], if i == 0 then 0 else i - 1);
    }
  }

  /** Options that are not well formed make the receiver refuse the block. */
  lemma AcceptedIsWellFormed(cfg: Config, c: Client, queryOk: bytes -> bool)
    requires Sending(c) && c.curBlock < 0x10_0000 && cfg.addrText(c.peerAddr).Some?
    requires ParseOptionList(BlockOptions(cfg, c), EmptyPdu(BlockHeader(c)).(token := c.token), queryOk).flags == {}
    ensures WellFormed(cfg, c, queryOk)
  {
    hide ParseOptionList, PathOptions, EncodeBlock, Store, QueryText;
    var opts, p, res := BlockOptions(cfg, c), EmptyPdu(BlockHeader(c)).(token := c.token), c.queue[0].resource;
    AcceptedOption(opts, p, queryOk, 0);
    forall i | 0 <= i < |res| ensures res[i] != [] {
      PathOptionAt(res, i);
      assert opts[2 + i] == PathOptions(res)[i];
      AcceptedOption(opts, p, queryOk, 2 + i);
    }
    var n := |PathOptions(res)|;
    assert opts[n + 3] == Opt(URI_QUERY, c.query);
    AcceptedOption(opts, p, queryOk, n + 3);
  }

  /** Every block that is written is either read as it was meant, or refused for its options. */
  lemma BlockReads(cfg: Config, c: Client, queryOk: bytes -> bool)
    requires Sending(c) && c.curBlock < 0x10_0000 && WriteBlock(cfg, c).Some?
    ensures var r := ParsePdu(WriteBlock(cfg, c).value, queryOk);
      || r == Parsed({}, BlockPdu(c))
      || (Refusal(r.flags) && r.pdu.hdr == BlockHeader(c) && r.pdu.token == c.token)
  {
    hide ParsePdu, EncodePdu, BlockOptions, ParseOptionList, AllWritable, EncodeOptions, PduSize, BlockPdu;
    var opts, p := BlockOptions(cfg, c), EmptyPdu(BlockHeader(c)).(token := c.token);
    PduRoundTrip(BlockHeader(c), c.token, opts, Some(BlockPayload(c)), queryOk);
    OptionListFlags(opts, p, queryOk);
    OptionsKeepHeader(opts, p, queryOk);
    if ParseOptionList(opts, p, queryOk).flags == {} {
      AcceptedIsWellFormed(cfg, c, queryOk);
      BlockParses(cfg, c, queryOk);
    }
  }

  lemma {:induction false} OptionsSize(last: nat, opts: seq<Opt>)
    requires AllWritable(last, opts)
    ensures |EncodeOptions(last, opts)| <= |opts| * MAX_OPTION_HEADER_SIZE + ValuesSize(opts)
    decreases |opts|
  {
    hide EncodeOption;
    if opts == [] {
    } else {
      OptionsSize(opts[0].num, opts[1..]);
    }
  }

  /** The bytes written never exceed the size computed beforehand, and so fit the buffer. */
  lemma BlockFits(cfg: Config, c: Client)
    requires Sending(c) && WriteBlock(cfg, c).Some?
    ensures |WriteBlock(cfg, c).value| <= PduSize(cfg, c) <= MAX_COAP_PDU_SIZE
  {
    hide EncodeOptions, BlockOptions, AllWritable, ValuesSize, EncodeHeader;
    OptionsSize(0, BlockOptions(cfg, c));
  }

  // ---------------------------------------------------------------- acknowledgements

  /** What the client should read out of an ACK: its payload is not used. */
  predicate AckMatches(cfg: CoapServer.Config, p: Pdu, flags: set<Action>, a: Pdu)
    requires cfg.Valid() && CoapServer.Parseable(p)
  {
    && a.hdr == CoapServer.AckHeader(p, flags) && a.token == p.token
    && (CoapServer.AckOptions(cfg, p, flags) == [] ==> a.block1 == None)
    && (IsContinue(a) && p.block1.Some? && p.block1.value.more ==>
          a.block1 == Some(Block(p.block1.value.num, true, Min(cfg.rxSize, p.block1.value.size))))
  }

  predicate IsContinue(a: Pdu) {
    a.hdr.cls == CoapServer.CLASS_SUCCESS && a.hdr.code == CoapServer.CODE_CONTINUE
  }

  /** Parsing what WriteCoapAck wrote gives back class, code, message id, token and block, and the text of an error. */
  lemma AckParses(cfg: CoapServer.Config, p: Pdu, flags: set<Action>, text: bytes, queryOk: bytes -> bool)
    requires cfg.Valid() && CoapServer.Parseable(p)
    ensures var r := ParsePdu(CoapServer.WriteAck(cfg, p, flags, text), queryOk);
      && r.flags == {} && AckMatches(cfg, p, flags, r.pdu)
      && (IndicatesError(flags) || WellKnown in flags ==> r.pdu.payload == text)
      && (WellKnown in flags ==> r.pdu.contentFormat == Some(40))
  {
    hide ParsePdu, EncodePdu, EncodeBlock, DecodeBlock, EncodeOptions;
    var h, opts := CoapServer.AckHeader(p, flags), CoapServer.AckOptions(cfg, p, flags);
    var body := if IndicatesError(flags) || WellKnown in flags then Some(text) else None;
    var base := EmptyPdu(h).(token := p.token);
    PduRoundTrip(h, p.token, opts, body, queryOk);
    ConvertOne(40);
    if opts != [] {
      OneOption(opts[0], base, queryOk);
      if WellKnown !in flags {
        var b := p.block1.value;
        BlockRoundTrip(Block(b.num, b.more, Min(cfg.rxSize, b.size)));
      }
    }
  }

  /** Parsing what COAP_WriteRst wrote. */
  lemma RstParses(mid: nat, token: bytes, queryOk: bytes -> bool)
    requires mid < 0x1_0000 && |token| <= MAX_COAP_TOKEN_SIZE
    ensures var r := ParsePdu(CoapServer.WriteRst(mid, token), queryOk);
      r.flags == {} && r.pdu.hdr == Header(Reset, |token|, 0, 0, mid) && r.pdu.token == token
  {
    hide ParsePdu, EncodePdu;
    PduRoundTrip(Header(Reset, |token|, 0, 0, mid), token, [], None, queryOk);
  }
}
