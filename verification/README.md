# A verified model of the USP agent's CoAP transport, data model schema and bulk data

This project models the parts of the agent where a mistake is hardest to see by reading: the block-wise transfer of
USP records over CoAP between the client and the server side of an agent, the byte formats they use, the schema tree
of the data model with its hash map and its database keys, and the retry and buffering rules of bulk data profiles.
Every file is checked by `dafny verify dfyconfig.toml`.

**How it is organised.** Each component is modelled twice where the source changes things in place. Functions on
values (`CoapServer`, `CoapClient`, `SchemaTree`, `Instances`, `BulkData.Step`, ...) give the meaning of an operation;
classes and methods (`CoapServerObject`, `CoapClientObject`, `CoapWire`, `NodeMap`, `InstanceObject`, `Dllist`, ...)
update fields, arrays and links the way the C code does and are proved to do what the functions say. The properties of
whole runs are proved about the functions.

| files | what they hold |
|---|---|
| `CommonDefs.dfy` | byte and bit macros of `common_defs.h`, big-endian values |
| `CoapCodec.dfy`, `CoapWire.dfy` | the CoAP PDU format as functions, and the writers and parser over buffers |
| `CoapServer.dfy`, `CoapServerProofs.dfy`, `CoapServerReplies.dfy`, `CoapServerObject.dfy` | a server session: reassembly, the answer to every datagram, saved response |
| `CoapClient.dfy`, `CoapClientProofs.dfy`, `CoapClientAnswers.dfy`, `CoapClientQueue.dfy`, `CoapClientTimers.dfy`, `CoapClientEnds.dfy`, `CoapClientObject.dfy` | the sending client: what it does with each datagram, queue, timers, retries, sockets, failed assertions |
| `CoapBlockPdu.dfy` | what each side reads of the other's PDUs |
| `CoapChannels.dfy`, `CoapProtocol.dfy`, `CoapEndToEnd.dfy`, `CoapDelivery.dfy` | client and server joined by channels: what is in flight, the invariant of every step, what every run hands over at most, and what is handed over when nothing is lost |
| `CoapExamples.dfy`, `SchemaExamples.dfy` | runs from the initial states in which the code does less than one would expect |
| `PathHash.dfy`, `DbKeys.dfy` | hashing paths, instance strings, database keys |
| `SchemaTree.dfy`, `NodeMap.dfy`, `SchemaPath.dfy` | the schema tree as a value, tree and hash map in place, registering a path |
| `SchemaNames.dfy` | paths and orders of the nodes in the tree |
| `SchemaLookup.dfy` | finding nodes by path; a well-formed schema tree is what the theorems on database keys need |
| `Instances.dfy`, `InstanceObject.dfy`, `InstanceSchema.dfy`, `InstanceRows.dfy` | object instances and their database rows; the subtree of a schema tree that they walk; the rows said by path |
| `Dllist.dfy` | the doubly linked list |
| `BulkData.dfy`, `AltName.dfy` | reporting grid, retries, retained reports, alternative names |

**The main results.**

- `CoapEndToEnd.EndToEnd`: over every run of a client and a server joined by channels that keep order but lose and
  repeat datagrams, at the level of the bytes on the wire, the records the server hands over are records of the client's
  send queue, byte for byte, in queue order and none twice; and a client that waits for an ACK and reads 'Changed' has
  had exactly that record handed over. It holds across the wrap of the 16-bit message id, when the server shrinks the
  block size, and for records whose options the server refuses. It assumes that every reply-to is accepted and that no
  record is abandoned, for want of an ACK, on a socket that stays open, and nothing else.
- `CoapDelivery.Delivery`: and it delivers. With nothing lost and every send succeeding, every record in the queue that
  the server welcomes is handed over, in order, after exactly as many exchanges as the records have blocks, also when the
  server asks for smaller blocks; `CoapDelivery.FirstRecordOpens` leads there from the start of the client.
- `CoapServerReplies.PostedExactly` with `TakenAnswers`, `RefusedAnswers`, `PostDecided`, `OthersAnswered` and
  `UnparsedAnswers`, and `CoapClientAnswers.AnswersExactly`: what each side does with every datagram, whatever its state,
  down to the code of each refusal.
- `SchemaTree.RunKeeps` with `NodeMap.DataModel`: over every run of create, add, override, destroy and deregister, the
  tree is sound and the bucket chains hold every node exactly once, in the bucket of the hash of its own path;
  `SchemaTree.DeregisterExact` says which nodes deregistering removes. `SchemaNames.RunAgrees` with
  `SchemaPath.AddSchemaPath`, which also says exactly which paths are accepted: every node's path is its parent's path and its own name and its order the number of tables
  on it, so that `SchemaLookup.EverySpellingFinds` finds the node of a path however it is spelled.
- `InstanceRows.DeletedExactly`, `WrittenExactly` and `OtherParametersStay` with `InstanceObject.DataStore`: adding an
  instance writes exactly one row for each stored parameter, under the key of its path and with its first value;
  deleting it removes exactly the rows of it and of every existing nested instance, and none of any other parameter.
- `CoapClientProofs.NeverStranded`, `RetransmissionBounded`, `CoapClientQueue.RetriesBounded`, `QueueKeepsOrder`,
  `LeavesOnlyInTurn`: the client always has a timer that will move it on, and gives up after bounded effort, keeping its
  queue in order; a record leaves the queue only from its head or because it expired at a time the step read. Only the
  first of these needs the permission to connect to be kept. `CoapClientTimers.ArmedTimesBounded`, `GivenUpExactly` and
  `RetryWaitsDouble` say the same of the times for which the timers are armed, and that no record is given up earlier.
- `DbKeys.KeyRoundTrip`, `PathHash.HashIsHashOfNormalForm`, `CoapCodec.PduRoundTrip`: the text and byte formats mean
  what they should for every input.
- `AltName.AltNameCorrect`: reducing a path by a specification gives the alternative name, the matched instance numbers
  and the rest of the path, for every specification of names, wildcards and search expressions, but for a search
  expression with a ']' in quotes and path text behind it.

**Where the code does less than one would expect.** Each of the first nine is a lemma with the exact condition, and a
lemma that reaches it from the initial state or on a concrete input; the last two are lemmas without an exception.

- A PDU with another token starts a new record without clearing what an interrupted transfer left in the buffer, so the
  record handed over can begin with foreign bytes: `CoapServerProofs.InterruptedExactly`. `CoapExamples.AbandonedMixes`
  is a run of client and server in which a record is abandoned on an open socket and the next one is handed over with
  the first block of it in front.
- A refused reply-to leaves the buffer in place, and the next record is handed over behind it:
  `CoapServerProofs.RefusedReplyExactly`, `CoapExamples.RefusedReplyMixes`.
- A client whose permission to connect is withdrawn while its socket is open keeps a record with no timer armed:
  `CoapClientProofs.StrandedExactly`. A repeated 'Changed' of the record before then makes it drop that record as sent,
  without ever having sent it: `CoapEndToEnd.WithdrawnExactly`, `CoapExamples.WithdrawnDropsUnsent`. While the permission
  is kept this does not happen: `CoapEndToEnd.ChangedMeansPosted`.
- A repeated ACK of the last PDU whose class is not success ends the program when the queue has run empty:
  `CoapClientProofs.IdleEndsExactly`, and `CoapExamples.RepeatedErrorEndsClient` as a run. With records that fit a PDU
  nothing else ends it: `CoapClientEnds.EndsExactly`.
- Deregistering climbs from the removed node through ancestors left empty without testing for a null parent:
  `NodeMap.DataModel.DeRegisterNode` reports this outcome exactly when a root was removed;
  `SchemaExamples.DeRegisterReadsNull` is a run to it.
- Adding an instance and deleting it again restores the database only if none of the new instance's rows were there
  before: `Instances.AddThenDelete`, `SchemaExamples.AddThenDeleteLoses`.
- `OverrideNodeType` keeps the order of a child list if and only if the new kind suits the place of the node:
  `SchemaTree.RetypedOrderedExactly`; `SchemaExamples.OverrideBreaksOrder` is a run in which it does not. The error
  that OverrideNodeType returns on a hash collision is ignored by `DM_PRIV_AddSchemaPath` (`SchemaPath.Visit`).
- Overriding the type of a node makes it a table, or no table any more, without touching what is registered below it,
  whose paths and orders are then wrong. For a type that is a table as the path says, this happens if and only if
  something is registered below the node and being a table changes: `SchemaNames.RetypedAgreesExactly`,
  `SchemaPath.AddSchemaPath`, and `SchemaExamples.OverrideBreaksPaths` as a run.
- The path resolver ends a search expression at the first ']' outside quotes (`path_resolver.c:1102`), the reduction to
  an alternative name at the first ']' of all (`device_bulkdata.c:2946`). With a ']' in quotes and path text behind the
  expression, the reduction goes on inside the quotes. If the character there does not occur in the path, the whole
  remaining path is copied, which is right if and only if the specification has no name left:
  `AltName.QuotedBracketExactly`, `AltName.QuotedBracketKeepsName`.
- `usp_coap.h:56` says that a block is sent one more time than COAP_MAX_RETRANSMIT. The code sends it at most
  COAP_MAX_RETRANSMIT times: `CoapClientProofs.RetransmissionBounded`.
- The Size1 option in `WriteCoapAck` is never written: `CoapServer.NoSize1InAck`.

## Model

| member | source | states |
|---|---|---|
| `CommonDefs.ModifyBitsAppends` | src/core/common_defs.h:140 | Setting a field of a word whose lower bits are still clear adds the field's value at its place and leaves the higher bits alone. |
| `CommonDefs.BitsOfField` | src/core/common_defs.h:135 | Reading a field gives back what was put there, whatever is above and below it. |
| `CommonDefs.ModifyBitsMasks` | src/core/common_defs.h:140 | A value too wide for its field is masked to the field's width. |
| `CommonDefs.StoreWraps` | src/core/common_defs.h:119-122 | Storing keeps only the low-order bytes. |
| `CommonDefs.StoreConvert` | src/core/common_defs.h:97-122 | Reading n stored bytes gives the stored value, for every value that fits them. |
| `CoapCodec.HeaderRoundTrip` | src/core/coap_common.c:705-712 | The four header bytes decode to the version and to every field that was encoded. |
| `CoapCodec.BlockRoundTrip` | src/core/coap_common.c:554-603 | Every block number below 2^20, either more flag and all seven sizes are decoded from a Block1 value as they were encoded. |
| `CoapCodec.BlockNumberWraps` | src/core/coap_common.c:554-603 | A block number of any size is read back modulo 2^20, with the more flag and the size as they were. |
| `CoapCodec.DecodeBlock` | src/core/coap_common.c:1143-1183 | Any Block1 value reads as one of the seven sizes, or as 2048 for the reserved code, with a number below 2^20. |
| `CoapCodec.BlockSizeFromCode` | src/core/coap_common.c:1372-1378 | The seven codes read as sizes that code back to themselves; the reserved code reads as 2048. |
| `CoapCodec.OptionRoundTrip` | src/core/coap_common.c:621-677 | Walking a written option gives back its number, its value and what followed it. |
| `CoapCodec.OptionsRoundTrip` | src/core/coap_common.c:861-953 | Any list of options with ascending numbers and gaps and lengths below 268 is walked back as exactly that list. |
| `CoapCodec.ParseOptionsFold` | src/core/coap_common.c:743-758 | The option loop is the fold of the single-option step over the list that walking the whole area gives. |
| `CoapCodec.WalkAllIsSuffix` | src/core/coap_common.c:743-766 | Walking stops at a tail of the buffer that is empty or starts with the end marker. |
| `CoapCodec.PduRoundTrip` | src/core/coap_common.c:692-773 | Parsing a written PDU yields its header, its token, its options applied in order and exactly its payload. |
| `CoapCodec.ParseAddsUp` | src/core/coap_common.c:692-773 | Every byte string that parses without error divides into header, token, options and, with a marker, marker and payload, which add up to it. |
| `CoapCodec.OptionsKeepHeader` | src/core/coap_common.c:970-1093 | No option changes the header or the token of the parsed PDU. |
| `CoapCodec.UnknownOption` | src/core/coap_common.c:1071-1090 | An option of an unknown even number is skipped as if it were not there; one of an unknown odd number makes a confirmable PDU bad and any other one to be reset. |
| `CoapCodec.OptionLengths` | src/core/coap_common.c:976-1024 | An option of a length its number does not allow makes the PDU to be reset. |
| `CoapCodec.HeaderRefused` | src/core/coap_common.c:692-735 | Another version, a reserved class, a token above eight bytes or beyond the datagram makes the PDU to be reset, under its message id. |
| `CoapCodec.HeaderBytes` | src/core/coap_client.c:1506-1516 | The header bytes of a POST, of an ACK and of a RST. |
| `CoapCodec.BlockBytes` | src/core/coap_common.c:554-603 | Block1 values of one and two bytes. |
| `CoapCodec.OptionBytes` | src/core/coap_common.c:621-677 | Option headers with and without extensions of number and length. |
| `CoapWire.HeaderWord` | src/core/coap_client.c:1506-1512 | The word built by six MODIFY_BITS is the sum of the fields at their places. |
| `CoapWire.HeaderWordBytes` | src/core/coap_client.c:1514-1516 | Storing that word gives the header bytes that HeaderRoundTrip decodes. |
| `CoapWire.WriteHeader` | src/core/coap_client.c:1514-1518 | The buffer starts with the header bytes and the token, and the position after them is returned. |
| `CoapWire.WriteOption` | src/core/coap_common.c:621-677 | The option's encoding is appended at the position, what is before it is unchanged, and writing is refused exactly where an assertion would fail. |
| `CoapWire.WriteOptions` | src/core/coap_client.c:1520-1537 | A series of options is written as the encoding of the list. |
| `CoapWire.CalcBlockOption` | src/core/coap_common.c:554-603 | The Block1 value built from bit fields, with the block number masked to 20 bits, is the one BlockNumberWraps decodes. |
| `CoapWire.OptionWalker.ReadExtension` | src/core/coap_common.c:861-953 | A nibble below 13 stands for itself, 13 takes one byte more and 14 two; the walker advances by exactly what it read. |
| `CoapWire.OptionWalker.Walk` | src/core/coap_common.c:861-953 | One option is read exactly as WalkOption says, and the walker is left at what follows it. |
| `CoapWire.ParseOptionsAt` | src/core/coap_common.c:738-758 | The loop over the options computes ParseOptions. |
| `CoapWire.ReadHeader` | src/core/coap_common.c:705-712 | The header bits are read as DecodeHeader says. |
| `CoapWire.Parse` | src/core/coap_common.c:692-773 | Terminates on every byte string, reads only inside it, and returns what ParsePdu says, errors included. |
| `CoapServer.ParsedIsParseable` | src/core/coap_common.c:1143-1183 | Every parsed PDU, error or not, has a valid header, a token of at most eight bytes and a block size that is one of the seven or 2048, so the size put into an ACK is always one that can be coded. |
| `CoapServer.NoSize1InAck` | src/core/coap_server.c:1807-1843 | No ACK carries a Size1 option, whatever the flags: without an error there is none to write. |
| `CoapServerProofs.FlagsConsistent` | src/core/coap_server.c:1215-1280 | For every session and datagram the action flags never contradict each other, so the two assertions hold. |
| `CoapServerProofs.BufferStep` | src/core/coap_server.c:1164-1280 | Every datagram leaves the buffer as it was, extends it by exactly its payload or empties it, never above MAX_USP_MSG_LEN. |
| `CoapServerProofs.StepReassembles` | src/core/coap_server.c:1388-1623 | One datagram of the same transfer keeps the buffer the concatenation of blocks 0 to block_count-1 received. |
| `CoapServerProofs.BufferIsBlocks` | src/core/coap_server.c:1164-1623 | Over every run without interrupted transfers or refused reply-tos the buffer is blocks 0 to block_count-1, in order, from PDUs received. |
| `CoapServerProofs.InterruptedExactly` | src/core/coap_server.c:1492-1497 | A record completed by a PDU with another token is that PDU's payload if and only if the buffer was empty; otherwise it starts with what was left. |
| `CoapServerProofs.AckSizeHasCode` | src/core/coap_server.c:1807-1843 | For every datagram the Block1 option of an ACK is written with one of the seven sizes from 16 to 1024 and no larger than announced, also for the reserved code. |
| `CoapServerProofs.RefusedReplyExactly` | src/core/coap_server.c:1257-1272 | With a refused reply-to nothing is handed over, and the buffer stays if and only if the ACK could be sent. |
| `CoapServerReplies.PostedExactly` | src/core/coap_server.c:1164-1280 | For every session and datagram: bytes are handed over if and only if the datagram parses as a confirmable POST that is taken as the last block, the assembled bytes unpack and the reply-to is accepted; and it is exactly these bytes. |
| `CoapServerReplies.TakenAnswers` | src/core/coap_server.c:1300-1370 | A block that is taken is appended; 2.31 asks for the next with the size wanted, 2.04 ends the record, and 4.00 refuses bytes that do not unpack and empties the buffer. |
| `CoapServerReplies.HadAlreadyAnswers` | src/core/coap_server.c:1556-1562 | A block the server has already is acknowledged and changes nothing of the record. |
| `CoapServerReplies.RefusedAnswers` | src/core/coap_server.c:1388-1655 | A block is refused with class 4 and the code of its reason, and nothing of the record is kept. |
| `CoapServerReplies.PostDecided` | src/core/coap_server.c:1300-1623 | Every POST is taken, was taken before, is refused for one of these reasons, or lacks a token. |
| `CoapServerReplies.OthersAnswered` | src/core/coap_server.c:1305-1348 | A repetition gets the saved answer again, a RST nothing, discovery 2.05, another method 4.05 and everything else a RST. |
| `CoapServerReplies.UnparsedAnswers` | src/core/coap_server.c:1205-1245 | A datagram the parser refuses gets nothing if it is shorter than a header, 4.02 for an option, and otherwise a RST. |
| `CoapServerReplies.UnsentDrops` | src/core/coap_server.c:1219-1245 | When the answer cannot be sent nothing of the record is kept. |
| `CoapServerObject.ServerSession.constructor` | src/core/coap_server.c:816-841 | A new session is empty, with no saved response. |
| `CoapServerObject.ServerSession.FreeRecord` | src/core/coap_server.c:1137-1149 | The buffer and the block state are cleared, token and saved response stay. |
| `CoapServerObject.ServerSession.AppendPayload` | src/core/coap_server.c:1601-1623 | The payload is appended and the block counted, or the session is unchanged because the record would be too large. |
| `CoapServerObject.ServerSession.HandleFirst` | src/core/coap_server.c:1388-1471 | The first block is checked and taken as HandleFirst says, with the flags of the first check that fails. |
| `CoapServerObject.ServerSession.HandleSubsequent` | src/core/coap_server.c:1486-1587 | A later block is checked and taken as HandleSubsequent says; the block size only shrinks. |
| `CoapServerObject.ServerSession.CalcActions` | src/core/coap_server.c:1296-1373 | The decision for a parsed PDU: resend, reset, refuse or take the block. |
| `CoapServerObject.ServerSession.Receive` | src/core/coap_server.c:1164-1280 | New session, response sent and record handed over for one datagram are those of Receive, for any outcome of sending and of the reply-to check. |
| `CoapServerObject.WriteAck` | src/core/coap_server.c:1777-1858 | The buffer holds the ACK that AckParses reads, for every PDU, set of flags and error text, and it always fits. |
| `CoapServerObject.WriteRst` | src/core/coap_common.c:514-537 | The buffer holds the RST that RstParses reads. |
| `CoapServerObject.FlagsExclusive` | src/core/coap_server.c:1215-1280 | At most one response is sent for a datagram, and a saved response is resent only if there is one. |
| `CoapBlockPdu.BlockParses` | src/core/coap_client.c:1440-1552 | Parsing a written block gives back type, method, message id, token, block number, more flag, size and exactly the payload slice. |
| `CoapBlockPdu.BlockReads` | src/core/coap_common.c:970-1093 | Every block that is written is read as it was meant, or refused for its options with its header and token read: by a RST, or by an ACK saying bad option. |
| `CoapBlockPdu.BlockSays` | src/core/coap_client.c:1440-1552 | What a written block says, option by option: host, port, path segments, content format, reply-to, block and total size, then marker and payload. |
| `CoapBlockPdu.PathReads` | src/core/coap_common.c:1109-1130 | A path that fits the parser's buffer is read as its segments with '/' in between. |
| `CoapBlockPdu.AcceptedIsWellFormed` | src/core/coap_common.c:970-1093 | A block whose options are accepted has no empty host, path segment or query, and a query that is understood. |
| `CoapBlockPdu.BlockFits` | src/core/coap_client.c:1491-1504 | The bytes written never exceed the size computed beforehand, and so fit the buffer. |
| `CoapBlockPdu.AckParses` | src/core/coap_server.c:1777-1858 | Parsing a written ACK of any kind gives back class, code, message id, token and block, with the size cut to what the server takes. |
| `CoapBlockPdu.RstParses` | src/core/coap_common.c:514-537 | Parsing a written RST gives back its message id and token. |
| `CoapClientProofs.StartRecordSettles` | src/core/coap_client.c:961-1057 | Starting, connecting, sending the first block and retrying end for every outcome of lookup, connection and sending, in a valid state, which is not stranded unless permission was refused on an open socket. |
| `CoapClientProofs.StepSettles` | src/core/coap_client.c:491-534 | Every event leaves a valid client or ends the program, with the timer it needs if it had it and may connect. |
| `CoapClientProofs.NeverStranded` | src/core/coap_client.c:912-1057 | In every reachable state a non-empty queue means socket open with the ACK timer armed or closed with the reconnect timer armed, and an armed linger timer means an empty queue, if permission is kept. |
| `CoapClientProofs.StrandedExactly` | src/core/coap_client.c:961-1057 | Starting a record leaves the client stranded if and only if it is refused with the socket open and a record waiting. |
| `CoapClientProofs.StartRecordSocket` | src/core/coap_client.c:961-1057 | Starting a record either stays on the same socket and sends a first block or nothing there, or leaves it and never comes back to it. |
| `CoapClientProofs.StepSameBlock` | src/core/coap_client.c:912-946 | A step that goes on waiting for the ACK of the same block, whether or not the client may connect, either repeats its PDU byte for byte with the wait doubled, or sends nothing. |
| `CoapClientProofs.RetransmissionBounded` | src/core/coap_client.c:912-946 | Whether or not the client may connect, a block is sent at most COAP_MAX_RETRANSMIT times, each wait twice the one before, in total initial * (2^n - 1) after n timeouts. |
| `CoapClientProofs.IdleEndsExactly` | src/core/coap_client.c:793-899 | With an empty queue a datagram ends the program if and only if it acknowledges the last PDU with a class that is not success. |
| `CoapClientEnds.EndsExactly` | src/core/coap_client.c:491-1057 | In every reachable state, with records whose options leave room for a full block, a step ends the client if and only if it receives an ACK of the last PDU that is no success while the queue is empty. |
| `CoapClientEnds.StepEndsExactly` | src/core/coap_client.c:491-1057 | The same of one step from any sound state, whatever is looked up, connected, sent or refused on the way. |
| `CoapClientProofs.StartRecordSendsFirst` | src/core/coap_client.c:1357-1389 | Whatever starting a record sends is the first block of the record at the head of the queue, at the full block size. |
| `CoapClientProofs.WriteIgnoresTimers` | src/core/coap_client.c:1440-1552 | The PDU depends only on the record, the block state and the peer, so a repetition is the same bytes. |
| `CoapClientProofs.SizesHaveCodes` | src/core/coap_common.c:1319-1359 | In every run from COAP_CLIENT_Start, whether or not the client may connect, a first, next or repeated block is written with one of the seven sizes from 16 to 1024, and the PDU sent carries such a size. |
| `CoapClientAnswers.AnswersExactly` | src/core/coap_client.c:671-899 | Every datagram that parses is of one of five kinds, which decides whether the next block is sent, the next record started, nothing done, or the record started over with or without a RST. |
| `CoapClientAnswers.UnparsedExactly` | src/core/coap_client.c:696-716 | A datagram the parser refuses is answered with a RST and the record started over, or ignored if shorter than a header. |
| `CoapClientAnswers.ClosedExactly` | src/core/coap_client.c:671-694 | When the peer closes the socket, an idle client forgets it without counting a failure, and one that is sending retries later. |
| `CoapClientAnswers.NextBlockSent` | src/core/coap_client.c:726-744 | An ACK that asks for the next block gets it, at the next offset, under the next message id and of no larger size than asked for. |
| `CoapClientTimers.StepArms` | src/core/coap_client.c:1402-1425 | After every step that sent a PDU the ACK timer is armed for the current wait from the clock reading of the attempt that sent it. |
| `CoapClientTimers.ArmedTimesBounded` | src/core/coap_client.c:912-946 | The armed waits for one block add up to initial * (2^n - 1) after n timeouts, each cut to whole seconds. |
| `CoapClientTimers.GivenUpExactly` | src/core/coap_client.c:912-946 | The timeout after COAP_MAX_RETRANSMIT - 1 others gives the record up, and none before it does. |
| `CoapClientTimers.RetryWaitsDouble` | src/core/coap_client.c:1270-1308 | While a record stays at the head the wait before its next retry is initial * 2^n after n of them, and each retry is armed for it. |
| `CoapClientTimers.StepRetryWait` | src/core/coap_client.c:1270-1308 | A failed attempt arms the reconnect timer for the current wait and doubles it; nothing else changes it while the record stays. |
| `CoapClientTimers.TimersEnd` | src/core/coap_client.c:491-534 | When lingering ends the socket is closed, and when connecting becomes possible a pending retry is due at once. |
| `CoapClientQueue.DropsUnique` | src/core/coap_client.c:961-1057 | The number of attempts to start a record, and with it the clock readings of a step, is determined by the queue the step leaves. |
| `CoapClientQueue.StartRecordQueue` | src/core/coap_client.c:961-1057 | Items leave the queue only from the head or by expiry behind it, whatever the outcomes; and the timers after starting a record: for the ACK, for lingering 300 seconds, for a week without permission, or for the retry. |
| `CoapClientQueue.ExpiryExact` | src/core/coap_client.c:1691-1720 | Expiry yields the head followed by exactly the unexpired rest, in order. |
| `CoapClientQueue.StepQueue` | src/core/coap_client.c:552-625 | The queue after any event, and the timers, exactly, and the limits at which the head is given up: the queue is unchanged, with the new record behind the unexpired others, or after drops of the head each followed by expiry behind the next; a record is started only when the head changes. |
| `CoapClientQueue.ChangeLeaves` | src/core/coap_client.c:961-1057 | Under each of these changes a missing item expired by one of the clock readings the change made, or everything in front of it is missing too. |
| `CoapClientQueue.LeavesOnlyInTurn` | src/core/coap_client.c:580-610 | Over every run, an item in the queue at one time and not at a later one was taken out by a step in between, expired by a clock reading of that step or from the head. |
| `CoapClientQueue.QueueKeepsOrder` | src/core/coap_client.c:580-610 | In every reachable state the queue holds records in the order they were offered, no two with equal bytes. |
| `CoapClientQueue.StepRetries` | src/core/coap_client.c:1270-1308 | While a record stays at the head its failure count never falls, and a failed attempt leaves it below the limit. |
| `CoapClientQueue.RetriesBounded` | src/core/coap_client.c:1270-1308 | However long a record stays at the head, it is retried fewer than MAX_COAP_RECONNECTS times. |
| `CoapClientObject.SendClient.constructor` | src/core/coap_client.c:268-320 | A new client has an empty queue and no socket, from which NeverStranded starts. |
| `CoapClientObject.SendClient.Stop` | src/core/coap_client.c:1234-1255 | The socket is closed, all timers are disarmed and the block state is cleared; queue and failure count stay. |
| `CoapClientObject.SendClient.RemoveExpired` | src/core/coap_client.c:1691-1720 | Unlinking items as the loop meets them leaves the queue that ExpiryExact describes. |
| `CoapClientObject.SendClient.InQueue` | src/core/coap_client.c:1759-1779 | Whether some queued record has exactly these bytes. |
| `CoapClientObject.SendClient.RetryLater` | src/core/coap_client.c:1270-1308 | The socket is closed and the failure counted; the record is retried later, or dropped at the limit and the next one started. |
| `CoapClientObject.SendClient.StartSending` | src/core/coap_client.c:961-1057 | New state and PDU are those of StartRecord, for every outcome. |
| `CoapClientObject.SendClient.StartAt` | src/core/coap_client.c:1072-1142 | Connecting to the looked-up peer, or staying on the socket to the same peer, as StartAt says. |
| `CoapClientObject.SendClient.SendFirst` | src/core/coap_client.c:1357-1389 | A new token and message id, block 0 at the full size, sent or retried later. |
| `CoapClientObject.SendClient.WriteBlock` | src/core/coap_client.c:1440-1552 | The buffer holds the PDU that BlockParses reads, or nothing where the source gives up. |
| `CoapClientObject.SendClient.SendBlock` | src/core/coap_client.c:1402-1425 | The block is sent with the ACK timer armed, or retried later. |
| `CoapClientObject.SendClient.ResetPeer` | src/core/coap_client.c:709-716 | The RST carries the next message id and the token, and the client retries later as RetryLater says. |
| `CoapClientObject.SendClient.HandleAck` | src/core/coap_client.c:671-754 | For every datagram: ignored, the socket given up with or without a RST, the next block, the next record or the end of the program, as HandleAck says. |
| `CoapClientObject.SendClient.HandleNoAck` | src/core/coap_client.c:912-946 | A timeout repeats the block with the wait doubled, reconnects, or abandons the record. |
| `CoapClientObject.SendClient.QueueMessage` | src/core/coap_client.c:552-625 | A record already queued is refused; a first record is started, another is put behind. |
| `CoapProtocol.StepKeeps` | src/core/coap_client.c:671-899 | Every event of the joined system keeps an invariant tying the client's block, the server's buffer and the contents of both channels. |
| `CoapProtocol.ServerTakes` | src/core/coap_server.c:1388-1623 | The server takes the client's next block onto the first bytes of the same record, and hands the record over exactly with its last block. |
| `CoapProtocol.ServerRefuses` | src/core/coap_server.c:1215-1280 | A block whose options are refused is answered with an error each time it arrives, and nothing is kept of the record. |
| `CoapProtocol.ServerResets` | src/core/coap_server.c:1217-1223 | A block that cannot be read is answered with a RST, and nothing is kept of the record. |
| `CoapProtocol.ServerRepeats` | src/core/coap_server.c:1296-1373 | A repeated block gets the saved response again and changes nothing, unless sending fails, which frees the record. |
| `CoapProtocol.NextBlockReady` | src/core/coap_client.c:728-736 | After an ACK the client is ready to send the block that follows, also when the size shrinks and the number is not rescaled. |
| `CoapProtocol.FinalAck` | src/core/coap_client.c:671-754 | The answer that ends a record keeps the invariant, also in a client that waits for nothing: ignored, next record, or socket given up. |
| `CoapProtocol.RepeatsOrLeaves` | src/core/coap_client.c:912-946 | A timeout that does not end the record on its socket closes the socket, or sends exactly the same block again. |
| `CoapEndToEnd.StepPlaces` | src/core/coap_client.c:961-1057 | Every event keeps the records started, and those still queued, at increasing places of the history of the queue. |
| `CoapEndToEnd.NewSocketIsInit` | src/core/coap_client.c:1357-1389 | Whenever the client starts a record on a socket it has just opened, a run of the joined system starts. |
| `CoapEndToEnd.ChangedIsAccepted` | src/core/coap_client.c:793-899 | A 'Changed' taken by a client that waits for an ACK was sent for the record it is sending, already handed over. |
| `CoapEndToEnd.EndToEnd` | src/core/coap_server.c:1164-1623 | In every state of every run the records handed over, and the records started, are records of the send queue, byte for byte, in queue order and none twice, and 'Changed' is read by a waiting client only for the latest record handed over. |
| `CoapEndToEnd.ChangedMeansPosted` | src/core/coap_client.c:793-899 | While the client may connect, 'Changed' is only ever taken for a record that has been handed over. |
| `CoapEndToEnd.WithdrawnExactly` | src/core/coap_client.c:1000-1014 | A record waiting on an open socket without a timer was never started, and a 'Changed' is taken for it if and only if it carries the last token and message id and the record is no longer than what the last block reached. |
| `CoapDelivery.Delivery` | src/core/coap_client.c:671-1057 | From a newly opened socket, with nothing lost, every send succeeding and a server that welcomes the records: all records in the queue are handed over in order, after as many exchanges as they have blocks, and the queue is empty. |
| `CoapDelivery.RecordDelivered` | src/core/coap_server.c:1164-1623 | A record under way is handed over after as many exchanges as it has blocks left, at the size the server wants, and is then out of the queue, whatever is behind it. |
| `CoapDelivery.OneBlock` | src/core/coap_client.c:726-744 | One exchange brings the next block on its way, at the next offset and no larger than the server wants. |
| `CoapDelivery.BlockWritten` | src/core/coap_client.c:1440-1552 | With options of writable length and room for a full block in the buffer, every block of a record can be written. |
| `CoapDelivery.StartsHere` | src/core/coap_client.c:961-1057 | A record for the same peer, port and encryption without a reset hint starts on the open socket with its first block. |
| `CoapDelivery.ConnectsFirst` | src/core/coap_client.c:961-1057 | Any other record opens a new socket to its peer and starts there with its first block. |
| `CoapDelivery.FirstRecordOpens` | src/core/coap_client.c:552-625 | A record queued at a client just started opens a socket in the state the theorems on runs begin with. |
| `CoapExamples.RepeatedErrorEndsClient` | src/core/coap_client.c:831-845 | A run in which an error ACK that arrives twice ends the client. |
| `CoapExamples.WithdrawnDropsUnsent` | src/core/coap_client.c:1000-1014 | A run in which the permission is withdrawn and the second of two records is dropped as sent without being sent. |
| `CoapExamples.AbandonedMixes` | src/core/coap_server.c:1492-1497 | A run, allowed but for one timeout, in which the first block of an abandoned record is handed over in front of the next record; the result is neither record unless the second is the rest of the first. |
| `CoapExamples.RefusedReplyMixes` | src/core/coap_server.c:1257-1272 | A run of a session in which a record with a refused reply-to is handed over in front of the next one. |
| `PathHash.HashIsHashOfNormalForm` | src/core/data_model.c:3251-3379 | The hash of every spelling of a path is the plain hash of its normal form, and the instance numbers come out in order; more than six are an error. |
| `PathHash.SpellingsAgree` | src/core/data_model.c:3251-3379 | Two spellings of one schema path have the same hash. |
| `PathHash.FindCloseExactly` | src/core/text_utils.c:776-814 | The end of a search expression is exactly the first ']' outside quotes. |
| `PathHash.UnclosedFails` | src/core/data_model.c:3361-3365 | A search expression that nothing closes outside quotes is an error. |
| `PathHash.CalcHashFromPath` | src/core/data_model.c:3251-3379 | The character loop with its two characters under examination computes CalcHash on every string. |
| `DbKeys.InstancesRoundTrip` | src/core/data_model.c:4205-4236 | An instance string parses back to the numbers it was formed from. |
| `DbKeys.InstanceStringInjective` | src/core/data_model.c:4442-4474 | Different vectors of instance numbers have different strings. |
| `DbKeys.InstantiateRest` | src/core/data_model.c:3712-3765 | Replacing each {i} by the next number gives the path with those numbers. |
| `DbKeys.KeyRoundTrip` | src/core/data_model.c:3785-3889 | For every registered database parameter and vector of numbers, path to key and key to path are inverse. |
| `DbKeys.OnlyDbParameters` | src/core/data_model.c:3785-3890 | A registered node's path has a key if and only if it is a database parameter, and a key with another number of instances has no path. |
| `DbKeys.InstantiateCounts` | src/core/data_model.c:3712-3765 | A schema path takes exactly as many instance numbers as it has {i}. |
| `DbKeys.ParsesExactly` | src/core/data_model.c:4205-4236 | An instance string is understood if and only if it has nothing but digits and dots. |
| `DbKeys.KeysDiffer` | src/core/data_model.c:3785-3833 | Different parameters or different numbers never share a key. |
| `DbKeys.FormInstanceString` | src/core/data_model.c:4442-4474 | The printing loop forms the string that InstancesRoundTrip parses. |
| `DbKeys.ParseInstanceString` | src/core/data_model.c:4205-4236 | The two nested loops parse exactly as ParseInstances says, refusing what is not a number. |
| `DbKeys.FormInstantiatedPath` | src/core/data_model.c:3712-3765 | With a large enough buffer the copying loop ends and forms the instantiated path, or fails on too few or too many numbers. |
| `SchemaTree.FirstObject` | src/core/data_model.c:5574-5594 | The place of the first object: only parameters before it, an object at it unless it is the end. |
| `SchemaTree.AttachedIsTree` | src/core/data_model.c:3594-3617 | Putting a created node under a parent keeps parents and child lists in agreement. |
| `SchemaTree.AttachedOrdered` | src/core/data_model.c:3594-3617 | A new child goes to the end of its kind: parameters, then objects, each in order of registration. |
| `SchemaTree.PrunedIsTree` | src/core/data_model.c:5162-5176 | Removing a whole subtree leaves a tree. |
| `SchemaTree.DestroyedIsPruned` | src/core/data_model.c:5189-5276 | Destroying a childless node removes it from its parent's list and changes nothing else. |
| `SchemaTree.PruneUp` | src/core/data_model.c:3038-3048 | Removing an only child and then its parent removes exactly the parent's subtree. |
| `SchemaTree.DeregisterExact` | src/core/data_model.c:3012-3051 | Deregistering removes a node if and only if it is in the subtree or is an ancestor that led to nothing else. |
| `SchemaTree.DeregisterApplied` | src/core/data_model.c:3025-3050 | A node in more than one table is refused; any other goes with its subtree and exactly the ancestors that led nowhere else. |
| `SchemaTree.ApplyKeeps` | src/core/data_model.c:4536-4637 | Every operation keeps the tree sound, the hash of each node that of its own path and no hash shared. |
| `SchemaTree.RunKeeps` | src/core/data_model.c:3509-3694 | Over every run from the empty schema all of this holds; child lists keep their order while every override suits its node's place, and the first that does not breaks it. |
| `SchemaTree.RetypedOrderedExactly` | src/core/data_model.c:4596-4637 | An override keeps the child lists ordered if and only if the new kind suits the node's place: a new object has only later-numbered objects behind it, a new parameter only earlier-numbered parameters in front. |
| `SchemaNames.RetypedAgreesExactly` | src/core/data_model.c:4596-4637 | An override that is carried out leaves every path and order right if and only if the new type is a table as the path says, and was so before if anything is registered below. |
| `SchemaNames.ApplyAgrees` | src/core/data_model.c:3553-3690 | Every operation with the path and order that the walk builds keeps paths and orders right, except exactly the overrides that do not suit the path. |
| `SchemaNames.RunAgrees` | src/core/data_model.c:3509-3694 | Over every run of registrations with such arguments and of removals, every node's path is its parent's path and its own name, with {i} for a table, and its order the number of tables on it, until the first override that does not suit the path. |
| `SchemaExamples.OverrideBreaksPaths` | src/core/data_model.c:4596-4637 | A run in which an object with a parameter below it is made a table and the parameter's path is left wrong. |
| `SchemaExamples.OverrideBreaksOrder` | src/core/data_model.c:4596-4637 | A run of registrations after which overriding a parameter to be an object breaks the order of the child list. |
| `SchemaExamples.DeRegisterReadsNull` | src/core/data_model.c:3038-3048 | A run of registrations after which deregistering an only child empties a root and reads its null parent. |
| `SchemaExamples.AddThenDeleteLoses` | src/core/data_model.c:1238-1248 | A table, a row and an instance for which adding and deleting the instance loses the row. |
| `NodeMap.PushKeepsMap` | src/core/data_model.c:4666-4675 | Pushing a node to the front of its bucket's chain adds exactly that node to the map. |
| `NodeMap.CutKeepsMap` | src/core/data_model.c:4691-4728 | Relinking around a node, at the head of its chain or behind another, removes exactly that node from the map. |
| `NodeMap.DataModel.constructor` | src/core/data_model.c:4651-4678 | With no nodes and all buckets empty, tree and map agree. |
| `NodeMap.DataModel.FindNodeFromHash` | src/core/data_model.c:5546-5561 | Returns a linked node with that hash if there is one, and nothing only if there is none. |
| `NodeMap.DataModel.LinkToNodeMap` | src/core/data_model.c:4651-4678 | The node joins the map if and only if no linked node has the hash; otherwise chains and buckets are unchanged. |
| `NodeMap.DataModel.UnlinkFromNodeMap` | src/core/data_model.c:4691-4728 | The node is out of the map, wherever in its chain it was; for a node that was not linked, links and buckets stay as they were. |
| `NodeMap.DataModel.CreateNode` | src/core/data_model.c:4536-4577 | A fresh node in the map, or nothing changed when its hash is taken. |
| `NodeMap.DataModel.FindLinkToFirstObject` | src/core/data_model.c:5574-5594 | The loop finds the place of the first object. |
| `NodeMap.DataModel.AddNode` | src/core/data_model.c:3589-3630 | Tree and map after adding a segment agree and are those of AddChild; refused exactly when the hash is taken. |
| `NodeMap.DataModel.AddToChildren` | src/core/data_model.c:3594-3617 | The child is in its parent's list at its place, and no hash changes. |
| `NodeMap.DataModel.OverrideNodeType` | src/core/data_model.c:4596-4637 | The node moves to the bucket of its new path, or everything stays when that hash is taken. |
| `NodeMap.DataModel.DestroyNode` | src/core/data_model.c:5189-5276 | The node leaves map, tree and its parent's child list; everything else stays. |
| `NodeMap.DataModel.DestroySchemaRecursive` | src/core/data_model.c:5162-5176 | Exactly the subtree is gone from tree and map, and only the parent's child list changes. |
| `NodeMap.DataModel.DeRegisterNode` | src/core/data_model.c:3025-3050 | Exactly the subtree and the ancestors left empty are gone; a nested node changes nothing; a null parent is read exactly when a root was removed. |
| `SchemaLookup.GetNodeFromPath` | src/core/data_model.c:3405-3491 | The node with the hash of the path, or else with the hash of the path and {i}, checked for the number of instances; nothing exactly where GetNode says so. |
| `SchemaLookup.EverySpellingFinds` | src/core/data_model.c:3405-3491 | Every spelling of a registered schema path finds its node, with the instance numbers in order and all of them there, wherever paths and orders agree. |
| `SchemaLookup.UnqualifiedTableFinds` | src/core/data_model.c:3417-3437 | A table named without its last instance is found, and reported as lacking it, unless a node has the shorter path's hash. |
| `SchemaLookup.NamedHasInstances` | src/core/data_model.c:3428-3491 | A path that names a node has an instance for each of its tables, or lacks only the last one of a table. |
| `SchemaLookup.DeRegisterPath` | src/core/data_model.c:3012-3051 | The node that either lookup finds is deregistered as DeRegisterNode says; a path that finds none changes nothing; paths and orders stay right. |
| `SchemaLookup.OrderCounts` | src/core/data_model.c:3619-3628 | Where paths and orders agree, the order of a node is the number of {i} in its path. |
| `SchemaLookup.WellFormedRegisters` | src/core/data_model.c:4651-4678 | In a well-formed schema tree every node is the one its hash finds, as the theorems on database keys require. |
| `SchemaLookup.SameLookup` | src/core/data_model.c:5546-5561 | The lookup by hash in the tree and the one behind database keys find the same nodes. |
| `SchemaLookup.NodeKeysDiffer` | src/core/data_model.c:3785-3833 | Different nodes of a well-formed schema tree, or different instance numbers, never share a database key. |
| `SchemaLookup.RegisteredPathIsSchemaPath` | src/core/data_model.c:3551-3564 | The path a node is registered with is a schema path as database keys understand it, with as many {i} as the node's order. |
| `SchemaPath.FindMatchingChild` | src/core/data_model.c:3903-3923 | The child of that name, or none only if no child has it. |
| `SchemaPath.TrailUnique` | src/core/data_model.c:3509-3694 | With siblings named differently, the names of a path lead to at most one node. |
| `SchemaPath.Visit` | src/core/data_model.c:3665-3684 | An existing node is overridden as OverrideNodeType says, a refusal going unnoticed, or accepted exactly when its order matches. |
| `SchemaPath.Extend` | src/core/data_model.c:3589-3630 | A missing segment becomes a childless node with the segment's name, type, path and order below its parent, and siblings keep different names. |
| `SchemaPath.Descend` | src/core/data_model.c:3564-3688 | One segment of the walk succeeds exactly if the child suits it, or is missing, may be added and has a free hash; it finds or adds the child of that name, below a childless node always adding; nothing changes when it is found and not overridden, and otherwise only that child and its parent's list do. |
| `SchemaPath.AddSchemaPath` | src/core/data_model.c:3509-3694 | The node returned is the one the names lead to from the matching root, of the order and, unless the check is suppressed, the type the path gives it, and a new one has the path of its segments; siblings keep different names and tree and map agree, also when the walk fails part way. Every node that was not there lies on the way along the names; every other node stays as it was, but for lists of children and an overridden last node. Paths and orders stay right if and only if no override that is carried out fails to suit the path. It succeeds if and only if the first name is a root's, the type fits the last segment and every segment is accepted: its node suits it, or is missing, no table inside the path, and of a free hash. |
| `Instances.DoomedExactly` | src/core/data_model.c:5000-5149 | A row goes with an instance if and only if its key is the hash of a parameter below it in the schema with the numbers of the instance or of an existing nested one. |
| `Instances.SameKeyExactly` | src/core/data_model.c:3785-3833 | Keys are equal if and only if the hashes and the instance numbers are. |
| `Instances.OthersSafe` | src/core/data_model.c:5000-5149 | No row whose numbers do not begin with those of the instance is deleted. |
| `Instances.DoomedStays` | src/core/data_model.c:5000-5077 | Deleting one table's instances does not change which rows go with another. |
| `Instances.DoomedAreDefaults` | src/core/data_model.c:4875-4983 | With nothing nested, the rows deleted with an instance are exactly those that adding it wrote. |
| `Instances.AddThenDelete` | src/core/data_model.c:1238-1248 | Adding a fresh instance and deleting it restores the instances, and the database if and only if none of the new rows were there before. |
| `InstanceSchema.SubtreeWellFormed` | src/core/data_model.c:5000-5149 | The subtree of any node of a sound schema tree has its tables told apart and nested no deeper than the instance structure holds, which the assertion in the multi-instance function needs. |
| `InstanceRows.DeletedExactly` | src/core/data_model.c:5000-5149 | Deleting an instance deletes exactly the rows of the stored parameters below it, at it and at existing nested instances, each under the key of its instantiated path. |
| `InstanceRows.OtherParametersStay` | src/core/data_model.c:5000-5149 | No row of a parameter that is not below the table is deleted, whatever its instance numbers. |
| `InstanceRows.WrittenExactly` | src/core/data_model.c:4875-4983 | Adding an instance writes exactly the rows of the stored parameters below it with no table in between, each under the key of its path, with the value of its hook or the one it was registered with. |
| `InstanceRows.WrittenIfAnswered` | src/core/data_model.c:4875-4983 | Adding asks every hook below the instance, and goes on if and only if each of these parameters has a first value. |
| `InstanceRows.KeyOfNode` | src/core/data_model.c:3785-3833 | The key of a stored parameter's instantiated path is its hash and its instance numbers. |
| `InstanceObject.DataStore.RemoveInstance` | src/core/dm_inst_vector.c:197-246 | The instance and everything nested in it leave the vector, the rest keep their order. |
| `InstanceObject.DataStore.AddInstance` | src/core/dm_inst_vector.c:144-180 | The instance is appended unless it is there already. |
| `InstanceObject.DataStore.GetInstances` | src/core/dm_inst_vector.c:453-506 | The numbers of the existing instances of a table, each once. |
| `InstanceObject.DataStore.DeleteChildParams` | src/core/data_model.c:5000-5077 | Exactly the rows of DoomedExactly and the nested instances are gone and the instance structure is restored; on failure no other row is lost. |
| `InstanceObject.DataStore.DeleteTable` | src/core/data_model.c:5094-5149 | Every existing instance of the table below the given one is gone with its rows, and the instance structure is restored. |
| `InstanceObject.DataStore.AddChildParamsDefaultValues` | src/core/data_model.c:4875-4983 | Exactly the default rows are written; on failure no other row is touched. |
| `InstanceObject.DataStore.CreateInstance` | src/core/data_model.c:1055-1078 | The instance, also one that was there already, and its default rows are there; on failure it leaves with everything nested in it, and a new one leaves the instances as they were. |
| `InstanceObject.DataStore.DeleteInstance` | src/core/data_model.c:1234-1250 | The instance, everything nested in it and exactly their rows are gone. |
| `Dllist.List.LinkToHead` | src/core/dllist.c:114-138 | The item is put in front of the sequence and every link agrees with it. |
| `Dllist.List.LinkToTail` | src/core/dllist.c:153-177 | The item is put behind the sequence and every link agrees with it. |
| `Dllist.List.Unlink` | src/core/dllist.c:194-223 | The item is taken out wherever it is, its own links are null and all others agree with the sequence. |
| `Dllist.List.InsertLinkBefore` | src/core/dllist.c:241-266 | The item is put at the place of the insert point, which moves behind it. |
| `Dllist.List.InsertLinkAfter` | src/core/dllist.c:283-307 | The item is put right behind the insert point. |
| `Dllist.MoveLink` | src/core/dllist.c:324-331 | The item goes from its place to the tail of the destination, which may be the same list. |
| `Dllist.Inserted` | src/core/dllist.c:241-307 | Links rewritten around one place and in the new item are those of the longer sequence. |
| `Dllist.Removed` | src/core/dllist.c:194-223 | Links joined across one place are those of the shorter sequence. |
| `BulkData.GridWaitExact` | src/core/device_bulkdata.c:2413-2426 | The wait is the unique one in 1..interval that ends on the reporting grid, also for a reference in the future. |
| `BulkData.ResyncExact` | src/core/device_bulkdata.c:2332-2399 | The retry count is zero exactly when the wait ends on the next grid instant; otherwise it ends before that instant. A retry is pending afterwards if and only if one was pending before and comes first. |
| `BulkData.RetainedIsNewest` | src/core/device_bulkdata.c:2559-2582 | Over every run the retained reports are the newest collected since the last clear, oldest first, within the array; a fire without a pending retry keeps as many as the limit allows and adds the one collected. |
| `BulkData.RetainedCount` | src/core/device_bulkdata.c:2559-2582 | With one limit throughout, exactly the newest limit + 1 reports are retained, or all there are. |
| `BulkData.RetriesSendTheSame` | src/core/device_bulkdata.c:2332-2399 | While every failure's retry comes before the next interval, every failure counts and every retry sends the same reports. |
| `BulkData.ProfileBuffer.constructor` | src/core/device_bulkdata.c:2851-2865 | A new profile retains nothing. |
| `BulkData.ProfileBuffer.DropOldest` | src/core/device_bulkdata.c:2819-2838 | The newest reports are moved down in place and the oldest dropped. |
| `BulkData.ProfileBuffer.Append` | src/core/device_bulkdata.c:2559-2582 | The report is put behind the others, inside the array. |
| `BulkData.ProfileBuffer.Fire` | src/core/device_bulkdata.c:2559-2582 | Dropping and appending on a timer fire are those of the run model. |
| `BulkData.ProfileBuffer.Clear` | src/core/device_bulkdata.c:2851-2865 | Nothing is retained. |
| `BulkData.ProfileBuffer.NotifyResult` | src/core/device_bulkdata.c:477-526 | After a failure with retries enabled the count is one more and the wait is the retry's if and only if that is less than the wait for the grid; without them a pending count is kept under the same condition; otherwise the count is 0 and the wait is the grid's. |
| `AltName.AltNameCorrect` | src/core/device_bulkdata.c:2883-2979 | For every specification and every path that instantiates it, but for a search expression with a ']' in quotes and path text behind it, the output is the alternative name, the matched numbers in order and the remainder, with single dots and none at the end. |
| `AltName.ReduceMatches` | src/core/device_bulkdata.c:2905-2965 | A full match without ']' in quotes, with path text behind it, consumes every segment and adds exactly the matched numbers. |
| `AltName.QuotedBracketExactly` | src/core/device_bulkdata.c:2938-2953 | With a ']' in quotes, path text behind the search expression and a character behind that ']' which the path does not have, the output is the alternative name, the numbers so far and the whole remaining path; right if and only if no name of the specification follows. |
| `AltName.UpToBracket` | src/core/device_bulkdata.c:2938-2953 | For every ']' in quotes the reduction is right up to the search expression's number and then goes on behind the quoted ']'. |
| `AltName.QuotedBracketKeepsName` | src/core/device_bulkdata.c:2938-2953 | A specification and a path that instantiates it for which a name of the specification is left in the output. |
| `AltName.ReduceInto` | src/core/device_bulkdata.c:2883-2979 | The in-place loop computes the reduction whenever it does not report a small buffer, and a buffer of a stated size is never too small. |

## Left out

- DTLS, certificates, DNS, interface polling, sockets and select: only their success or failure is a parameter of a step.
- Other sockets and sessions: the joined system has one client socket and one server session; StopCoapSession, session reuse and inactivity timeouts are not modelled.
- The clock, random waits and tokens, protobuf unpacking, parsing of URI queries, address printing, the text of error messages and the step of the hash function are parameters.
- Logging, mutexes, thread wake-up and memory accounting: every entry point is one step.
- CoapServer.WriteRst: for a token size above eight the source copies past the token into the fields behind it; the model sends eight zero bytes.
- CoapCodec.ParsePdu: without an end marker the source points the payload at the option bytes; the model does the same and states payload properties with the marker only.
- CoapClientObject.SendClient: the fields are grouped in records that are replaced as a whole, and the send queue is a sequence; its linked list is the one of module Dllist.
- NodeMap.DataModel: nodes are values in a table indexed by pointers, which are numbers in order of creation, and child lists are sequences; the links of a child list are those of module Dllist.
- NodeMap.DataModel.UnlinkFromNodeMap: requires that the bucket is not empty, as the source reads its first node unconditionally.
- AltName.AltNameCorrect: a search expression with a ']' in quotes and path text behind it is left to QuotedBracketExactly, because the code does not meet the property there; where the character behind the quoted ']' is a wildcard, a '[' or one that the path has, UpToBracket says where the reduction goes on, and what it then skips depends on the text in quotes.
- SchemaPath.AddSchemaPath: splitting the path into segments (ParseSchemaPath) is not modelled; the instance node arrays are represented by their length.
- PathHash.CalcHashFromPath: instance numbers are not wrapped to 32 bits, and the limit of six instances also applies where the source is given no structure to store them in.
- DbKeys.ParseInstanceString: the source writes past its array for more than six numbers, and the model keeps all of them.
- DbKeys.FormInstanceString: the buffer is taken to be large enough; truncation is not modelled.
- DbKeys.FormInstantiatedPath: requires a buffer with room for the result, because with less the copying loop makes no progress.
- DbKeys.KeyRoundTrip: parameters migrated to another path are not covered.
- InstanceObject.DataStore: one vector stands for those of all top-level tables; refreshing instances through vendor hooks, notifications and the unused tail of the instance arrays are not modelled.
- AltName.ReduceInto: states a buffer size that is always enough, not the smallest one, and does not model the terminating zero.
- Bulk data over USP events and MQTT, JSON and CSV generation, compression and transfers by libcurl; only the HTTP profile's buffer and timing are modelled.
- Database files, the command line interface, subscriptions, permissions, group vendor hooks and the example plug-ins.
