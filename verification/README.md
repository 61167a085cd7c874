# Verified model of Bubot CoAP

A Dafny model of the protocol core of this CoAP library, with proofs about it: block-wise transfer
(RFC 7959, sections 2.2 to 2.5), the two option codecs and the datagram format (RFC 7252, section 3),
framing over TCP (RFC 8323, section 3.2), and the message layer with its duplicate detection, response
matching, purging and retransmission (RFC 7252, sections 4.2, 4.5, 4.8 and 5.3.2).
`dafny verify dfyconfig.toml` checks everything.

## How the model is built

Code that the library writes with loops and mutable fields is a class or a method with a loop, proved
equal to a function; what the library promises is then proved about that function, for every input and
every run.

| part | files |
|---|---|
| integers, text, registry, one option on the wire, option order | `bytes`, `utf8`, `option_registry`, `option_wire`, `option_order` |
| options and payload, shared by `serializer.py`, `serializer_udp.py` and `serializer_tcp.py` | `body_codec` |
| datagrams; frames and how their fields are packed; the TCP reader | `udp_serializer`; `tcp_packing`, `tcp_serializer`; `tcp_protocol` |
| the second codec in `messages/options.py`, and its agreement with the first | `options_codec` |
| the Block1/Block2 option triple | `block_option` |
| message objects; the block layer as a state machine; the class that refines it | `messages`; `block_tables`; `block_layer` |
| runs of the block layer; both halves together; with datagrams between them | `block_isolation`, `block_serving`, `block_receiving`, `block_sending`; `block_transfer`; `message_wire`, `datagram_transfer` |
| the octets of all formats in literal numbers | `octet_layout` |
| message ids, tokens, transactions; the order of the layers, uploads through it; the retransmission loop | `message_layer`; `server`, `served_uploads`; `retransmission` |

The chain of the main results: `BlockLayer` (a class over mutable items) refines `BlockTables`, exceptions
included; `BlockIsolation`, `BlockServing`, `BlockReceiving` and `BlockSending` prove, for every sequence of its calls,
safety of all four halves and non-interference; `BlockTransfer`
runs client and server against each other; `DatagramTransfer` puts the proved serializer between them and
finds exactly which transfers survive it. Each exchange of these runs is what the composed layers of `Server` do
with one datagram (`Server.ServeIsHandle`, `ServedUploads.UploadStepIsHandle`, `Server.ContinuationIgnoresHistory`,
`Server.Server.DatagramReceivedRequest`, `Server.Server.DatagramReceivedResponse`).

## Modelling choices

- `str_append_hash` is taken to be injective: keys are tuples (host, port, token) or (host, port, message id).
- Payloads of messages are octets or missing. What an item holds is octets, nothing, or the text `""` that
  `send_request` starts a negotiated download with; only octets can be joined with octets, and any other join is an
  exception, with the fields that the code has updated before it.
- Handling one datagram is one step, with the transaction's lock granted at once. Times are parameters, as are
  the random token and the resource's rendering. `Retransmission` takes the fate of each wait as a parameter.
- Text is any sequence of Unicode scalar values. Integers are unbounded where Python's are, and limited where the
  code packs them. The byte order of the sending machine is a parameter of the TCP serializer; about that of the
  parsing machine, which decides how critical options are recognised, nothing is assumed (`BodyCodec.Host`).
- A message carries the options that the block layer knows and a list of others, in the order of their numbers.
- An exception that escapes `data_received` closes the connection, as asyncio does.
- The block layer never reads type and message id; in `MessageWire` they are drawn anew for each message. While a
  download is Resending, the request goes out under the id it has, and the server's transaction is a completed one.

## Where the code differs from its documentation or the standards

- A body of exactly k full blocks gets one more, empty block (`BlockTransfer.LastBlockEmpty`). In a datagram that
  block has no payload, and joining it raises: such a download never ends (`DatagramTransfer.Block2OverDatagrams`,
  at one input `DatagramTransfer.TwoFullBlocksBreak`), nor does an upload of exactly one explicitly requested block
  (`DatagramTransfer.Block1OverDatagrams`).
- Early negotiation never delivers: octets are joined with the text `""`, or the client compares the content type
  with one it has not stored and sends the same request again (`BlockTransfer.NegotiationNeverDelivers`, at two inputs
  `BlockTransfer.NegotiationFails`). `BlockTransfer.RepairedNegotiation` is about a repaired start value, not the code.
- A first Block1 request without a payload blocks its key for good (`BlockIsolation.PayloadlessUploadBlocksItsKey`);
  a request for blocks without a payload raises in `send_request`.
- For a running item the server cuts at its own offset and only copies the requested number into the answer, so the
  answer is right exactly when the two agree (`BlockServing.BlockRequestIsAnswered`, `BlockServing.InStepIsRight`; at
  two inputs `BlockServing.OtherBlockIsSent`, `BlockServing.RepeatedRequestShifts`).
- The client does not look at the number of a last block, so a body can be delivered without a block in between
  (`BlockReceiving.LastBlockArrives`, at one input `BlockReceiving.SkippedBlockIsDelivered`).
- Block numbers of an upload count blocks, whatever their size; both halves agree on it (`BlockTransfer.UploadProgress`).
- Block (0, 0, 16) is written as zero and raises when read (`MessageWire.MessageSurvives`,
  `DatagramTransfer.Block1OverDatagrams`).
- The length of a text option is announced in characters, so a text outside ASCII is never read back
  (`UdpSerializer.UdpRoundTrip`, `OptionsCodec.CodecAgreement`). A token of 16 or more octets is not either.
- An empty string option arrives as the three characters `b''`; a plain message loses its code on UDP; an
  announced token that is missing arrives empty (`UdpSerializer.DatagramRoundTrip`, `UdpSerializer.ParsePrintParse`).
- The codecs disagree on integers from 2^32 on and on values of 65804 octets (`OptionsCodec.CodecAgreement`).
- The TCP serializer packs two-octet fields in the byte order and alignment of the machine, while the parser reads
  network order; `TcpSerializer.FrameRoundTrip` says exactly which frames survive that
  (`TcpSerializer.OcfVersionIsLost`, `TcpSerializer.SwappedLengthAtTheEnd`).
- `data_received` hands over one frame a call, so frames that arrive together wait for later octets
  (`TcpProtocol.NothingWaits`).
- A message id of 0 is never recognised as a duplicate, a purged id is handled again, and ids fetched for
  responses share the table of request ids, so a request can be taken for a duplicate of a response
  (`Server.AtMostOnce`, `MessageLayer.MessageLayer.SendResponse`).
- The response of a running Block2 transfer keeps the type and id of its first block
  (`MessageLayer.MessageLayer.SendResponse`).
- The limit counts waits, so the loop re-sends at most MAX_RETRANSMIT - 1 times, and MAX_TRANSMIT_SPAN is computed
  with one power of two more than in section 4.8.2 of RFC 7252 (`Retransmission.Retransmit`).

## Model

| member | source | states |
|---|---|---|
| BlockTransfer.Block1EndToEnd | src/Bubot_CoAP/layers/block_layer.py:70-156 | With the two halves joined directly: for every payload and whatever positive block sizes the answers carry, the upload that starts at block 0 ends within length + 1 exchanges, the server delivers the original payload with the rest of the request unchanged, and its tables end as they began; a request for blocks without a payload raises before anything is sent. |
| BlockTransfer.UploadProgress | src/Bubot_CoAP/layers/block_layer.py:129-156 | One exchange of an upload either delivers the whole payload or moves `byte` strictly forward while client item, server item and the request in flight stay in step; the size never grows. |
| BlockTransfer.Block2EndToEnd | src/Bubot_CoAP/layers/block_layer.py:53-68 | With the two halves joined directly: a body above 1024 octets is reassembled exactly after floor(length/1024) + 1 exchanges, any shorter one after 1, also when the server purges the transaction before any of the exchanges. |
| BlockTransfer.DownloadProgress | src/Bubot_CoAP/layers/block_layer.py:221-258 | Before block j is served the item stands at offset j * size over the unchanged body; each exchange ends with the whole rest of the body or keeps this for j + 1. |
| BlockTransfer.NegotiationNeverDelivers | src/Bubot_CoAP/layers/block_layer.py:298-306 | A promise that fails: a request that opens with Block2 (j, size) never receives anything. If j * size + size <= length, the first answer cannot be joined with the text that send_request stores, and the exception ends the transfer; otherwise the client refuses the answer and sends the same request again, for ever, purges or not. |
| BlockTransfer.NegotiationFails | src/Bubot_CoAP/layers/block_layer.py:171-194 | Block 0 of 64 octets, asked of a body of 100 octets (raises) and of a body of 10 (is asked for again). |
| BlockServing.OffsetsAddUp | src/Bubot_CoAP/layers/block_layer.py:53-68 | For every run of calls from an empty server, the stored offset of a key is that of its first block request, or 0 for a plain one, plus the sizes of all blocks served since its entry was made; what later requests ask for never moves it. |
| BlockServing.BlockRequestIsAnswered | src/Bubot_CoAP/layers/block_layer.py:221-258 | After any run, the answer to a request for Block2 (j, size) names j, size and the M bit that belongs to them, and carries the stretch of the stored body at that offset. |
| BlockServing.InStepIsRight | src/Bubot_CoAP/layers/block_layer.py:227-253 | That stretch is the one at j * size, for every body, if and only if the offset is j * size. |
| BlockServing.OtherBlockIsSent | src/Bubot_CoAP/layers/block_layer.py:251-253 | After the first block of 5000 octets, a request for block 0 or for block 2 is answered under that number with block 1. |
| BlockServing.RepeatedRequestShifts | src/Bubot_CoAP/layers/block_layer.py:255-256 | A block-1 request of 3500 octets that is handled twice: block 2 is then announced with M set and carries the octets from 3072 on. |
| BlockServing.ResponseIsPrepared | src/Bubot_CoAP/layers/block_layer.py:212-260 | Every outgoing response, in every state: sent as it is, cut from the stored or its own body with number, M bit, Size2 and the advanced item written out, or, without a response, an exception exactly when a body is stored. |
| BlockServing.BlockRequestIsNoted | src/Bubot_CoAP/layers/block_layer.py:53-68 | What a Block2 request changes: number, M bit and size of a stored item, or a new item at num * size; its option is taken off; the transaction is completed if a body is stored. |
| BlockReceiving.FetchesAreAssembled | src/Bubot_CoAP/layers/block_layer.py:157-194 | For every run of calls, what the client holds for a key is its start value joined with exactly the response blocks taken since, in consecutive numbers and of one content type. |
| BlockReceiving.NextResponseBlock | src/Bubot_CoAP/layers/block_layer.py:161-185 | After any run, a block with M set is refused, with a reset and 4.08 or 4.15, if and only if its number or content type is another one; then the tables and the request stay as they are. One that follows raises if and only if one side of the join is missing, after its number has been counted. |
| BlockReceiving.BlockArrives | src/Bubot_CoAP/layers/block_layer.py:161-185 | The whole effect of a block with M set: refusal, or the stored join and the request for the next number. |
| BlockReceiving.LastBlockArrives | src/Bubot_CoAP/layers/block_layer.py:186-194 | The whole effect of a block with M clear: refused with 4.15 for another content type, an exception if it cannot be joined, otherwise the whole payload for the caller, whatever its number is. |
| BlockReceiving.RepeatedBlockIsRefused | src/Bubot_CoAP/layers/block_layer.py:165-167 | A block that arrives a second time is refused with 4.08 and changes nothing. |
| BlockReceiving.SkippedBlockIsDelivered | src/Bubot_CoAP/layers/block_layer.py:186-194 | Block 2 of three, last and right behind block 0, is delivered as the end of the body, without block 1. |
| BlockSending.SendingsAddUp | src/Bubot_CoAP/layers/block_layer.py:272-297 | For every run of calls, what the client holds for an upload is its payload, the sum and the last of the sizes sent, the number of the last block and whether more octets follow. |
| BlockSending.NextAnswer | src/Bubot_CoAP/layers/block_layer.py:125-156 | After any run, an answer with Block1 ends the transfer if and only if no octets follow the last block; one that names another block has the same request sent again; any other one has the next stretch of the payload sent, in the smaller of the two sizes. |
| BlockSending.StretchesMakePrefix | src/Bubot_CoAP/layers/block_layer.py:144-146 | The stretches sent one after the other are the payload from its start, without gap or overlap. |
| BlockTransfer.LastBlockEmpty | src/Bubot_CoAP/layers/block_layer.py:242-242 | With the `>` of the M bit the last block is empty exactly when the size divides the body. |
| BlockIsolation.UploadsAreAssembled | src/Bubot_CoAP/layers/block_layer.py:70-114 | For every run of calls from an empty server, what is stored for a key is the concatenation of exactly the blocks accepted since the last delivery, numbered 0, 1, ..., n-1, of one content type, and `num` is n; it is no payload at all only if the first and only block had none. |
| BlockIsolation.NextBlockRequest | src/Bubot_CoAP/layers/block_layer.py:78-114 | After any run a Block1 request is rejected with 4.08 if and only if it has another number or content type than the next block; it breaks off with an exception if and only if it is the next block but it or the stored payload is missing; neither changes a table; the last accepted one delivers the concatenation and removes the entry. |
| BlockIsolation.PayloadlessUploadBlocksItsKey | src/Bubot_CoAP/layers/block_layer.py:85-93 | After a first block without a payload no block request of that key is accepted again, in any later run, purges included. |
| BlockIsolation.NonInterference | src/Bubot_CoAP/layers/block_layer.py:38-116 | For every interleaving of calls, the results seen by one (host, port, token) key and its four table entries are those of its own calls run alone. |
| BlockIsolation.SnapshotIsStable | src/Bubot_CoAP/layers/block_layer.py:224-234 | No call of any key replaces the body that response blocks are cut from; only the purge of its own key removes it. |
| DatagramTransfer.Block1OverDatagrams | src/Bubot_CoAP/layers/block_layer.py:281-297 | Block1 with every request and answer serialized and parsed as a datagram, for any message ids and any nameable sizes: the payload arrives whole if and only if the request is not one for blocks without a payload (raises in send_request), of exactly the requested size (its empty last block raises at the server), or below 16 octets in blocks of 16 (its option is written as zero). |
| DatagramTransfer.Block2OverDatagrams | src/Bubot_CoAP/layers/block_layer.py:157-194 | Block2 with every message serialized and parsed as a datagram, for any message ids and any purge schedule: after floor(length/1024) + 1 exchanges the body has arrived whole if and only if length <= 1024 or 1024 does not divide it; otherwise the last exchange raises at the client, where the empty block has no payload to join. |
| DatagramTransfer.TwoFullBlocksBreak | src/Bubot_CoAP/layers/block_layer.py:193-193 | A body of 2048 octets never arrives. |
| DatagramTransfer.ExactBlockBreaks | src/Bubot_CoAP/layers/block_layer.py:85-85 | A payload of 64 octets in blocks of 64 never arrives. |
| DatagramTransfer.RestIsCarried | src/Bubot_CoAP/layers/block_layer.py:221-258 | From any point between two exchanges of a download of fewer than 2^20 blocks, of any nameable size, the rest of the body is carried over if and only if the size does not divide the body. |
| MessageWire.MessageSurvives | src/Bubot_CoAP/messages/message.py:644-792 | A message of the block layer, with any other well-formed options in ASCII, written as options by the setters, serialized, parsed and read by the getters, is unchanged if and only if its blocks fit their options; it is lost if and only if a block is written as zero. |
| BlockLayer.BlockLayer.ReceiveRequest | src/Bubot_CoAP/layers/block_layer.py:38-116 | The four tables, the transaction and the way the call ends, exceptions included, are those of the state machine `BlockTables.ReceiveRequest`. |
| BlockLayer.BlockLayer.ReceiveResponse | src/Bubot_CoAP/layers/block_layer.py:118-196 | As above for `BlockTables.ReceiveResponse`; what an exception leaves half updated is part of the state. |
| BlockLayer.BlockLayer.SendResponse | src/Bubot_CoAP/layers/block_layer.py:212-260 | As above for `BlockTables.SendResponse`, also for a transaction without a response. |
| BlockLayer.BlockLayer.SendRequest | src/Bubot_CoAP/layers/block_layer.py:272-307 | As above for `BlockTables.SendRequest`, which raises when the length of a missing payload is asked for. |
| BlockLayer.BlockLayer.Purge | src/Bubot_CoAP/layers/block_layer.py:266-270 | As above for `BlockTables.Purge`: only the Block2 entry of the key goes. |
| UdpSerializer.DatagramRoundTrip | src/Bubot_CoAP/serializer_udp.py:24-248 | For every well-formed message with an id of two octets, at most 15 token octets and ASCII texts, what parsing its datagram yields, exactly: options stably sorted, an empty string option turned into its repr, an empty payload absent, a missing token drawn, a code outside the ranges dropped. |
| UdpSerializer.UdpRoundTrip | src/Bubot_CoAP/serializer_udp.py:131-248 | Whatever the setters admit, id 65536 included: the message comes back unchanged but for the sort if and only if it has an id below 65536, a token of 1 to 15 octets, only ASCII texts, no empty string option, a request or response code and no empty payload. |
| UdpSerializer.LongTokenIsLost | src/Bubot_CoAP/serializer_udp.py:134-148 | A token of 16 to 256 octets never comes back: its length runs into version and type, or cannot be packed at all. |
| UdpSerializer.LongTextInDatagram | src/Bubot_CoAP/serializer_udp.py:200-204 | With a text outside ASCII, whose length is announced in characters, other options come back, if the datagram is accepted at all. |
| UdpSerializer.AcceptedIsRepresentable | src/Bubot_CoAP/serializer_udp.py:67-128 | Every accepted datagram yields a message that can be written again, with its options in non-decreasing order and none repeated against the registry. |
| UdpSerializer.ParsePrintParse | src/Bubot_CoAP/serializer_udp.py:24-128 | Parsing the re-serialized message gives the same message if and only if the datagram did not end right behind a header that announces a token, no string option came out empty, and every text is ASCII. |
| UdpSerializer.Serialize | src/Bubot_CoAP/serializer_udp.py:131-248 | The method writes `PrintDatagram`, the function of the round trips, or raises with it. |
| UdpSerializer.Deserialize | src/Bubot_CoAP/serializer_udp.py:24-128 | The method returns `ParseDatagram`, the function of the round trips, error cases included. |
| OctetLayout.DatagramLayout | src/Bubot_CoAP/serializer_udp.py:141-230 | The octets of a datagram in literal numbers: 64 + 16 * type + token length, code, id, token, options, and 255 with the payload if it is not empty. |
| OctetLayout.FirstOctetBits | src/Bubot_CoAP/serializer_udp.py:147-150 | Every bit of the first octet is the one of version 1, of the type, or of a token length of up to eight bits. |
| OctetLayout.UnpackedLayout | src/Bubot_CoAP/serializer_udp.py:228-250 | Every datagram has the length of its parts; the id 65536 and a token of 256 octets leave zeros from where packing stops. |
| OctetLayout.DatagramIsParsed | src/Bubot_CoAP/serializer_udp.py:36-128 | Octets of this shape are parsed into these fields, with the options and payload of the rest. |
| OctetLayout.DatagramIsRefused | src/Bubot_CoAP/serializer_udp.py:36-128 | Datagrams below four octets, of another version, of an unknown code in the two ranges, or with a marker and nothing behind it are refused. |
| OctetLayout.OneDatagram | src/Bubot_CoAP/serializer_udp.py:70-117 | One datagram, octet for octet. |
| OctetLayout.OptionLayout | src/Bubot_CoAP/serializer_udp.py:161-203 | The octets of an option in literal numbers: 16 * delta + length, or 13 and 14 with their extended fields, and the value. |
| OctetLayout.ValueLayout | src/Bubot_CoAP/serializer_udp.py:188-203 | The octets of small integers, opaque values and ASCII characters. |
| OctetLayout.ShortOptionIsParsed | src/Bubot_CoAP/serializer_udp.py:67-108 | Octets of this shape are parsed into the option, at any place of a body. |
| OctetLayout.UnknownOptionIsParsed | src/Bubot_CoAP/serializer_udp.py:76-83 | An unregistered option refuses the message if it is critical or above 65535 and is skipped with its value otherwise; from 256 on a big-endian machine takes the flag from bit 8 (defines.py:217-224). |
| OctetLayout.ValueIsParsed | src/Bubot_CoAP/serializer_udp.py:306-339 | What one and two octets are read as, by the type of the option. |
| OctetLayout.MarkerIsParsed | src/Bubot_CoAP/serializer_udp.py:70-119 | The octet 255 ends the options, and at least one octet must follow it. |
| OctetLayout.CodesAreRead | src/Bubot_CoAP/serializer_udp.py:42-48 | Exactly which codes are kept, dropped and refused. |
| BodyCodec.WriteBody | src/Bubot_CoAP/serializer_udp.py:157-226 | The loop over the sorted options and the payload section equals the recursive printer, and raises exactly when a delta or a length has no nibble. |
| BodyCodec.WriteOption | src/Bubot_CoAP/serializer_udp.py:161-206 | One round of the loop writes header byte, extended fields and value of one option. |
| BodyCodec.ReadBody | src/Bubot_CoAP/serializer_udp.py:67-119 | The parsing loop equals the recursive parser; it ends because every round moves `pos` forward. |
| BodyCodec.ReadPrintedHeader | src/Bubot_CoAP/serializer_udp.py:269-303 | Reading the header of any printed option gives its delta and length and stops exactly at its value. |
| BodyCodec.ParsePrintedOption | src/Bubot_CoAP/serializer_udp.py:161-206 | Parsing one printed option stores exactly that option and stops right behind it, whatever follows. |
| BodyCodec.BodyRoundTrip | src/Bubot_CoAP/serializer.py:66-225 | The option and payload section of every well-formed message, written and read back: exactly, if its texts are ASCII; otherwise the first other text comes back different or the section is refused. |
| BodyCodec.ParsedBodyIsWellFormed | src/Bubot_CoAP/serializer_udp.py:75-106 | Whatever options the parser accepts are registered, of their registered type, in order, and not repeated unless repeatable. |
| OptionWire.ReadPrintedField | src/Bubot_CoAP/serializer_udp.py:353-367 | Nibble and extended field of every value up to 65804 are read back as that value. |
| OptionWire.ParsePrintedValue | src/Bubot_CoAP/serializer_udp.py:306-339 | The octets of a value of a registered type, under its `Option.length`, are stored as that value, but for the empty string, if its text is ASCII. |
| OptionWire.LongTextIsLost | src/Bubot_CoAP/messages/option.py:82-92 | The announced length of a text outside ASCII is shorter than its octets, and what is read in its place is another text or none. |
| Utf8.CharacterLayout | src/Bubot_CoAP/messages/optiontypes.py:55-61 | The octets of every character in literal numbers: one below 128, otherwise 192, 224 or 240 plus the high bits and 128 plus six bits each. |
| Utf8.Utf8RoundTrip | src/Bubot_CoAP/messages/optiontypes.py:55-61 | Every text decodes from its encoding. |
| Utf8.DecodedIsEncoded | src/Bubot_CoAP/serializer_udp.py:326-328 | Octets that decode to a text are its only encoding. |
| Utf8.Utf8Length | src/Bubot_CoAP/messages/option.py:92-92 | A text has as many octets as characters if and only if it is ASCII, otherwise more. |
| OptionOrder.SortIsStable | src/Bubot_CoAP/serializer_udp.py:342-350 | The sort is a permutation, in order of numbers, and keeps the order of equal numbers. |
| OptionOrder.StableOrderIsUnique | src/Bubot_CoAP/messages/options.py:188-189 | Two sorted lists that agree, number by number, on their options in order are equal: stable order has one form only. |
| OptionRegistry.TablesAgreeExceptMaxMessageSize | src/Bubot_CoAP/defines.py:140-205 | The registry and the option formats of the second codec give every registered number the same kind of value, except number 2. |
| OptionRegistry.RegisteredOptions | src/Bubot_CoAP/defines.py:140-205 | Exactly which options are registered, which may repeat, of which kind they are and what their defaults are. |
| OptionsCodec.CodecAgreement | src/Bubot_CoAP/messages/options.py:156-189 | For all options on which the registries agree: if every text is ASCII, the second codec encodes the bytes that the serializer writes, and raises exactly when an integer needs more than 32 bits or a value is 65804 octets long; with any other text the two never write the same bytes. |
| OptionsCodec.GroupsRoundTrip | src/Bubot_CoAP/messages/options.py:133-173 | `decode` of `encode`, marker and payload rebuilds the groups in order and returns exactly the payload. |
| OptionsCodec.DecodeEncodedOption | src/Bubot_CoAP/messages/options.py:14-43 | One encoded option decodes to itself and no more is read; its header byte is never the payload marker. |
| OptionsCodec.GroupOrderIsStableSort | src/Bubot_CoAP/messages/options.py:175-189 | Grouping by number and listing the groups in order of number is the stable sort. |
| OptionsCodec.DecodeEncodedValue | src/Bubot_CoAP/messages/optiontypes.py:47-165 | Every value of a number's format, integers in four packed octets without leading zeros and block triples included, decodes to itself. |
| OptionsCodec.Options.AddOption | src/Bubot_CoAP/messages/options.py:175-177 | The option joins the end of its number's group; the groups stay consistent. |
| OptionsCodec.Options.Decode | src/Bubot_CoAP/messages/options.py:133-154 | The loop equals the recursive decoder on the groups held before, and returns the rest or the failure. |
| OptionsCodec.Options.ListOptions | src/Bubot_CoAP/messages/options.py:188-189 | The groups one after the other by ascending number. |
| OptionsCodec.Options.Encode | src/Bubot_CoAP/messages/options.py:156-173 | The loop equals the recursive encoder over that listing. |
| OctetLayout.ContainerLayout | src/Bubot_CoAP/messages/options.py:156-173 | The octets of an option with short fields: 16 * delta + length and the value. |
| OctetLayout.ContainerField | src/Bubot_CoAP/messages/options.py:31-43 | Nibble and extended octets of every field of the second codec. |
| OctetLayout.ContainerMarker | src/Bubot_CoAP/messages/options.py:139-154 | The octet 255 ends the decoding, and what follows it is returned. |
| OctetLayout.ContainerValues | src/Bubot_CoAP/messages/optiontypes.py:103-150 | The octets of small integers and block triples; 2^32 raises. |
| Bytes.CountOctets | src/Bubot_CoAP/utils.py:117-133 | Shifting and rounding up count the least number of octets that hold the integer (with `Bytes.ByteLenIsLeast`). |
| Bytes.ByteLenIsLeast | src/Bubot_CoAP/utils.py:117-133 | `ByteLen(v) <= n` if and only if v < 256^n. |
| Bytes.PackedInteger | src/Bubot_CoAP/serializer_udp.py:370-397 | At its own width an integer is written without leading zero and folds back. |
| Bytes.IntToWords | src/Bubot_CoAP/serializer_udp.py:370-397 | The words fold back to the integer; it raises exactly when the integer is negative or does not fit. |
| Bytes.FoldOctets | src/Bubot_CoAP/serializer_udp.py:91-95 | The octet loop of the parser computes the big-endian integer. |
| BlockOption.BlockOverTheWire | src/Bubot_CoAP/messages/message.py:658-687 | A block triple set, written, read and parsed is the same triple if and only if its number has 20 bits, its size is nameable and it is not (0, 0, 16). |
| BlockOption.ParsePackedBlock | src/Bubot_CoAP/utils.py:87-115 | What `parse_blockwise` makes of any packed triple but the zero one: the number modulo 2^20 and the rounded size. |
| BlockOption.SizesAreRounded | src/Bubot_CoAP/messages/message.py:664-679 | The setters write the smallest nameable size that is not below the given one, and 1024 for all larger ones. |
| BlockOption.StoredTriple | src/Bubot_CoAP/utils.py:87-115 | What every stored integer of up to three octets is read as. |
| TcpProtocol.StreamReassembly | src/Bubot_CoAP/coap_tcp_protocol.py:303-347 | For every chunking of every stream: the frames cut are the start of the framing before its first unreadable frame, and were delivered in order; until an exception escapes, they and the spool are all octets received; each call delivers one frame if a readable one is next, and the exception escapes exactly when an unreadable one is. |
| TcpProtocol.FramingIsUnique | src/Bubot_CoAP/coap_tcp_protocol.py:359-389 | Octets that start with frames are cut back into exactly those frames. |
| TcpProtocol.HandedRecurrence | src/Bubot_CoAP/coap_tcp_protocol.py:315-347 | delivered(n) = min(delivered(n-1) + 1, readable(n)) for every stream and every prefix of its chunks, where readable counts the complete frames before an unreadable one. |
| TcpProtocol.NothingWaits | src/Bubot_CoAP/coap_tcp_protocol.py:315-347 | For every stream: no readable frame is ever kept waiting if and only if no single call completes more than one. |
| TcpProtocol.SentMessagesArrive | src/Bubot_CoAP/coap_tcp_protocol.py:303-347 | What has been delivered of messages sent one after the other, the last possibly cut short, is a prefix of them in order. |
| TcpProtocol.UnreadableFrame | src/Bubot_CoAP/coap_tcp_protocol.py:315-338 | A complete frame that cannot be parsed is reported and not delivered; a bad request has been cut off the spool by then, while any other exception leaves the frame and what follows in it. |
| TcpProtocol.CoapTcpProtocol.DataReceived | src/Bubot_CoAP/coap_tcp_protocol.py:303-347 | Spool and event after one call; the spool keeps the frame when an exception escapes the parser. |
| TcpSerializer.FrameIsSelfDelimiting | src/Bubot_CoAP/serializer_tcp.py:19-49 | Every proper prefix of a frame announces more than it holds, or nothing yet. |
| TcpSerializer.FrameAnnouncesItsLength | src/Bubot_CoAP/serializer_tcp.py:335-347 | The three numbers of `_extract_message_size` add up to the length of every serialized frame, whatever follows it. |
| TcpSerializer.ExtractEncodedLength | src/Bubot_CoAP/serializer_tcp.py:66-74 | Every length written by `_encode_length` is read back, with the token length and the right offset. |
| TcpSerializer.SizeIsStable | src/Bubot_CoAP/coap_tcp_protocol.py:359-389 | Once the size can be told, more octets do not change it. |
| TcpPacking.NativeBodyReadsBack | src/Bubot_CoAP/serializer_tcp.py:226-333 | For every well-formed message and both byte orders of the sender: the packed body is read back if and only if every option is found, that is, its delta and length fields are aligned, the delta reads as it is, and the length reads as the number of octets that follow, or as more than that where nothing else follows. |
| TcpPacking.ReadNativeField | src/Bubot_CoAP/serializer_tcp.py:258-274 | What the parser makes of any packed field: an aligned one in network order, a padded one from the padding and its first octet, with the second one left over. |
| TcpPacking.WriteNativeBody | src/Bubot_CoAP/serializer_tcp.py:217-333 | The loop over the sorted options packs every field at its offset, in the byte order of the machine, and raises exactly when a delta or a length has no nibble. |
| TcpSerializer.FrameRoundTrip | src/Bubot_CoAP/serializer_tcp.py:103-214 | The frame of a well-formed message with a known code parses back to its message, options stably sorted and empty values as in the UDP case, if and only if its body is read back. |
| TcpSerializer.NarrowFrameRoundTrip | src/Bubot_CoAP/serializer_tcp.py:103-214 | On every machine this holds for messages in ASCII whose options need no two-octet field. |
| TcpSerializer.SwappedLengthAtTheEnd | src/Bubot_CoAP/serializer_tcp.py:266-274 | A Proxy-Uri of 270 characters alone, packed on a little-endian machine, is read back if and only if no payload follows. |
| TcpSerializer.OcfVersionIsLost | src/Bubot_CoAP/serializer_tcp.py:226-274 | On no machine is a frame read back whose first option is number 2049 or 2053. |
| TcpSerializer.PrintableFrames | src/Bubot_CoAP/serializer_tcp.py:335-347 | A well-formed message can be framed if and only if its token has at most 8 octets and its body fits the length field. |
| TcpSerializer.Serialize | src/Bubot_CoAP/serializer_tcp.py:217-347 | The method writes `PrintFrame`, the function of the round trip. |
| TcpSerializer.Deserialize | src/Bubot_CoAP/serializer_tcp.py:103-214 | The method returns `ParseFrame`, the function of the round trip. |
| OctetLayout.FrameLayout | src/Bubot_CoAP/serializer_tcp.py:335-347 | The octets of a frame in literal numbers, for all four forms of its length. |
| OctetLayout.FrameSizes | src/Bubot_CoAP/serializer_tcp.py:19-49 | The three numbers read from the start of a frame, for all four forms, and when they cannot be told yet. |
| OctetLayout.LongTokenIsRefused | src/Bubot_CoAP/serializer_tcp.py:113-115 | A frame with a token length of 9 to 15 raises, whatever its code and the rest are. |
| OctetLayout.FrameIsParsed | src/Bubot_CoAP/serializer_tcp.py:112-214 | Octets of this shape are parsed into these fields, with the options and payload of the rest. |
| MessageLayer.MidsAreDistinct | src/Bubot_CoAP/layers/message_layer.py:45-54 | From any start below 65535 every fetched id stays below 65535 and any 65535 fetched in a row are pairwise distinct, in literal numbers. |
| MessageLayer.MessageLayer.FetchMid | src/Bubot_CoAP/layers/message_layer.py:45-54 | Returns the current id and moves to the next one. |
| MessageLayer.MessageLayer.ReceiveRequest | src/Bubot_CoAP/layers/message_layer.py:75-122 | A known nonzero id returns its transaction, marked duplicated, and changes no table; any other request is filed under id and token, in the token's transaction if that has a response. |
| MessageLayer.MessageLayer.SendResponse | src/Bubot_CoAP/layers/message_layer.py:264-299 | Type, id and token that a response gets, when a fresh id is fetched and filed, and when the transaction completes; without a response the transaction is only completed. |
| MessageLayer.MessageLayer.SendRequest | src/Bubot_CoAP/layers/message_layer.py:225-262 | A new transaction filed under the id and the token that its request then carries. |
| MessageLayer.MessageLayer.MatchedTokensAgree | src/Bubot_CoAP/layers/message_layer.py:147-163 | In every valid state a transaction found for a response, on any of the three paths, has a request with the response's token. |
| MessageLayer.MessageLayer.MatchingIsComplete | src/Bubot_CoAP/layers/message_layer.py:147-163 | Which transaction a response finds, over the tables: by id for a known acknowledgement or reset if the tokens agree, else by source and token, else by destination and token, and none only if none of the three applies. |
| MessageLayer.MessageLayer.ResponseFindsRequest | src/Bubot_CoAP/layers/message_layer.py:239-262 | After a request has been sent, a response from its destination with its token finds its transaction, unless it acknowledges or resets another known id. |
| MessageLayer.MessageLayer.ReceiveResponse | src/Bubot_CoAP/layers/message_layer.py:124-169 | Returns exactly the matching transaction, acknowledged and completed with this response; no other transaction changes. |
| MessageLayer.MessageLayer.Purge | src/Bubot_CoAP/layers/message_layer.py:60-73 | A transaction stays exactly when it is not completed and now <= timestamp + timeout; the Block2 state of exactly the removed token keys goes. |
| MessageLayer.MessageLayer.GoneByAge | src/Bubot_CoAP/layers/message_layer.py:64-64 | A transaction stamped s and not completed survives every purge up to s + timeout and none later. |
| Messages.Request.SetAcknowledged | src/Bubot_CoAP/messages/message.py:363-376 | Acknowledging clears the other three flags. |
| Messages.Request.SetRejected | src/Bubot_CoAP/messages/message.py:387-400 | Rejecting clears or sets the other flags. |
| Messages.Request.SetTimeouted | src/Bubot_CoAP/messages/message.py:412-426 | Timing out clears or sets the other flags. |
| Server.AtMostOnce | src/Bubot_CoAP/layers/message_layer.py:97-122 | For every run between purges: a request with a nonzero id is handled only on its first arrival, and exactly when its id was not yet taken for its endpoint. The entry points of `Server` record their calls since the last purge as such a run. |
| Server.Server.DatagramReceivedRequest | src/Bubot_CoAP/coap_udp_protocol.py:77-88 | A duplicate touches no block table and is answered from its transaction; any other request passes the layers in the order of `receive_request`, and an exception on the way leaves it unanswered; the arrival extends the recorded run of `Server.AtMostOnce`; every Block2 key stays a known token key. |
| Server.Server.DatagramReceivedResponse | src/Bubot_CoAP/coap_udp_protocol.py:90-112 | A response reaches only a transaction whose request carries its token; a block transfer goes on with the same request object, not acknowledged, under the id it still has or a fresh one; an exception in the block layer ends it there. |
| Server.Server.ReceiveRequest | src/Bubot_CoAP/server.py:96-141 | The answer is the passage block layer, resource, block layer, then only the message layer's own fields change; there is none after an exception or for a method without a handler. |
| Server.Server.ContinueTransfer | src/Bubot_CoAP/coap_udp_protocol.py:97-100 | The former request goes on with what the block layer made of it, exactly when the block layer says so and has not raised. |
| Server.Server.SendBlockRequest | src/Bubot_CoAP/server.py:276-292 | A new transaction for the former request, with the acknowledged flag reset. |
| Server.Server.SendMessage | src/Bubot_CoAP/server.py:143-165 | A request passes the block layer under its token, then is filed under that token, unless no response is wanted: then it is sent as the block layer made it and nothing is filed. If the block layer raises, nothing is sent or filed. |
| Server.Server.Purge | src/Bubot_CoAP/server.py:69-79 | A transaction stays exactly when it is not completed and not older than 335 s; Block2 state goes exactly with its transaction, and every remaining Block2 key is a known token key. |
| Server.ServeIsHandle | src/Bubot_CoAP/server.py:113-128 | The server's half of a download exchange (`BlockTransfer.Serve`), after a purge or without, is this passage for a resource that renders the body, fresh or kept. |
| Server.UploadIgnoresHistory | src/Bubot_CoAP/server.py:107-111 | The server's half of an upload does not depend on what its transaction has been through before. |
| ServedUploads.UploadIsAnswered | src/Bubot_CoAP/server.py:107-128 | Every block request of every run, through the composed server: 4.08 if it does not continue the upload, no answer if its payload cannot be joined, 2.31 with its own triple if more follow, and otherwise the resource's answer to the request with the whole payload. |
| ServedUploads.RenderingIsSent | src/Bubot_CoAP/server.py:113-137 | What the resource renders is sent as it is, addressed to the sender; above 1024 octets its first 1024 are; without a rendering nothing is sent. |
| ServedUploads.UploadStepIsHandle | src/Bubot_CoAP/server.py:107-128 | An exchange of `BlockTransfer.UploadStep` is what the composed server makes of its request and the client of its answer. |
| ServedUploads.AnswerGoesBack | src/Bubot_CoAP/messages/response.py:128-137 | Every answer is addressed to the source of its request, under the request's token. |
| Server.ContinuationIgnoresHistory | src/Bubot_CoAP/layers/block_layer.py:118-196 | The client's half of an exchange does not depend on its transaction's flags. |
| Retransmission.Retransmit | src/Bubot_CoAP/server.py:312-347 | For every timeout t, limit N and moment of acknowledgement, rejection or stop: at most N - 1 re-sends, total wait at most t * (2^N - 1), reached by silence; timed out exactly when neither acknowledged nor rejected. |
| Retransmission.WithinTransmitSpan | src/Bubot_CoAP/defines.py:43-53 | With the standard limit and any initial timeout up to 3 s that bound is 45 s, inside MAX_TRANSMIT_SPAN. |

## Left out

- UdpSerializer.Serialize: negative message ids, which the setter admits, and texts with unpaired surrogates, which have no encoding.
- MessageWire.MessageSurvives: other options outside ASCII or with an empty text; `UdpSerializer.UdpRoundTrip` says that they do not arrive as they were sent.
- BlockTransfer.Block1EndToEnd: a token that still has an upload open at the server, whose next block is judged as BlockIsolation.NextBlockRequest says; an explicit Block1 number other than 0, for which `send_request` still sends from offset 0, and requests that also carry Block2, which the server looks at first.
- BlockTransfer.Block2EndToEnd: resources that render a different body after a purge; the model renders the same body again.
- BlockTransfer.NegotiationNeverDelivers: a server that does not answer the repeated request, because its transaction is not completed; then the client only waits.
- DatagramTransfer.Block1OverDatagrams: payloads from 2^24 octets on, whose 16-octet blocks outgrow the 20 bits of a block number; loss, reordering and repetition of datagrams; what the server's half does then is stated by BlockIsolation.NextBlockRequest and Server.Server.DatagramReceivedRequest.
- DatagramTransfer.Block2OverDatagrams: bodies from 2^30 octets on, for the same reason.
- Server.ServeIsHandle: one exchange at a time; no run of two Server objects against each other is stated.
- Server.AtMostOnce: nothing across a purge, where the code forgets ids and handles them again.
- Server.Server.DatagramReceivedRequest: the separate-response timer, which may acknowledge the request before the answer, and the retransmission that follows a confirmable answer.
- Server.Server.DatagramReceivedResponse: the acknowledgement of a confirmable response, observe notifications and the caller's callback.
- Retransmission.Retransmit: the event wait is a parameter; the guard of `start_retransmission`, which asks for an acknowledged message, is not modelled.
- Text payloads: payloads are octets, as they arrive; an application that sends a `str` has its characters counted and cut by the block layer.
- Multicast: the message layer keys it by the raw token, the block layer by the hashed one.
- Empty messages (`receive_empty`, `send_empty` beyond the acknowledgement of a duplicate), resets, and bad datagrams' answers.
- Observe relations and `notify`, which uses a transaction as a context manager that it is not.
- `cache_layer.py` and `forward_layer.py`, which depend on classes that are not part of this model.
- Resources, discovery, link format, CBOR and other payload encodings, URIs and path trees.
- Sockets, DTLS, endpoints, logging, certificates and the unused key exchange.
