/** Block transfers over datagrams: every message is serialized, parsed and read back on its way. */
module DatagramTransfer {

  import opened Wrappers
  import opened Bytes
  import opened BlockOption
  import opened Messages
  import opened MessageWire
  import opened BlockTables
  import opened BlockTransfer
  import OptionRegistry

  // ------------------------------------------------------- uploads in datagrams

  /** UploadStep with every message written to a datagram and read back; an unreadable one ends it. */
  function SendBlock(u: Upload, client: Endpoint, size: nat, ask: Tag, answer: Tag): Upload {
    if !u.Uploading? then u
    else
      match Cross(FromClient(u.request, client), ask)
      case None => UploadBroken
      case Some(arrived) =>
        var (server, x, exit) := ReceiveRequest(u.server, Exchange(arrived, None, false, false));
        if exit == Thrown then UploadBroken
        else if !x.blockTransfer then Uploaded(u.client, server, x.request)
        else if Continuation(x, size).None? then UploadRefused
        else
          match Cross(Continuation(x, size).value, answer)
          case None => UploadBroken
          case Some(response) => TakeAnswer(u, server, response)
  }

  function SendBlocks(u: Upload, client: Endpoint, sizes: nat -> nat, asks: nat -> Tag, answers: nat -> Tag, i: nat,
                      n: nat): Upload
    decreases n
  {
    if n == 0 then u
    else SendBlocks(SendBlock(u, client, sizes(i), asks(i), answers(i)), client, sizes, asks, answers, i + 1, n - 1)
  }

  /** The limits that keep every block number of an upload within 20 bits. */
  ghost predicate UploadFits(u: Upload, client: Endpoint, payload: bytes, done: nat) {
    && u.Uploading? && |payload| < 0x100_0000
    && Fits(FromClient(u.request, client))
    && u.request.block1.Some? && u.request.block1.value.num * 16 <= done
  }

  /** The answer that continues an upload. */
  function Continued(request: Msg, b: Block): Msg {
    Reply(request).(code := Some(CONTINUE), block1 := Some(b))
  }

  lemma AnswerFits(request: Msg, b: Block)
    requires Fits(request) && BlockFits(Some(b))
    ensures Fits(Continued(request, b))
  {
    hide NamedSize;
    LengthFits(0);
    assert OptionRegistry.KnownCode(CONTINUE) && OptionRegistry.IsResponse(CONTINUE);
  }

  /** The block in flight has octets, and is not the last whole block before an empty one. */
  predicate CarriesOctets(u: Upload, payload: bytes, done: nat) {
    && u.Uploading? && u.request.block1.Some? && done < |payload|
    && (u.request.block1.value.more ==> done + u.request.block1.value.size < |payload|)
  }

  /** Within the limits the datagrams change nothing. */
  lemma BlockCrosses(u: Upload, client: Endpoint, payload: bytes, done: nat, received1: map<Key, Item>, size: nat,
                     ask: Tag, answer: Tag)
    requires UploadInv(u, client, payload, done, received1) && UploadFits(u, client, payload, done) && NamedSize(size)
    requires done < |payload|
    ensures SendBlock(u, client, size, ask, answer) == UploadStep(u, client, size)
  {
    hide Cross, ReceiveRequest, ReceiveResponse, Slice, Fits, NamedSize;
    var request := FromClient(u.request, client);
    var item := u.client.sent1[KeyOf(u.request.destination, u.request.token)];
    FittingMessageSurvives(request, ask);
    SliceHasOctets(payload, done, item.byte);
    ServerTakesBlock(u, client, payload, done, received1);
    if item.more {
      var b := Block(item.num, true, size);
      assert BlockFits(Some(b)) by { NumberOfBlock(request); }
      AnswerFits(request, b);
      FittingMessageSurvives(Continued(request, b), answer);
      assert Normal(Continued(request, b)) == Continued(request, b) by { NoPayload(request, b); }
    }
  }

  lemma SliceHasOctets(s: bytes, from: nat, until: nat)
    requires from < |s| && from < until
    ensures Slice(s, from, until) != []
  {
  }

  /** An empty block arrives without a payload, which cannot be joined to what the server holds. */
  lemma EmptyBlockBreaks(u: Upload, client: Endpoint, payload: bytes, done: nat, received1: map<Key, Item>, size: nat,
                         ask: Tag, answer: Tag)
    requires UploadInv(u, client, payload, done, received1) && UploadFits(u, client, payload, done)
    requires done == |payload| && u.request.block1.value.num > 0
    ensures SendBlock(u, client, size, ask, answer) == UploadBroken
  {
    hide Cross, Fits;
    FittingMessageSurvives(FromClient(u.request, client), ask);
  }

  lemma NumberOfBlock(request: Msg)
    requires Fits(request) && request.block1.Some?
    ensures request.block1.value.num < 0x10_0000
  {
  }

  lemma NoPayload(request: Msg, b: Block)
    ensures Normal(Continued(request, b)) == Continued(request, b)
  {
  }

  lemma NextBlockFits(u: Upload, client: Endpoint, payload: bytes, done: nat, received1: map<Key, Item>, size: nat)
    requires UploadInv(u, client, payload, done, received1) && UploadFits(u, client, payload, done) && NamedSize(size)
    ensures var item := u.client.sent1[KeyOf(u.request.destination, u.request.token)];
            var u' := UploadStep(u, client, size);
            && (item.more ==> UploadFits(u', client, payload, item.byte))
            && (item.more && CarriesOctets(u, payload, done) ==> CarriesOctets(u', payload, item.byte))
  {
    hide UploadStep;
    UploadProgress(u, client, payload, done, received1, size);
  }

  lemma {:induction false} SameUpload(u: Upload, client: Endpoint, payload: bytes, done: nat, received1: map<Key, Item>,
                                      sizes: nat -> nat, asks: nat -> Tag, answers: nat -> Tag, i: nat, n: nat)
    requires UploadInv(u, client, payload, done, received1) && UploadFits(u, client, payload, done)
    requires CarriesOctets(u, payload, done)
    requires forall k :: NamedSize(sizes(k))
    ensures SendBlocks(u, client, sizes, asks, answers, i, n) == UploadSteps(u, client, sizes, i, n)
    decreases n
  {
    hide UploadInv, UploadFits, UploadStep, SendBlock;
    if n > 0 {
      BlockCrosses(u, client, payload, done, received1, sizes(i), asks(i), answers(i));
      var u' := UploadStep(u, client, sizes(i));
      UploadInvParts(u, client, payload, done, received1);
      UploadProgress(u, client, payload, done, received1, sizes(i));
      var item := u.client.sent1[KeyOf(u.request.destination, u.request.token)];
      if item.more {
        NextBlockFits(u, client, payload, done, received1, sizes(i));
        SameUpload(u', client, payload, item.byte, received1, sizes, asks, answers, i + 1, n - 1);
      } else {
        UploadedStays(u', client, sizes, asks, answers, i + 1, n - 1);
      }
    }
  }

  lemma {:induction false} UploadedStays(u: Upload, client: Endpoint, sizes: nat -> nat, asks: nat -> Tag,
                                         answers: nat -> Tag, i: nat, n: nat)
    requires u.Uploaded? || u.UploadBroken?
    ensures SendBlocks(u, client, sizes, asks, answers, i, n) == u == UploadSteps(u, client, sizes, i, n)
    decreases n
  {
    if n > 0 {
      UploadedStays(u, client, sizes, asks, answers, i + 1, n - 1);
    }
  }

  /**
    The Block1 requests that do not arrive: without a payload, with one of exactly the requested
    size, and with one below 16 octets in blocks of 16.
   */
  predicate Undeliverable(m: Msg) {
    m.block1.Some? &&
    (m.payload.None? || |m.payload.value| == m.block1.value.size
     || (m.block1.value.size == 16 && |m.payload.value| < 16))
  }

  /**
    Block1 over datagrams: every request and every answer is serialized, carried and parsed, under
    any message ids. The payload arrives whole, for every size the option can name, except for the
    Undeliverable requests: one without a payload raises in send_request; one of exactly the
    requested size is followed by an empty block, which arrives without a payload and raises at the
    server; block (0, 0, 16) is written as zero and raises there too.
   */
  lemma Block1OverDatagrams(m: Msg, client: Endpoint, clientTables: Tables, server: Tables,
                            sizes: nat -> nat, asks: nat -> Tag, answers: nat -> Tag)
    requires Fits(m) && m.block2.None? && |Text(m.payload)| < 0x100_0000
    requires m.block1.Some? ==> m.block1.value.num == 0
    requires KeyOf(client, m.token) !in server.received1
    requires forall k :: NamedSize(sizes(k))
    ensures var (t, first, exit) := SendRequest(clientTables, m);
            var u := Uploading(t, server, first);
            && (exit == Thrown <==> m.block1.Some? && m.payload.None?)
            && (!Undeliverable(m) ==>
                  exists n: nat :: n <= |Text(m.payload)| + 1
                    && Delivered(SendBlocks(u, client, sizes, asks, answers, 0, n), server,
                        Normal(FromClient(m, client))))
            && (Undeliverable(m) && exit == Returned ==>
                  forall n: nat :: n >= 2 ==> SendBlocks(u, client, sizes, asks, answers, 0, n) == UploadBroken)
  {
    hide Fits, NamedSize, UploadStep, SendBlock;
    var (t, first, exit) := SendRequest(clientTables, m);
    var u := Uploading(t, server, first);
    if exit == Thrown {
    } else if m.block1.None? && !LargePayload(m) {
      WholeRequestIsCarried(m, client, clientTables, server, sizes(0), asks(0), answers(0));
      assert SendBlocks(u, client, sizes, asks, answers, 0, 1)
          == SendBlocks(SendBlock(u, client, sizes(0), asks(0), answers(0)), client, sizes, asks, answers, 1, 0);
    } else if m.block1.Some? && m.block1.value.size == 16 && |m.payload.value| < 16 {
      ZeroBlockIsLost(m, client, clientTables, server, sizes(0), asks(0), answers(0));
      forall n: nat | n >= 2 ensures SendBlocks(u, client, sizes, asks, answers, 0, n) == UploadBroken {
        UploadedStays(UploadBroken, client, sizes, asks, answers, 1, n - 1);
      }
    } else if m.payload.value == [] {
      SizeOfBlock(m);
      EmptyRequestIsCarried(m, client, clientTables, server, sizes(0), asks(0), answers(0));
      assert SendBlocks(u, client, sizes, asks, answers, 0, 1)
          == SendBlocks(SendBlock(u, client, sizes(0), asks(0), answers(0)), client, sizes, asks, answers, 1, 0);
    } else {
      SizeOfBlock(m);
      UploadStarts(m, client, clientTables, server);
      FirstBlockFits(m, client, clientTables, server);
      assert forall k :: sizes(k) > 0 by { NamedIsPositive(); }
      if Undeliverable(m) {
        forall n: nat | n >= 2 ensures SendBlocks(u, client, sizes, asks, answers, 0, n) == UploadBroken {
          EmptyBlockFollows(u, client, m.payload.value, server.received1, sizes, asks, answers, n);
        }
      } else {
        Block1EndToEnd(m, client, clientTables, server, sizes);
        forall n: nat ensures SendBlocks(u, client, sizes, asks, answers, 0, n) == UploadSteps(u, client, sizes, 0, n) {
          SameUpload(u, client, m.payload.value, 0, server.received1, sizes, asks, answers, 0, n);
        }
        PayloadIsNormal(m, client);
      }
    }
  }

  /** One upload that never arrives: 64 octets in blocks of 64. */
  lemma ExactBlockBreaks(m: Msg, client: Endpoint, clientTables: Tables, server: Tables,
                         sizes: nat -> nat, asks: nat -> Tag, answers: nat -> Tag, n: nat)
    requires Fits(m) && m.block2.None? && m.block1 == Some(Block(0, true, 64))
    requires m.payload.Some? && |m.payload.value| == 64 && n >= 2
    requires KeyOf(client, m.token) !in server.received1 && forall k :: NamedSize(sizes(k))
    ensures var (t, first, _) := SendRequest(clientTables, m);
            SendBlocks(Uploading(t, server, first), client, sizes, asks, answers, 0, n) == UploadBroken
  {
    hide Fits, NamedSize, SendBlocks;
    Block1OverDatagrams(m, client, clientTables, server, sizes, asks, answers);
  }

  lemma PayloadIsNormal(m: Msg, client: Endpoint)
    requires m.payload != Some([])
    ensures Normal(FromClient(m, client)) == FromClient(m, client)
  {
  }

  /** A request in one message. */
  lemma WholeRequestIsCarried(m: Msg, client: Endpoint, clientTables: Tables, server: Tables, size: nat, ask: Tag,
                              answer: Tag)
    requires Fits(m) && m.block1.None? && m.block2.None? && !LargePayload(m)
    ensures var (t, first, exit) := SendRequest(clientTables, m);
            Delivered(SendBlock(Uploading(t, server, first), client, size, ask, answer), server,
                Normal(FromClient(m, client)))
  {
    hide Cross, Fits;
    FitsAnywhere(m, client);
    FittingMessageSurvives(FromClient(m, client), ask);
  }

  /** An empty payload in one block. */
  lemma EmptyRequestIsCarried(m: Msg, client: Endpoint, clientTables: Tables, server: Tables, size: nat, ask: Tag,
                              answer: Tag)
    requires Fits(m) && m.block2.None? && m.payload == Some([])
    requires m.block1.Some? && m.block1.value.num == 0 && m.block1.value.size != 16
    requires KeyOf(client, m.token) !in server.received1
    ensures var (t, first, exit) := SendRequest(clientTables, m);
            Delivered(SendBlock(Uploading(t, server, first), client, size, ask, answer), server,
                Normal(FromClient(m, client)))
  {
    hide Cross, Fits;
    SizeOfBlock(m);
    FirstBlockFits(m, client, clientTables, server);
    var first := SendRequest(clientTables, m).1;
    FittingMessageSurvives(FromClient(first, client), ask);
    assert server.received1 - {KeyOf(client, m.token)} == server.received1;
  }

  /** A payload of exactly one block: the second request is empty and ends the upload. */
  lemma EmptyBlockFollows(u: Upload, client: Endpoint, payload: bytes, received1: map<Key, Item>,
                         sizes: nat -> nat, asks: nat -> Tag, answers: nat -> Tag, n: nat)
    requires UploadInv(u, client, payload, 0, received1) && UploadFits(u, client, payload, 0) && n >= 2
    requires payload != [] && u.request.block1.value.more && u.request.block1.value.size == |payload|
    requires forall k :: NamedSize(sizes(k))
    ensures SendBlocks(u, client, sizes, asks, answers, 0, n) == UploadBroken
  {
    hide UploadStep, SendBlock, UploadFits;
    BlockCrosses(u, client, payload, 0, received1, sizes(0), asks(0), answers(0));
    assert sizes(0) > 0 by { NamedIsPositive(); }
    UploadProgress(u, client, payload, 0, received1, sizes(0));
    NextBlockFits(u, client, payload, 0, received1, sizes(0));
    var u' := UploadStep(u, client, sizes(0));
    EmptyBlockBreaks(u', client, payload, |payload|, received1, sizes(1), asks(1), answers(1));
    UploadedStays(UploadBroken, client, sizes, asks, answers, 2, n - 2);
    assert SendBlocks(u, client, sizes, asks, answers, 0, n)
        == SendBlocks(u', client, sizes, asks, answers, 1, n - 1)
        == SendBlocks(SendBlock(u', client, sizes(1), asks(1), answers(1)), client, sizes, asks, answers, 2, n - 2);
  }

  lemma ZeroBlockIsLost(m: Msg, client: Endpoint, clientTables: Tables, server: Tables, size: nat, ask: Tag,
                        answer: Tag)
    requires Fits(m) && m.payload.Some? && |m.payload.value| < 16
    requires m.block1.Some? && m.block1.value.num == 0 && m.block1.value.size == 16
    ensures var (t, first, exit) := SendRequest(clientTables, m);
            SendBlock(Uploading(t, server, first), client, size, ask, answer) == UploadBroken
  {
    hide Cross, OptionRegistry.KnownCode, NumberFits;
    var first := SendRequest(clientTables, m).1;
    LengthFits(|m.payload.value|);
    FitsIsWritable(m);
    assert Packed(first.block1) == Some(0);
    LengthFits(0);
    MessageSurvives(FromClient(first, client), ask);
  }

  lemma SizeOfBlock(m: Msg)
    requires Fits(m)
    ensures m.block1.Some? ==> m.block1.value.size > 0
  {
  }

  lemma NamedIsPositive()
    ensures forall n :: NamedSize(n) ==> n >= 16
  {
  }

  lemma FitsAnywhere(m: Msg, client: Endpoint)
    requires Fits(m)
    ensures Fits(FromClient(m, client))
  {
  }

  lemma LengthFits(n: nat)
    requires n < 0x1_0000_0000
    ensures NumberFits(Some(n))
  {
    hide ByteLen;
    ByteLenIsLeast(n, 4);
    assert Pow256(4) == 256 * Pow256(3) == 256 * (256 * Pow256(2));
    assert Pow256(2) == 256 * Pow256(1) == 256 * (256 * Pow256(0));
  }

  lemma FirstBlockFits(m: Msg, client: Endpoint, clientTables: Tables, server: Tables)
    requires Fits(m) && m.block2.None? && m.payload.Some? && |m.payload.value| < 0x100_0000
    requires m.block1.Some? ==>
               && m.block1.value.num == 0
               && (m.block1.value.size == 16 ==> |m.payload.value| >= 16)
    requires m.block1.Some? || LargePayload(m)
    ensures var (t, first, exit) := SendRequest(clientTables, m);
            && UploadFits(Uploading(t, server, first), client, m.payload.value, 0)
            && (m.payload != Some([]) && !Undeliverable(m) ==>
                  CarriesOctets(Uploading(t, server, first), m.payload.value, 0))
            && (m.block1.Some? && |m.payload.value| == m.block1.value.size ==>
                  first.block1.value.more && first.block1.value.size == |m.payload.value|)
  {
    hide Slice, NumberFits, OptionRegistry.KnownCode;
    LengthFits(|m.payload.value|);
  }

  // ----------------------------------------------------- downloads in datagrams

  /** DownloadStep with the request and the response written to datagrams and read back. */
  function FetchBlock(d: Download, client: Endpoint, body: bytes, form: Form, purged: bool, ask: Tag,
                      answer: Tag): Download {
    if !d.Downloading? && !d.Resending? then d
    else
      match Cross(FromClient(d.request, client), ask)
      case None => DownloadBroken
      case Some(arrived) =>
        var (server, r) := Respond(d, arrived, body, form, purged);
        match Cross(r, answer)
        case None => DownloadBroken
        case Some(back) => TakeResponse(d, server, r, back)
  }

  function FetchBlocks(d: Download, client: Endpoint, body: bytes, form: Form, purged: nat -> bool,
                       asks: nat -> Tag, answers: nat -> Tag, i: nat, n: nat): Download
    decreases n
  {
    if n == 0 then d
    else
      FetchBlocks(FetchBlock(d, client, body, form, purged(i), asks(i), answers(i)),
                  client, body, form, purged, asks, answers, i + 1, n - 1)
  }

  /** The server does not look at the payload of a request for a body. */
  lemma ServeNormal(server: Tables, kept: Option<Msg>, request: Msg, body: bytes, form: Form, purged: bool)
    requires request.block1.None?
    ensures Serve(server, kept, Normal(request), body, form, purged) == Serve(server, kept, request, body, form, purged)
  {
    hide ReceiveRequest, SendResponse, Normal;
    var key := KeyOf(request.source, request.token);
    assert Normal(request) == request.(payload := Normal(request).payload) by { NormalPayload(request); }
    var p := Normal(request).payload;
    var t, k := if purged then Purge(server, key) else server, if purged then None else kept;
    AskingIgnoresPayload(t, request, k, p);
    var (u, x, _) := ReceiveRequest(t, Exchange(request, k, false, false));
    var response := if x.response.Some? then x.response.value else Rendered(x.request, body, form);
    AnsweringIgnoresPayload(u, x.(response := Some(response)), p);
  }

  lemma NormalPayload(m: Msg)
    ensures Normal(m) == m.(payload := Normal(m).payload)
  {
  }

  lemma AskingIgnoresPayload(t: Tables, request: Msg, kept: Option<Msg>, p: Option<bytes>)
    requires request.block1.None?
    ensures var (u, x, exit) := ReceiveRequest(t, Exchange(request, kept, false, false));
            ReceiveRequest(t, Exchange(request.(payload := p), kept, false, false))
            == (u, x.(request := x.request.(payload := p)), exit)
  {
    hide OctetsOf;
  }

  lemma AnsweringIgnoresPayload(t: Tables, x: Exchange, p: Option<bytes>)
    requires x.response.Some?
    ensures var (u, y, exit) := SendResponse(t, x);
            SendResponse(t, x.(request := x.request.(payload := p)))
                == (u, y.(request := y.request.(payload := p)), exit)
    ensures SendResponse(t, x).1.response.Some?
  {
    hide Slice, MoreAfter, Blockwise, Serving, OctetsOf;
  }

  lemma StepCrosses(d: Download, client: Endpoint, body: bytes, form: Form, purged: bool, ask: Tag, answer: Tag)
    requires d.Downloading? && d.request.block1.None? && Fits(FromClient(d.request, client))
    requires var r := Serve(d.server, d.kept, FromClient(d.request, client), body, form, purged).1;
             Fits(r)
    ensures var (server, r) := Serve(d.server, d.kept, FromClient(d.request, client), body, form, purged);
            FetchBlock(d, client, body, form, purged, ask, answer) == TakeResponse(d, server, r, Normal(r))
  {
    hide Cross, Serve, TakeResponse, Fits, Normal;
    var request := FromClient(d.request, client);
    var (server, r) := Serve(d.server, d.kept, request, body, form, purged);
    FittingMessageSurvives(request, ask);
    ServeNormal(d.server, d.kept, request, body, form, purged);
    FittingMessageSurvives(r, answer);
  }

  /** What the resource adds can be written and read back. */
  predicate FormFits(form: Form) { NumberFits(Some(form.contentType)) && OthersFit(form.others) }

  ghost predicate DownloadFits(d: Download, client: Endpoint, body: bytes, form: Form, size: nat) {
    && d.Downloading? && Fits(FromClient(d.request, client)) && NamedSize(size)
    && |body| / size < 0x10_0000 && FormFits(form) && NumberFits(Some(|body|))
  }

  lemma ServedFits(r: Msg, request: Msg, body: bytes, form: Form)
    requires Fits(request) && FromBody(r, request, form) && BlockFits(r.block2) && r.size2 in {None, Some(|body|)}
    requires FormFits(form) && NumberFits(Some(|body|))
    ensures Fits(r)
  {
    hide NamedSize;
    assert OptionRegistry.KnownCode(CONTENT) && OptionRegistry.IsResponse(CONTENT);
  }

  /** A block with octets is carried as it is; an empty one arrives without a payload, which cannot be joined. */
  lemma BlockIsCarried(d: Download, client: Endpoint, body: bytes, form: Form, from: nat, j: nat, size: nat,
                       purged: bool, ask: Tag, answer: Tag)
    requires DownloadInv(d, client, body, form, from, j, size) && DownloadFits(d, client, body, form, size) && j > 0
    ensures FetchBlock(d, client, body, form, purged, ask, answer)
         == if j * size < |body| then DownloadStep(d, client, body, form, purged) else DownloadBroken
    ensures j * size + size <= |body| ==>
              DownloadFits(DownloadStep(d, client, body, form, purged), client, body, form, size)
  {
    hide FetchBlock, Serve, Slice, MoreAfter, NamedSize, NumberFits, ReceiveResponse;
    var request := FromClient(d.request, client);
    ServerSendsBlock(d.server, d.kept, request, body, form, purged, j, size);
    var (server, r) := Serve(d.server, d.kept, request, body, form, purged);
    WithinNumbers(|body|, size, j);
    ServedFits(r, request, body, form);
    StepCrosses(d, client, body, form, purged, ask, answer);
    DownloadProgress(d, client, body, form, from, j, size, purged);
    if j * size < |body| {
      SliceHasOctets(body, j * size, j * size + size);
    } else {
      NothingFrom(body, j * size, size);
      EmptyBlockRaises(d.client, d.request, r, form, body[from..j * size]);
    }
    if j * size + size <= |body| {
      WithinNumbers(|body|, size, j + 1);
    }
  }

  lemma NothingFrom(body: bytes, offset: nat, size: nat)
    requires offset >= |body| && size > 0
    ensures Slice(body, offset, offset + size) == [] && !(offset + size <= |body|)
  {
  }

  lemma EmptyBlockRaises(t: Tables, request: Msg, r: Msg, form: Form, soFar: bytes)
    requires FromBody(r, request, form) && r.payload == Some([]) && r.block2.Some?
    requires Expecting(t, KeyOf(request.destination, request.token), r.block2.value.num, r.block2.value.size,
             Octets(soFar), Some(form.contentType))
    ensures ReceiveResponse(t, Exchange(request, Some(Normal(r)), false, false)).2 == Thrown
  {
  }

  lemma WithinNumbers(length: nat, size: nat, j: nat)
    requires size > 0
    ensures j * size <= length ==> j <= length / size
  {
    if j * size <= length && length / size < j {
      Gap(length / size, j, size);
    }
  }

  /**
    From any point between two exchanges on, the rest of the body is carried over, if and only if
    the size does not divide the body; otherwise the last, empty block ends the download.
   */
  lemma {:induction false} RestIsCarried(d: Download, client: Endpoint, body: bytes, form: Form, from: nat, j: nat,
                                         size: nat,
                                         purged: nat -> bool, asks: nat -> Tag, answers: nat -> Tag, i: nat)
    requires DownloadInv(d, client, body, form, from, j, size) && DownloadFits(d, client, body, form, size) && j > 0
    ensures size > 0 && j <= |body| / size
    ensures var d' := FetchBlocks(d, client, body, form, purged, asks, answers, i, |body| / size + 1 - j);
            if |body| % size != 0 then d'.Downloaded? && d'.response.payload == Some(body[from..])
                else d' == DownloadBroken
    decreases |body| - j * size
  {
    hide DownloadStep, FetchBlock, DownloadInv, DownloadFits, FetchBlocks;
    DownloadInvParts(d, client, body, form, from, j, size);
    BlockIsCarried(d, client, body, form, from, j, size, purged(i), asks(i), answers(i));
    DownloadProgress(d, client, body, form, from, j, size, purged(i));
    var d' := DownloadStep(d, client, body, form, purged(i));
    if j * size + size <= |body| {
      assert (j + 1) * size == j * size + size;
      RestIsCarried(d', client, body, form, from, j + 1, size, purged, asks, answers, i + 1);
      FetchUnfolds(d, client, body, form, purged, asks, answers, i, |body| / size + 1 - j);
    } else {
      LastBlockNumber(|body|, size, j);
      assert |body| % size == |body| - j * size;
      FetchUnfolds(d, client, body, form, purged, asks, answers, i, 1);
      FetchNothing(FetchBlock(d, client, body, form, purged(i), asks(i), answers(i)),
                   client, body, form, purged, asks, answers, i + 1);
    }
  }

  lemma FetchNothing(d: Download, client: Endpoint, body: bytes, form: Form, purged: nat -> bool,
                     asks: nat -> Tag, answers: nat -> Tag, i: nat)
    ensures FetchBlocks(d, client, body, form, purged, asks, answers, i, 0) == d
  {
  }

  /** The first exchange, which the client did not negotiate. */
  lemma FirstIsCarried(m: Msg, client: Endpoint, t: Tables, server: Tables, body: bytes, form: Form, purged: bool,
                       ask: Tag, answer: Tag)
    requires m.block1.None? && m.block2.None? && Fits(m)
    requires |body| < 0x4000_0000 && FormFits(form)
    requires KeyOf(m.destination, m.token) !in t.sent2 && KeyOf(client, m.token) !in server.received2
    ensures var d := Downloading(t, server, None, m);
            var d' := FetchBlock(d, client, body, form, purged, ask, answer);
            && (|body| > 0 ==> d' == DownloadStep(d, client, body, form, purged))
            && (|body| > MAX_PAYLOAD ==> DownloadFits(d', client, body, form, MAX_PAYLOAD))
            && (body == [] ==> d'.Downloaded? && d'.response.payload == None)
  {
    hide FetchBlock, ReceiveResponse, Serve, Slice, MoreAfter, NamedSize, NumberFits, Fits;
    var d, request := Downloading(t, server, None, m), FromClient(m, client);
    FitsAnywhere(m, client);
    LengthFits(|body|);
    ServerStartsBlocks(server, request, body, form, purged);
    var (server', r) := Serve(server, None, request, body, form, purged);
    assert BlockFits(r.block2) by { SizeIsNamed(); }
    ServedFits(r, request, body, form);
    StepCrosses(d, client, body, form, purged, ask, answer);
    if body == [] {
      WholeResponse(t, m, Normal(r));
    } else {
      FirstIsNotEmpty(body);
      DownloadStarts(m, client, t, server, body, form, purged);
      if |body| > MAX_PAYLOAD {
        NextRequestFits(m, client);
        SizeIsNamed();
      }
    }
  }

  lemma WholeResponse(t: Tables, request: Msg, r: Msg)
    requires r.block1.None? && r.block2.None?
    ensures var (t', x, exit) := ReceiveResponse(t, Exchange(request, Some(r), false, false));
            exit == Returned && !x.blockTransfer && x.response == Some(r)
  {
  }

  lemma SizeIsNamed()
    ensures NamedSize(MAX_PAYLOAD)
  {
  }

  lemma FirstIsNotEmpty(body: bytes)
    requires body != []
    ensures Slice(body, 0, MAX_PAYLOAD) != []
  {
  }

  lemma NextRequestFits(m: Msg, client: Endpoint)
    requires Fits(m)
    ensures Fits(FromClient(m.(mid := None, block2 := Some(Block(1, false, MAX_PAYLOAD))), client))
  {
  }

  /**
    Block2 over datagrams: every message is serialized, carried and parsed, under any message ids
    and any schedule of purges. After floor(length / 1024) + 1 exchanges the body has been received
    whole if and only if it fits one message or 1024 does not divide its length; otherwise the last
    exchange raises at the client, since the empty block arrives without a payload.
   */
  lemma Block2OverDatagrams(m: Msg, client: Endpoint, t: Tables, server: Tables, body: bytes, form: Form,
                            purged: nat -> bool, asks: nat -> Tag, answers: nat -> Tag)
    requires m.block1.None? && m.block2.None? && Fits(m)
    requires |body| < 0x4000_0000 && FormFits(form)
    requires KeyOf(m.destination, m.token) !in t.sent2 && KeyOf(client, m.token) !in server.received2
    ensures var n := if |body| > MAX_PAYLOAD then |body| / MAX_PAYLOAD + 1 else 1;
            var d := FetchBlocks(Downloading(t, server, None, m), client, body, form, purged, asks, answers, 0, n);
            if |body| <= MAX_PAYLOAD || |body| % MAX_PAYLOAD != 0
            then d.Downloaded? && d.response.payload == (if body == [] then None else Some(body))
            else d == DownloadBroken
  {
    hide FetchBlock, DownloadStep, DownloadInv, DownloadFits, Fits, NumberFits, FetchBlocks;
    var d := Downloading(t, server, None, m);
    FirstIsCarried(m, client, t, server, body, form, purged(0), asks(0), answers(0));
    DownloadStarts(m, client, t, server, body, form, purged(0));
    var d' := FetchBlock(d, client, body, form, purged(0), asks(0), answers(0));
    if |body| > MAX_PAYLOAD {
      FetchUnfolds(d, client, body, form, purged, asks, answers, 0, |body| / MAX_PAYLOAD + 1);
      RestIsCarried(d', client, body, form, 0, 1, MAX_PAYLOAD, purged, asks, answers, 1);
      assert body[0..] == body;
    } else {
      FetchUnfolds(d, client, body, form, purged, asks, answers, 0, 1);
      FetchNothing(d', client, body, form, purged, asks, answers, 1);
    }
  }

  /** One body that never arrives: two blocks of 1024 octets. */
  lemma TwoFullBlocksBreak(m: Msg, client: Endpoint, t: Tables, server: Tables, body: bytes, form: Form,
                           purged: nat -> bool, asks: nat -> Tag, answers: nat -> Tag)
    requires m.block1.None? && m.block2.None? && Fits(m) && |body| == 2048 && FormFits(form)
    requires KeyOf(m.destination, m.token) !in t.sent2 && KeyOf(client, m.token) !in server.received2
    ensures FetchBlocks(Downloading(t, server, None, m), client, body, form, purged, asks, answers, 0, 3)
            == DownloadBroken
  {
    hide Fits, FetchBlocks, FormFits;
    Block2OverDatagrams(m, client, t, server, body, form, purged, asks, answers);
  }

  lemma FetchUnfolds(d: Download, client: Endpoint, body: bytes, form: Form, purged: nat -> bool,
                     asks: nat -> Tag, answers: nat -> Tag, i: nat, n: nat)
    requires n > 0
    ensures FetchBlocks(d, client, body, form, purged, asks, answers, i, n)
         == FetchBlocks(FetchBlock(d, client, body, form, purged(i), asks(i), answers(i)),
                        client, body, form, purged, asks, answers, i + 1, n - 1)
  {
  }
}
