/** server.py and coap_udp_protocol.py: the order in which a datagram passes the layers. */
module Server {

  import opened Wrappers
  import opened Bytes
  import opened BlockOption
  import opened BlockTables
  import opened BlockTransfer
  import opened Messages
  import opened BlockLayer
  import opened MessageLayer

  const EXCHANGE_LIFETIME := 335.0

  /** What the request layer and the resource make of a request. */
  datatype Rendering = Rendering(code: nat, payload: Option<bytes>, form: Form, found: bool)

  function RenderedBy(request: Msg, r: Rendering): Msg {
    Reply(request).(code := Some(r.code), payload := r.payload, contentType := r.form.contentType,
                    others := r.form.others)
  }

  /** What the method's handler makes of a request; a method without a handler gives no response. */
  type Resource = Msg -> Option<Rendering>

  /** The response of the resource, cut into blocks where it must be. */
  function Answer(t: Tables, x: Exchange, resource: bool, render: Resource): (Tables, Exchange, Exit) {
    var r := render(x.request);
    var response := if resource then x.response
                    else if r.None? then None else Some(RenderedBy(x.request, r.value));
    BlockTables.SendResponse(t, x.(response := response))
  }

  /** The passage of a request through the block layer, the resource and the block layer again. */
  function Handle(t: Tables, x: Exchange, resource: bool, render: Resource): (Tables, Exchange, Exit) {
    var (t', x', exit) := BlockTables.ReceiveRequest(t, x);
    if exit == Thrown || x'.blockTransfer then (t', x', exit) else Answer(t', x', resource, render)
  }

  /** An exception anywhere on the way leaves the request unanswered. */
  function Sent(x: Exchange, exit: Exit): Option<Msg> {
    if exit == Thrown || x.response.None? then None else Some(Untagged(x.response.value))
  }

  /** The tables and the answer are those of the passage, up to what the message layer adds. */
  ghost predicate Answered(before: Tables, x: Exchange, resource: bool, render: Resource, after: Tables,
                           answer: Option<Msg>) {
    var (t, y, exit) := Handle(before, x, resource, render);
    after == t && answer == Sent(y, exit)
  }

  /**
    The server's half of a download, with a purge or without, is this passage for a resource that
    renders the body.
   */
  lemma ServeIsHandle(t: Tables, request: Msg, kept: Option<Msg>, completed: bool, body: bytes, form: Form,
                      purged: bool)
    requires request.block1.None?
    ensures var tables := if purged then BlockTables.Purge(t, KeyOf(request.source, request.token)) else t;
            var known := if purged then None else kept;
            var (t', x, exit) := Handle(tables, Exchange(request, known, completed, false), known.Some?,
                                        _ => Some(Rendering(CONTENT, Some(body), form, true)));
            exit == Returned && x.response.Some?
                && Serve(t, kept, request, body, form, purged) == (t', x.response.value)
  {
    hide BlockTables.SendResponse;
    var tables := if purged then BlockTables.Purge(t, KeyOf(request.source, request.token)) else t;
    var known := if purged then None else kept;
    RequestIgnoresCompleted(tables, request, known, completed);
    var (u, x, _) := BlockTables.ReceiveRequest(tables, Exchange(request, known, completed, false));
    var (u', x', _) := BlockTables.ReceiveRequest(tables, Exchange(request, known, false, false));
    var response := if known.Some? then known else Some(Rendered(x.request, body, form));
    SendIgnoresFlags(u, x.(response := response), x'.(response := response));
  }

  lemma RequestIgnoresCompleted(t: Tables, request: Msg, kept: Option<Msg>, completed: bool)
    requires request.block1.None?
    ensures var (u, x, exit) := BlockTables.ReceiveRequest(t, Exchange(request, kept, completed, false));
            var (u', x', exit') := BlockTables.ReceiveRequest(t, Exchange(request, kept, false, false));
            && u == u' && x.request == x'.request && x.response == kept == x'.response && !x.blockTransfer
                && !x'.blockTransfer
            && exit == exit' == Returned
  {
    hide OctetsOf;
  }

  lemma SendIgnoresFlags(t: Tables, x: Exchange, x': Exchange)
    requires x.response.Some? && x.request == x'.request && x.response == x'.response
    ensures var (u, y, exit) := BlockTables.SendResponse(t, x);
            var (u', y', exit') := BlockTables.SendResponse(t, x');
            u == u' && y.response == y'.response && y.response.Some? && exit == exit' == Returned
  {
    hide Cut, Serving, Blockwise;
  }

  /** The server's half of an upload does not depend on what the transaction has been through. */
  lemma UploadIgnoresHistory(t: Tables, request: Msg, x: Exchange)
    requires request.block1.Some? && request.block2.None? && x.request == request
    ensures var (u, y, exit) := BlockTables.ReceiveRequest(t, x);
            var (u', y', exit') := BlockTables.ReceiveRequest(t, Exchange(request, None, false, false));
            && u == u' && y.request == y'.request && exit == exit'
            && (exit == Returned ==>
                  y.blockTransfer == y'.blockTransfer && (y.blockTransfer ==> y.response == y'.response))
  {
    hide Join;
  }

  /** The client's half of a transfer does not depend on it either. */
  lemma ContinuationIgnoresHistory(t: Tables, x: Exchange)
    requires x.response.Some?
    ensures var (u, y, exit) := BlockTables.ReceiveResponse(t, x);
            var (u', y', exit') := BlockTables.ReceiveResponse(t, x.(completed := false, blockTransfer := false));
            u == u' && y.request == y'.request && y.response == y'.response && y.blockTransfer == y'.blockTransfer
                && exit == exit'
  {
    hide CutUpload, Join, Refusal, Hold;
  }

  /** A response without what the message layer decides. */
  function Untagged(m: Msg): Msg { m.(typ := None, mid := None, token := None) }

  /** A request as the message layer sends it on: an id that it still has is used again. */
  predicate GoesOn(m: Msg, sent: Msg) {
    Untagged(sent) == Untagged(m) && sent.mid.Some? && (m.mid.Some? ==> sent.mid == m.mid)
  }

  // ------------------------------------------------- what the block layer keeps

  lemma RequestKeepsIdentity(t: Tables, x: Exchange)
    ensures var (t', x', exit) := BlockTables.ReceiveRequest(t, x);
            && x'.request.source == x.request.source && x'.request.token == x.request.token
            && x'.request.typ == x.request.typ
            && t'.received2.Keys <= t.received2.Keys + {KeyOf(x.request.source, x.request.token)}
            && (x.response.Some? ==> x'.response.Some?)
            && (x'.blockTransfer && !x.blockTransfer ==> x'.response.Some?)
  {
    hide Join, OctetsOf;
  }

  lemma ResponseKeepsKeys(t: Tables, x: Exchange)
    ensures var (t', x', exit) := BlockTables.SendResponse(t, x);
            && x'.request == x.request && (x'.response.Some? <==> x.response.Some?)
            && x'.completed == x.completed && x'.blockTransfer == x.blockTransfer
            && t'.received2.Keys <= t.received2.Keys + {KeyOf(x.request.source, x.request.token)}
  {
    hide Cut, Serving;
  }

  lemma ContinuationKeepsIdentity(t: Tables, x: Exchange)
    requires x.response.Some?
    ensures var (t', x', _) := BlockTables.ReceiveResponse(t, x);
            && x'.request.destination == x.request.destination && x'.request.token == x.request.token
            && t'.received2 == t.received2 && t'.received1 == t.received1
            && x'.response.Some? && x'.completed == x.completed
  {
    hide ReceiveBlock1Response, ReceiveBlock, ReceiveLastBlock;
    var response := x.response.value;
    var key := KeyOf(response.source, response.token);
    if key in t.sent1 && response.block1.Some? {
      Block1KeepsIdentity(t, key, response.block1.value, x);
    } else if response.block2.Some? {
      Block2KeepsIdentity(t, key, response.block2.value, x, response);
    }
  }

  lemma Block1KeepsIdentity(t: Tables, key: Key, b: Block, x: Exchange)
    requires key in t.sent1
    ensures var (t', x', _) := ReceiveBlock1Response(t, key, b, x);
            && x'.request.destination == x.request.destination && x'.request.token == x.request.token
            && t'.received2 == t.received2 && t'.received1 == t.received1
            && x'.response == x.response && x'.completed == x.completed
  {
    hide Slice;
  }

  lemma Block2KeepsIdentity(t: Tables, key: Key, b: Block, x: Exchange, response: Msg)
    requires x.response == Some(response)
    ensures var (t', x', _) := ReceiveBlock(t, key, b, x, response);
            && x'.request.destination == x.request.destination && x'.request.token == x.request.token
            && t'.received2 == t.received2 && t'.received1 == t.received1
            && x'.response.Some? && x'.completed == x.completed
    ensures var (t', x', _) := ReceiveLastBlock(t, key, x, response);
            && x'.request == x.request
            && t'.received2 == t.received2 && t'.received1 == t.received1
            && x'.response.Some? && x'.completed == x.completed
  {
    hide Join;
  }

  lemma SendingKeepsIdentity(t: Tables, m: Msg)
    ensures var (t', m', exit) := BlockTables.SendRequest(t, m);
            && m'.destination == m.destination && m'.token == m.token && m'.mid == m.mid && m'.typ == m.typ
            && t'.received2 == t.received2 && t'.received1 == t.received1
  {
    hide Slice, MoreAfter;
  }

  // ------------------------------------------------------------------- runs

  /** How the keys of the table of known message ids change with a datagram. */
  datatype Event = Arrival(key: MidKey, handled: bool) | Other

  predicate IsMid(key: MidKey) { key.mid.Some? && key.mid.value != 0 }

  ghost predicate Passage(before: set<MidKey>, e: Event, after: set<MidKey>) {
    && before <= after
    && (e.Arrival? ==> (e.handled <==> !IsMid(e.key) || e.key !in before) && e.key in after)
  }

  lemma PassageExtends(before: set<MidKey>, e: Event, middle: set<MidKey>, after: set<MidKey>)
    requires Passage(before, e, middle) && middle <= after
    ensures Passage(before, e, after)
  {
  }

  ghost predicate IsRun(states: seq<set<MidKey>>, events: seq<Event>) {
    |states| == |events| + 1 && forall i :: 0 <= i < |events| ==> Passage(states[i], events[i], states[i + 1])
  }

  lemma RunExtends(states: seq<set<MidKey>>, events: seq<Event>, e: Event, after: set<MidKey>)
    requires IsRun(states, events) && Passage(states[|events|], e, after)
    ensures IsRun(states + [after], events + [e])
  {
    hide Passage;
  }

  lemma {:induction false} KeysGrow(states: seq<set<MidKey>>, events: seq<Event>, i: nat, j: nat)
    requires IsRun(states, events) && i <= j < |states|
    ensures states[i] <= states[j]
    decreases j - i
  {
    if i < j {
      KeysGrow(states, events, i, j - 1);
      assert Passage(states[j - 1], events[j - 1], states[j]);
    }
  }

  /**
    At most once: in a run without a purge, a request with a message id other than zero is handled
    only on its first arrival, and then only if its id was not already taken for that endpoint.
   */
  lemma AtMostOnce(states: seq<set<MidKey>>, events: seq<Event>, j: nat)
    requires IsRun(states, events) && j < |events| && events[j].Arrival? && IsMid(events[j].key)
    ensures events[j].handled ==> forall i :: 0 <= i < j && events[i].Arrival? ==> events[i].key != events[j].key
    ensures events[j].handled <==> events[j].key !in states[j]
  {
    assert Passage(states[j], events[j], states[j + 1]);
    forall i | 0 <= i < j && events[i].Arrival? && events[i].key == events[j].key
      ensures !events[j].handled
    {
      assert Passage(states[i], events[i], states[i + 1]);
      KeysGrow(states, events, i + 1, j);
    }
  }

  // ------------------------------------------------------------------ server

  class Server {
    const messageLayer: MessageLayer
    const blockLayer: BlockLayer

    /** The events since the last purge, and the known message ids before, between and after them. */
    ghost var events: seq<Event>
    ghost var states: seq<set<MidKey>>

    constructor (startingMid: nat)
      ensures Valid() && Recorded() && messageLayer.transactions == map[] && events == []
    {
      messageLayer := new MessageLayer(startingMid);
      blockLayer := new BlockLayer();
      events, states := [], [{}];
    }

    ghost predicate Recorded()
      reads this, messageLayer
    {
      IsRun(states, events) && states[|events|] == messageLayer.transactions.Keys
    }

    ghost method Record(e: Event)
      requires Valid() && IsRun(states, events) && Passage(states[|events|], e, messageLayer.transactions.Keys)
      modifies this`events, this`states
      ensures Valid() && Recorded() && events == old(events) + [e]
    {
      hide Valid, Passage, MessageLayer.Valid, BlockLayer.Valid, BlockLayer.Contents;
      RunExtends(states, events, e, messageLayer.transactions.Keys);
      states := states + [messageLayer.transactions.Keys];
      events := events + [e];
    }

    ghost method Restart()
      requires Valid()
      modifies this`events, this`states
      ensures Valid() && Recorded() && events == []
    {
      hide MessageLayer.Valid, BlockLayer.Valid, BlockLayer.Contents;
      events, states := [], [messageLayer.transactions.Keys];
    }

    /** A transaction that has a resource or is in a block transfer also has a response. */
    ghost predicate Answerable()
      reads messageLayer, messageLayer.incoming
    {
      forall t :: t in messageLayer.incoming && (t.resource || t.blockTransfer) ==> t.response != null
    }

    /** Every key with Block2 state is the key of a known transaction. */
    ghost predicate Linked()
      requires blockLayer.Valid()
      reads messageLayer, blockLayer, blockLayer.tables, blockLayer.items
    {
      blockLayer.Contents().received2.Keys <= messageLayer.transactionsToken.Keys
    }

    ghost predicate Valid()
      reads messageLayer, messageLayer.incoming, messageLayer.outgoing`request, messageLayer.requests`token
      reads blockLayer, blockLayer.tables, blockLayer.items
    {
      messageLayer.Valid() && blockLayer.Valid() && Answerable() && Linked()
    }

    /** The request's key is known, so Block2 state may be kept for it. */
    ghost predicate Known(transaction: Transaction)
      reads messageLayer, transaction, transaction.request
    {
      && transaction in messageLayer.incoming
      && KeyOf(transaction.request.source, transaction.request.token) in messageLayer.transactionsToken
    }

    method ReceiveInBlockLayer(transaction: Transaction) returns (exit: Exit)
      requires Valid() && Known(transaction)
      modifies blockLayer, blockLayer.tables, blockLayer.items, transaction, transaction.request
      ensures Valid() && Known(transaction) && fresh(blockLayer.items - old(blockLayer.items))
      ensures (blockLayer.Contents(), transaction.View(), exit)
           == BlockTables.ReceiveRequest(old(blockLayer.Contents()), old(transaction.View()))
      ensures transaction.request == old(transaction.request) && unchanged(transaction`resource)
      ensures transaction.response == old(transaction.response) || fresh(transaction.response)
      ensures transaction.resource || transaction.blockTransfer ==> transaction.response != null
      ensures old(transaction.resource) ==> old(transaction.response) != null
    {
      hide MessageLayer.Valid, BlockLayer.Valid, BlockLayer.Contents, BlockTables.ReceiveRequest;
      IncomingRequest(transaction);
      RequestKeepsIdentity(blockLayer.Contents(), transaction.View());
      exit := blockLayer.ReceiveRequest(transaction);
      messageLayer.KeepsValid();
    }

    lemma IncomingRequest(transaction: Transaction)
      requires messageLayer.Valid() && transaction in messageLayer.incoming
      ensures transaction.request !in messageLayer.requests && transaction !in messageLayer.outgoing
    {
    }

    /** The request layer runs only if no resource has answered yet. */
    method RenderResource(transaction: Transaction, render: Resource)
      requires Valid() && Known(transaction) && !transaction.blockTransfer
      modifies transaction`response, transaction`resource
      ensures Valid() && Known(transaction)
      ensures transaction.response == null || transaction.response == old(transaction.response)
              || fresh(transaction.response)
      ensures var x := old(transaction.View());
              var r := render(x.request);
              transaction.View() == x.(
                response := if old(transaction.resource) then x.response
                            else if r.None? then None else Some(RenderedBy(x.request, r.value)))
    {
      hide MessageLayer.Valid, BlockLayer.Valid, BlockLayer.Contents, RenderedBy;
      if !transaction.resource {
        var r := render(transaction.request.Contents());
        if r.None? {
          transaction.response := null;
        } else {
          var response := new Response(RenderedBy(transaction.request.Contents(), r.value));
          transaction.response := response;
          transaction.resource := r.value.found;
        }
        messageLayer.KeepsValid();
      }
    }

    method SendInBlockLayer(transaction: Transaction) returns (exit: Exit)
      requires Valid() && Known(transaction)
      modifies blockLayer, blockLayer.tables, blockLayer.items, transaction.response
      ensures Valid() && Known(transaction) && fresh(blockLayer.items - old(blockLayer.items))
      ensures (blockLayer.Contents(), transaction.View(), exit)
           == BlockTables.SendResponse(old(blockLayer.Contents()), old(transaction.View()))
    {
      hide MessageLayer.Valid, BlockLayer.Valid, BlockLayer.Contents, BlockTables.SendResponse;
      ResponseKeepsKeys(blockLayer.Contents(), transaction.View());
      exit := blockLayer.SendResponse(transaction);
    }

    /** What the caller sees of a response. */
    function Shown(response: Response?): Option<Msg>
      reads response
    {
      if response == null then None else Some(Untagged(response.Contents()))
    }

    method SendInMessageLayer(transaction: Transaction)
      requires Valid() && Known(transaction)
      modifies messageLayer`transactions, messageLayer`currentMid, transaction`completed
      modifies transaction.request, transaction.response
      ensures Valid() && blockLayer.Contents() == old(blockLayer.Contents())
      ensures old(messageLayer.transactions.Keys) <= messageLayer.transactions.Keys
      ensures Shown(transaction.response) == old(Shown(transaction.response))
    {
      hide MessageLayer.Valid, BlockLayer.Valid, BlockLayer.Contents;
      messageLayer.SendResponse(transaction);
    }

    /** Server.receive_request, without the timers and the observe relations; an exception ends it. */
    method ReceiveRequest(transaction: Transaction, render: Resource) returns (answer: Response?)
      requires Valid() && Known(transaction)
      modifies blockLayer, blockLayer.tables, blockLayer.items
      modifies messageLayer`transactions, messageLayer`currentMid
      modifies transaction, transaction.request, transaction.response
      ensures Valid()
      ensures messageLayer.transactionsToken == old(messageLayer.transactionsToken)
      ensures old(messageLayer.transactions.Keys) <= messageLayer.transactions.Keys
      ensures answer == null || answer == transaction.response
      ensures Answered(old(blockLayer.Contents()), old(transaction.View()), old(transaction.resource), render,
                       blockLayer.Contents(), Shown(answer))
    {
      hide Valid, Known, BlockLayer.Contents, BlockTables.ReceiveRequest, Answer, Untagged;
      var exit := ReceiveInBlockLayer(transaction);
      if exit == Thrown {
        return null;
      }
      if transaction.blockTransfer {
        SendInMessageLayer(transaction);
        return transaction.response;
      }
      answer := AnswerRequest(transaction, render);
    }

    method AnswerRequest(transaction: Transaction, render: Resource) returns (answer: Response?)
      requires Valid() && Known(transaction) && !transaction.blockTransfer
      modifies blockLayer, blockLayer.tables, blockLayer.items
      modifies messageLayer`transactions, messageLayer`currentMid
      modifies transaction, transaction.request, transaction.response
      ensures Valid()
      ensures messageLayer.transactionsToken == old(messageLayer.transactionsToken)
      ensures old(messageLayer.transactions.Keys) <= messageLayer.transactions.Keys
      ensures answer == null || answer == transaction.response
      ensures var (t, x, exit) := Answer(old(blockLayer.Contents()), old(transaction.View()),
              old(transaction.resource), render);
              blockLayer.Contents() == t && Shown(answer) == Sent(x, exit)
    {
      hide Valid, Known, BlockLayer.Contents, BlockTables.SendResponse, RenderedBy, Untagged;
      RenderResource(transaction, render);
      answer := SendOut(transaction);
    }

    method SendOut(transaction: Transaction) returns (answer: Response?)
      requires Valid() && Known(transaction)
      modifies blockLayer, blockLayer.tables, blockLayer.items
      modifies messageLayer`transactions, messageLayer`currentMid
      modifies transaction`completed, transaction.request, transaction.response
      ensures Valid()
      ensures old(messageLayer.transactions.Keys) <= messageLayer.transactions.Keys
      ensures answer == null || answer == transaction.response
      ensures var (t, x, exit) := BlockTables.SendResponse(old(blockLayer.Contents()), old(transaction.View()));
              blockLayer.Contents() == t && Shown(answer) == Sent(x, exit)
    {
      hide Valid, BlockLayer.Contents, BlockTables.SendResponse, Untagged;
      var exit := SendInBlockLayer(transaction);
      if exit == Thrown {
        return null;
      }
      SendInMessageLayer(transaction);
      answer := transaction.response;
    }

    // -------------------------------------------------------------- datagrams

    /** A new or continued transaction keeps the invariant. */
    twostate lemma KeepsValid(new transaction: Transaction)
      requires old(Valid()) && messageLayer.Valid() && blockLayer.Valid()
      requires blockLayer.Contents() == old(blockLayer.Contents())
      requires old(messageLayer.transactionsToken.Keys) <= messageLayer.transactionsToken.Keys
      requires messageLayer.incoming == old(messageLayer.incoming) + {transaction}
      requires forall t :: t in old(messageLayer.incoming) ==>
        t.resource == old(t.resource) && t.blockTransfer == old(t.blockTransfer) && t.response == old(t.response)
      requires transaction in old(messageLayer.incoming) || (!transaction.resource && !transaction.blockTransfer)
      ensures Valid()
    {
      hide MessageLayer.Valid, BlockLayer.Valid, BlockLayer.Contents;
    }

    /** MessageLayer.receive_request, as the server sees it. */
    method Accept(m: Msg, now: real) returns (transaction: Transaction)
      requires Valid()
      modifies messageLayer`transactions, messageLayer`transactionsToken, messageLayer`incoming
      modifies messageLayer.incoming`request
      modifies set t | t in messageLayer.incoming :: t.request`duplicated
      ensures Valid() && blockLayer.Contents() == old(blockLayer.Contents())
      ensures transaction in messageLayer.incoming
      ensures fresh(transaction) || transaction in old(messageLayer.incoming)
      ensures Passage(old(messageLayer.transactions.Keys),
              Arrival(MidKeyOf(m.source, m.mid), !transaction.request.duplicated),
                      messageLayer.transactions.Keys)
      ensures if transaction.request.duplicated then
                var key := MidKeyOf(m.source, m.mid);
                && key in old(messageLayer.transactions) && transaction in old(messageLayer.incoming)
                && transaction == old(messageLayer.transactions)[key]
                && transaction.request == old(messageLayer.transactions[MidKeyOf(m.source, m.mid)].request)
              else
                && fresh(transaction.request) && Known(transaction)
                && (transaction.View(), transaction.resource) == old(messageLayer.Continued(m))
                && (transaction.response == null || transaction.response in old(messageLayer.Responses()))
    {
      hide MessageLayer.Valid, BlockLayer.Valid, BlockLayer.Contents, MessageLayer.Responses, Linked,
        Answerable, KeyOf;
      var request := NewRequest(m);
      transaction := messageLayer.ReceiveRequest(request, now);
      KeepsValid(transaction);
    }

    /** send_ack: acknowledge a confirmable request that is still being handled. */
    method SendAck(transaction: Transaction)
      requires Valid()
      modifies transaction`completed, transaction.request`acknowledged, transaction.request`timeouted
      modifies transaction.request`rejected, transaction.request`cancelled
      ensures Valid() && blockLayer.Contents() == old(blockLayer.Contents())
      ensures transaction.completed == (old(transaction.completed) ||
                (transaction.request.typ == Some(CON) && !old(transaction.request.acknowledged)))
    {
      hide MessageLayer.Valid, BlockLayer.Valid, BlockLayer.Contents;
      if !transaction.request.acknowledged && transaction.request.typ == Some(CON) {
        transaction.request.SetAcknowledged(true);
        transaction.completed := true;
      }
    }

    /**
      A request datagram. A duplicate is answered from its transaction and reaches no layer above;
      any other request is handled, in the transaction of its token if that has a response.
     */
    method DatagramReceivedRequest(m: Msg, now: real, render: Resource)
      returns (handled: bool, answer: Response?)
      requires Valid() && Recorded()
      modifies this`events, this`states
      modifies messageLayer`transactions, messageLayer`transactionsToken, messageLayer`incoming, messageLayer`currentMid
      modifies messageLayer.incoming, set t | t in messageLayer.incoming :: t.request, messageLayer.Responses()
      modifies blockLayer, blockLayer.tables, blockLayer.items
      ensures Valid() && Recorded()
      ensures events == old(events) + [Arrival(MidKeyOf(m.source, m.mid), handled)]
      ensures !handled ==>
        && MidKeyOf(m.source, m.mid) in old(messageLayer.transactions)
        && var first := old(messageLayer.transactions)[MidKeyOf(m.source, m.mid)];
        && blockLayer.Contents() == old(blockLayer.Contents())
        && answer == if old(first.completed) then old(first.response) else null
      ensures handled ==>
        var (x, resource) := old(messageLayer.Continued(m));
        Answered(old(blockLayer.Contents()), x, resource, render, blockLayer.Contents(), Shown(answer))
    {
      hide Valid, Known, BlockLayer.Contents, Answered, MessageLayer.Continued, Passage, IsRun;
      var transaction := Accept(m, now);
      handled := !transaction.request.duplicated;
      ghost var keys := messageLayer.transactions.Keys;
      if handled {
        answer := ReceiveRequest(transaction, render);
      } else {
        answer := AnswerDuplicate(transaction);
      }
      PassageExtends(old(messageLayer.transactions.Keys), Arrival(MidKeyOf(m.source, m.mid), handled), keys,
                     messageLayer.transactions.Keys);
      Record(Arrival(MidKeyOf(m.source, m.mid), handled));
    }

    /** A duplicate of a completed exchange is answered again, one still being handled is acknowledged. */
    method AnswerDuplicate(transaction: Transaction) returns (answer: Response?)
      requires Valid()
      modifies transaction`completed, transaction.request`acknowledged, transaction.request`timeouted
      modifies transaction.request`rejected, transaction.request`cancelled
      ensures Valid() && blockLayer.Contents() == old(blockLayer.Contents())
      ensures answer == if old(transaction.completed) then transaction.response else null
    {
      if transaction.completed {
        answer := transaction.response;
      } else {
        SendAck(transaction);
        answer := null;
      }
    }

    method NewRequest(m: Msg) returns (request: Request)
      requires Valid()
      ensures Valid() && fresh(request) && request.Contents() == m && !request.duplicated
      ensures request !in messageLayer.requests
      ensures forall t :: t in messageLayer.incoming ==> t.request != request
    {
      hide MessageLayer.Valid, BlockLayer.Valid, BlockLayer.Contents;
      request := new Request(m);
    }

    /** BlockLayer.receive_response for a matched transaction. */
    method ContinueInBlockLayer(transaction: Transaction) returns (exit: Exit)
      requires Valid() && transaction in messageLayer.outgoing && transaction.response != null
      modifies blockLayer, blockLayer.tables, blockLayer.items, transaction, transaction.request, transaction.response
      ensures Valid() && fresh(blockLayer.items - old(blockLayer.items))
      ensures transaction.request == old(transaction.request) && transaction.response != null
      ensures (blockLayer.Contents(), transaction.View(), exit)
           == BlockTables.ReceiveResponse(old(blockLayer.Contents()), old(transaction.View()))
    {
      hide MessageLayer.Valid, BlockLayer.Valid, BlockLayer.Contents, BlockTables.ReceiveResponse;
      OutgoingRequest(transaction);
      ContinuationKeepsIdentity(blockLayer.Contents(), transaction.View());
      exit := blockLayer.ReceiveResponse(transaction);
      messageLayer.KeepsValid();
    }

    lemma OutgoingRequest(transaction: Transaction)
      requires messageLayer.Valid() && transaction in messageLayer.outgoing
      ensures transaction.request in messageLayer.requests && transaction !in messageLayer.incoming
      ensures forall t :: t in messageLayer.incoming ==> t.request != transaction.request
    {
    }

    /** The request as the message layer sends it: with an id, a type and a token. */
    method SendRequestInMessageLayer(request: Request, now: real, drawn: bytes) returns (transaction: Transaction)
      requires Valid() && forall t :: t in messageLayer.incoming ==> t.request != request
      modifies messageLayer, request`timestamp, request`typ, request`mid, request`token
      ensures Valid() && blockLayer.Contents() == old(blockLayer.Contents())
      ensures messageLayer.transactions == old(messageLayer.transactions)
      ensures transaction in messageLayer.outgoing && transaction.request == request
      ensures Untagged(request.Contents()) == old(Untagged(request.Contents()))
      ensures request.mid.Some? && (old(request.mid).Some? ==> request.mid == old(request.mid))
      ensures request.token.Some? && (old(request.token).Some? ==> request.token == old(request.token))
      ensures messageLayer.transactionsSentToken
           == old(messageLayer.transactionsSentToken)[KeyOf(request.destination, request.token) := transaction]
      ensures messageLayer.transactionsSent
           == old(messageLayer.transactionsSent)[MidKeyOf(request.destination, request.mid) := transaction]
    {
      hide MessageLayer.Valid, BlockLayer.Valid, BlockLayer.Contents;
      transaction := messageLayer.SendRequest(request, now, drawn);
    }

    /**
      A response datagram. It reaches only a transaction whose request carries its token; if it is
      part of a block transfer, the transfer goes on with the same request object in a new transaction.
     */
    method DatagramReceivedResponse(m: Msg, now: real, drawn: bytes) returns (matched: Transaction?, next: Transaction?)
      requires Valid() && Recorded()
      modifies this`events, this`states
      modifies messageLayer, messageLayer.outgoing, messageLayer.requests
      modifies blockLayer, blockLayer.tables, blockLayer.items
      ensures Valid() && Recorded() && events == old(events) + [Other]
      ensures messageLayer.transactions == old(messageLayer.transactions)
      ensures matched == old(messageLayer.Matching(m))
      ensures matched == null ==> next == null && blockLayer.Contents() == old(blockLayer.Contents())
      ensures matched != null ==>
        && matched in old(messageLayer.outgoing) && matched.request == old(matched.request)
        && old(matched.request.token) == m.token && matched.request.token == m.token
        && var (t, x, exit) := BlockTables.ReceiveResponse(old(blockLayer.Contents()),
             Exchange(old(matched.request.Contents()), Some(m), true, old(matched.blockTransfer)));
           && blockLayer.Contents() == t
           && (next != null <==> exit != Thrown && x.blockTransfer)
           && (next != null ==>
                 && next.request == matched.request && !next.request.acknowledged
                 && GoesOn(x.request, next.request.Contents()))
    {
      hide Valid, BlockLayer.Contents, BlockTables.ReceiveResponse, GoesOn, MessageLayer.Matching, IsRun;
      OutgoingRequests();
      var response := NewResponse(m);
      Record(Other);
      matched := MatchResponse(response);
      if matched == null {
        return null, null;
      }
      next := ContinueTransfer(matched, now, drawn);
    }

    lemma OutgoingRequests()
      requires Valid()
      ensures forall t :: t in messageLayer.outgoing ==> t.request in messageLayer.requests
    {
    }

    method NewResponse(m: Msg) returns (response: Response)
      requires Valid()
      ensures Valid() && fresh(response) && response.Contents() == m
    {
      hide MessageLayer.Valid, BlockLayer.Valid, BlockLayer.Contents;
      response := new Response(m);
    }

    method MatchResponse(response: Response) returns (matched: Transaction?)
      requires Valid()
      modifies messageLayer.outgoing`completed, messageLayer.outgoing`response
      modifies set t | t in messageLayer.outgoing :: t.request`acknowledged
      modifies set t | t in messageLayer.outgoing :: t.request`timeouted
      modifies set t | t in messageLayer.outgoing :: t.request`rejected
      modifies set t | t in messageLayer.outgoing :: t.request`cancelled
      ensures Valid() && blockLayer.Contents() == old(blockLayer.Contents())
      ensures matched == old(messageLayer.Matching(response.Contents()))
      ensures matched != null ==>
        && matched in messageLayer.outgoing && matched.request in messageLayer.requests
        && matched.request == old(matched.request)
        && old(matched.request.token) == response.token && matched.response == response
        && matched.request.token == response.token && response.token.Some?
        && matched.View() == Exchange(old(matched.request.Contents()), Some(old(response.Contents())), true,
            old(matched.blockTransfer))
    {
      hide BlockLayer.Valid, BlockLayer.Contents, MessageLayer.Matching;
      var sendAck;
      matched, sendAck := messageLayer.ReceiveResponse(response);
    }

    method ContinueTransfer(transaction: Transaction, now: real, drawn: bytes) returns (next: Transaction?)
      requires Valid() && transaction in messageLayer.outgoing && transaction.response != null
      modifies messageLayer, transaction, transaction.request, transaction.response
      modifies blockLayer, blockLayer.tables, blockLayer.items
      ensures Valid() && messageLayer.transactions == old(messageLayer.transactions)
      ensures transaction.request == old(transaction.request)
      ensures old(transaction.request.token).Some? ==> transaction.request.token == old(transaction.request.token)
      ensures var (t, x, exit) := BlockTables.ReceiveResponse(old(blockLayer.Contents()), old(transaction.View()));
              && blockLayer.Contents() == t
              && (next != null <==> exit != Thrown && x.blockTransfer)
              && (next != null ==>
                    && next.request == transaction.request && !next.request.acknowledged
                    && GoesOn(x.request, next.request.Contents()))
    {
      hide Valid, BlockLayer.Contents, BlockTables.ReceiveResponse, GoesOn;
      ContinuationKeepsToken(transaction);
      var exit := ContinueInBlockLayer(transaction);
      next := null;
      if exit != Thrown && transaction.blockTransfer {
        next := SendBlockRequest(transaction, now, drawn);
      }
    }

    /** send_block_request: the former request goes on in a new transaction. */
    method SendBlockRequest(transaction: Transaction, now: real, drawn: bytes) returns (next: Transaction)
      requires Valid() && transaction in messageLayer.outgoing
      modifies messageLayer, transaction.request
      ensures Valid() && blockLayer.Contents() == old(blockLayer.Contents())
      ensures messageLayer.transactions == old(messageLayer.transactions)
      ensures transaction.request == old(transaction.request)
      ensures old(transaction.request.token).Some? ==> transaction.request.token == old(transaction.request.token)
      ensures next.request == transaction.request && !next.request.acknowledged
      ensures GoesOn(old(transaction.request.Contents()), next.request.Contents())
    {
      hide Valid, BlockLayer.Contents, Untagged;
      NotIncoming(transaction);
      next := SendRequestInMessageLayer(transaction.request, now, drawn);
      ResetAcknowledged(next);
    }

    lemma ContinuationKeepsToken(transaction: Transaction)
      requires Valid() && transaction.response != null
      ensures blockLayer.Valid()
      ensures BlockTables.ReceiveResponse(blockLayer.Contents(), transaction.View()).1.request.token
              == transaction.request.token
    {
      hide BlockTables.ReceiveResponse;
      ContinuationKeepsIdentity(blockLayer.Contents(), transaction.View());
    }

    lemma NotIncoming(transaction: Transaction)
      requires Valid() && transaction in messageLayer.outgoing
      ensures forall t :: t in messageLayer.incoming ==> t.request != transaction.request
    {
    }

    method ResetAcknowledged(transaction: Transaction)
      requires Valid()
      modifies transaction.request`acknowledged, transaction.request`timeouted
      modifies transaction.request`rejected, transaction.request`cancelled
      ensures Valid() && blockLayer.Contents() == old(blockLayer.Contents()) && !transaction.request.acknowledged
    {
      hide MessageLayer.Valid, BlockLayer.Valid, BlockLayer.Contents;
      transaction.request.SetAcknowledged(false);
    }

    /**
      send_message for a request: the block layer first, then the message layer, unless no response
      is wanted. An exception in the block layer leaves nothing behind, and nothing is sent.
     */
    method SendMessage(m: Msg, noResponse: bool, now: real, drawn: bytes)
      returns (sent: Request?, transaction: Transaction?)
      requires Valid() && Recorded()
      modifies this`events, this`states
      modifies messageLayer, blockLayer, blockLayer.tables, blockLayer.items
      ensures Valid() && Recorded() && events == old(events) + [Other]
      ensures messageLayer.transactions == old(messageLayer.transactions)
      ensures var token := if m.token.Some? then m.token else Some(drawn);
              var (t, m', exit) := BlockTables.SendRequest(old(blockLayer.Contents()), m.(token := token));
              && blockLayer.Contents() == t
              && (sent == null <==> exit == Thrown)
              && (transaction == null <==> exit == Thrown || noResponse)
              && messageLayer.transactionsSentToken ==
                   (if transaction == null then old(messageLayer.transactionsSentToken)
                    else old(messageLayer.transactionsSentToken)[KeyOf(m.destination, token) := transaction])
              && (sent != null && noResponse ==> sent.Contents() == m')
              && (transaction != null ==>
                    && messageLayer.transactionsSent ==
                         old(messageLayer.transactionsSent)[MidKeyOf(sent.destination, sent.mid) := transaction]
                    && transaction in messageLayer.outgoing && transaction.request == sent
                    && sent.token == token && GoesOn(m', sent.Contents()))
    {
      hide Valid, BlockLayer.Contents, BlockTables.SendRequest, Untagged, IsRun;
      Record(Other);
      var token := if m.token.Some? then m.token else Some(drawn);
      var request := NewRequest(m.(token := token));
      var exit := SendRequestInBlockLayer(request);
      if exit == Thrown {
        return null, null;
      }
      sent, transaction := request, null;
      if !noResponse {
        transaction := SendRequestInMessageLayer(request, now, drawn);
      }
    }

    method SendRequestInBlockLayer(request: Request) returns (exit: Exit)
      requires Valid() && request !in messageLayer.requests
      requires forall t :: t in messageLayer.incoming ==> t.request != request
      modifies blockLayer, blockLayer.tables, blockLayer.items, request
      ensures Valid() && (forall t :: t in messageLayer.incoming ==> t.request != request)
      ensures (blockLayer.Contents(), request.Contents(), exit)
           == BlockTables.SendRequest(old(blockLayer.Contents()), old(request.Contents()))
      ensures request.token == old(request.token) && request.destination == old(request.destination)
    {
      hide MessageLayer.Valid, BlockLayer.Valid, BlockLayer.Contents, BlockTables.SendRequest;
      SendingKeepsIdentity(blockLayer.Contents(), request.Contents());
      exit := blockLayer.SendRequest(request);
    }

    /**
      The periodic purge. Exactly the transactions that are not completed and not older than 335
      seconds stay, and with them their Block2 state.
     */
    method Purge(now: real)
      requires Valid()
      modifies this`events, this`states
      modifies messageLayer`transactions, messageLayer`transactionsToken, blockLayer, blockLayer.tables,
        blockLayer.items
      ensures Valid() && Recorded() && events == []
      ensures forall k :: k in messageLayer.transactions <==>
                k in old(messageLayer.transactions)
                && var t := old(messageLayer.transactions)[k]; !t.completed && now <= t.timestamp + 335.0
      ensures forall k :: k in messageLayer.transactionsToken <==>
                k in old(messageLayer.transactionsToken)
                && var t := old(messageLayer.transactionsToken)[k]; !t.completed && now <= t.timestamp + 335.0
      ensures forall k :: k in messageLayer.transactions ==>
                messageLayer.transactions[k] == old(messageLayer.transactions)[k]
      ensures forall k :: k in messageLayer.transactionsToken ==>
                messageLayer.transactionsToken[k] == old(messageLayer.transactionsToken)[k]
      ensures var before := old(blockLayer.Contents());
              && blockLayer.Contents().(received2 := before.received2) == before
              && (forall k :: k in blockLayer.Contents().received2 ==>
                    k in before.received2 && blockLayer.Contents().received2[k] == before.received2[k])
              && (forall k :: k in before.received2 ==>
                    (k in blockLayer.Contents().received2 <==> k in messageLayer.transactionsToken))
    {
      hide MessageLayer.Valid, BlockLayer.Valid, BlockLayer.Contents, IsRun;
      messageLayer.Purge(now, EXCHANGE_LIFETIME, blockLayer);
      Restart();
    }
  }
}
