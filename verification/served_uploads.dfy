/** Uploads through the composed server: what is answered to every block request of every run. */
module ServedUploads {

  import opened Wrappers
  import opened Bytes
  import opened BlockOption
  import opened Messages
  import opened BlockTables
  import opened BlockIsolation
  import opened Server
  import BlockTransfer

  /** The answer that is addressed back to the sender of a request, under its token. */
  function AnswerTo(request: Msg, code: nat, block1: Option<Block>): Msg {
    Msg(request.destination, request.source, None, None, None, Some(code), block1, None, None, None, 0, None, [])
  }

  /**
    Every block request of every run, in a transaction with any history: one that does not continue
    the upload is answered 4.08, one that does with M set is answered 2.31 with its own block triple,
    one whose payload cannot be joined is not answered, and the last one is handed on to the resource
    with the whole payload.
   */
  lemma UploadIsAnswered(ops: seq<Op>, k: Key, op: Op, resource: bool, render: Resource)
    requires IsUpload(op, k)
    ensures var pending, m, t := Pending(ops, k), op.x.request, RunAll(ops);
            var (u, y, exit) := Handle(t, op.x, resource, render);
            if !Continues(pending, m) then
              u == t && Sent(y, exit) == Some(AnswerTo(m, 136, None))
            else if !Joins(pending, m) then
              u == t && Sent(y, exit) == None
            else if m.block1.value.more then
              Sent(y, exit) == Some(AnswerTo(m, 95, m.block1))
            else
              var (t', x', _) := ReceiveRequest(t, op.x);
              && x'.request == m.(payload := Concatenation(pending + [m]), block1 := None)
              && (u, y, exit) == Answer(t', x', resource, render)
  {
    hide Concatenation, Continues, Joins, RunAll, Pending, Answer, OutcomeOf, ReceiveRequest;
    NextBlockRequest(ops, k, op);
    var t := RunAll(ops);
    AnsweredByOutcome(t, k, op);
  }

  /** What the block layer leaves of the exchange, outcome by outcome. */
  lemma AnsweredByOutcome(t: Tables, k: Key, op: Op)
    requires IsUpload(op, k)
    ensures var m := op.x.request;
            var (t', x', exit) := ReceiveRequest(t, op.x);
            && (exit == Thrown <==> OutcomeOf(t, op) == Broken)
            && (OutcomeOf(t, op) == Continued ==>
                  x'.blockTransfer && exit == Returned && m.block1.value.more
                  && Sent(x', exit) == Some(AnswerTo(m, 95, m.block1)))
            && (OutcomeOf(t, op) == Rejected ==>
                  x'.blockTransfer && exit == Returned && Sent(x', exit) == Some(AnswerTo(m, 136, None)))
            && (OutcomeOf(t, op) == Delivered ==>
                  !x'.blockTransfer && exit == Returned && !m.block1.value.more
                  && x'.request == m.(payload := x'.request.payload, block1 := None))
  {
    hide Join;
  }

  /** What the resource renders is sent as it is, back to the sender, unless it is cut into blocks. */
  lemma RenderingIsSent(t: Tables, x: Exchange, render: Resource)
    requires KeyOf(x.request.source, x.request.token) !in t.received2
    ensures var (u, y, exit) := Answer(t, x, false, render);
            var q, r := x.request, render(x.request);
            if r.None? then u == t && Sent(y, exit) == None
            else if r.value.payload.Some? && |r.value.payload.value| > 1024 then
              Sent(y, exit).Some? && Sent(y, exit).value.payload == Some(r.value.payload.value[..1024])
            else
              u == t && Sent(y, exit) == Some(Msg(q.destination, q.source, None, None, None, Some(r.value.code),
                None, None, None, None, r.value.form.contentType, r.value.payload, r.value.form.others))
  {
  }

  /** An exchange of an upload is what the composed server does with its request, and the client with its answer. */
  lemma UploadStepIsHandle(u: BlockTransfer.Upload, client: Endpoint, size: nat, x: Exchange, resource: bool,
                           render: Resource)
    requires u.Uploading? && u.request.block1.Some? && u.request.block2.None?
    requires x.request == BlockTransfer.FromClient(u.request, client)
    ensures var (t, y, exit) := Handle(u.server, x, resource, render);
            var (t', x', exit') := ReceiveRequest(u.server, x);
            var u' := BlockTransfer.UploadStep(u, client, size);
            if exit' == Thrown then Sent(y, exit) == None && t == u.server && u' == BlockTransfer.UploadBroken
            else if x'.blockTransfer then
              && Sent(y, exit) == Some(Untagged(x'.response.value)) && t == t'
              && u' == (if BlockTransfer.Continuation(x', size).None? then BlockTransfer.UploadRefused
                        else BlockTransfer.TakeAnswer(u, t, BlockTransfer.Continuation(x', size).value))
            else
              && (t, y, exit) == Answer(t', x', resource, render)
              && u' == BlockTransfer.Uploaded(u.client, t', x'.request)
  {
    hide Answer, BlockTransfer.TakeAnswer, ReceiveRequest;
    UploadIgnoresHistory(u.server, x.request, x);
    BlockTransferHasResponse(u.server, x);
  }

  lemma BlockTransferHasResponse(t: Tables, x: Exchange)
    requires x.request.block1.Some? && x.request.block2.None?
    ensures var (t', x', exit) := ReceiveRequest(t, x);
            && exit != ReturnedNone && (exit == Thrown ==> t' == t)
            && (exit != Thrown && x'.blockTransfer ==> x'.response.Some? && exit == Returned)
  {
    hide Join;
  }

  /** Every answer goes back to the endpoint that the request came from, under the request's token. */
  lemma AnswerGoesBack(t: Tables, x: Exchange, resource: bool, render: Resource)
    requires x.response.Some? ==>
               && x.response.value.destination == x.request.source && x.response.value.source == x.request.destination
               && x.response.value.token == x.request.token
    ensures var (u, y, exit) := Handle(t, x, resource, render);
            && (y.response.Some? ==> y.response.value.token == x.request.token)
            && (Sent(y, exit).Some? ==>
                  && Sent(y, exit).value.destination == x.request.source
                  && Sent(y, exit).value.source == x.request.destination)
  {
    hide ReceiveRequest, BlockTables.SendResponse;
    AskingKeepsAddress(t, x);
    var (t', x', exit) := ReceiveRequest(t, x);
    if exit != Thrown && !x'.blockTransfer {
      var r := render(x'.request);
      var response := if resource then x'.response else if r.None? then None else Some(RenderedBy(x'.request, r.value));
      CuttingKeepsAddress(t', x'.(response := response));
      assert Handle(t, x, resource, render) == BlockTables.SendResponse(t', x'.(response := response));
    }
  }

  lemma AskingKeepsAddress(t: Tables, x: Exchange)
    ensures var (t', x', exit) := ReceiveRequest(t, x);
            && x'.request.source == x.request.source && x'.request.destination == x.request.destination
            && x'.request.token == x.request.token
            && (x'.response == x.response
                || (x'.response.Some?
                    && x'.response.value.destination == x.request.source
                    && x'.response.value.source == x.request.destination
                    && x'.response.value.token == x.request.token))
  {
    hide Join, OctetsOf, Gathered;
  }

  lemma CuttingKeepsAddress(t: Tables, x: Exchange)
    ensures var (u, y, exit) := BlockTables.SendResponse(t, x);
            && (y.response.Some? <==> x.response.Some?)
            && (x.response.Some? ==>
                  && y.response.value.destination == x.response.value.destination
                  && y.response.value.source == x.response.value.source
                  && y.response.value.token == x.response.value.token)
  {
    hide Serving, Slice, MoreAfter, OctetsOf;
  }
}
