/** Runs of the block layer, client side of Block1: which stretches of a payload are sent. */
module BlockSending {

  import opened Wrappers
  import opened Bytes
  import opened BlockOption
  import opened Messages
  import opened BlockTables
  import opened BlockIsolation
  import opened BlockServing

  /** A request that is sent in blocks. */
  predicate Starts(op: Op, k: Key) {
    && op.RequestOut? && OpKey(op) == k && op.request.payload.Some?
    && (op.request.block1.Some? || |op.request.payload.value| > 1024)
  }

  /** A response with Block1 to a request that was sent in blocks. */
  predicate Answers(t: Tables, op: Op, k: Key) {
    op.ResponseIn? && OpKey(op) == k && k in t.sent1 && op.response.block1.Some?
  }

  /** The payload, the number and size of its first block, and the sizes of all blocks sent so far. */
  datatype Sending = Sending(payload: bytes, first: nat, sizes: seq<nat>)

  function SizeOf(s: Sending): nat { if s.sizes == [] then 0 else s.sizes[|s.sizes| - 1] }

  function NumberOf(s: Sending): int { s.first + |s.sizes| - 1 }

  /** More octets follow; of the first block it is told from its own number. */
  function MoreOf(s: Sending): bool {
    if |s.sizes| == 1 then (s.first + 1) * SizeOf(s) <= |s.payload| else Sum(s.sizes) < |s.payload|
  }

  function SmallerOf(a: nat, b: nat): nat { if a <= b then a else b }

  /** The upload of a key after a run: one more block for every answer to the last one while more follow. */
  function SendingOf(ops: seq<Op>, k: Key): Option<Sending> {
    if ops == [] then None
    else
      var front, op := ops[..|ops| - 1], ops[|ops| - 1];
      var before, t := SendingOf(front, k), RunAll(front);
      if Starts(op, k) then
        var (num, size) := if op.request.block1.Some? then (op.request.block1.value.num, op.request.block1.value.size)
                           else (0, 1024);
        Some(Sending(op.request.payload.value, num, [size]))
      else if Answers(t, op, k) && before.Some? && Advances(before.value, op.response) then
        Some(Longer(before.value, op.response))
      else before
  }

  /** The answer names the block that was sent last, and more octets follow it. */
  predicate Advances(s: Sending, r: Msg)
    requires r.block1.Some?
  {
    MoreOf(s) && r.block1.value.num == NumberOf(s)
  }

  function Longer(s: Sending, r: Msg): Sending
    requires r.block1.Some?
  {
    s.(sizes := s.sizes + [SmallerOf(SizeOf(s), r.block1.value.size)])
  }

  predicate Sends(t: Tables, k: Key, s: Option<Sending>) {
    && (k in t.sent1 <==> s.Some?)
    && (s.Some? ==>
          && s.value.sizes != []
          && t.sent1[k].payload == Octets(s.value.payload)
          && t.sent1[k].byte == Sum(s.value.sizes)
          && t.sent1[k].size == SizeOf(s.value)
          && t.sent1[k].num == NumberOf(s.value)
          && t.sent1[k].more == MoreOf(s.value))
  }

  lemma SumOfOne(size: nat)
    ensures Sum([size]) == size
  {
    assert [size][..0] == [];
  }

  lemma StartingSends(t: Tables, op: Op, k: Key)
    requires Starts(op, k)
    ensures var m := op.request;
            var (num, size) := if m.block1.Some? then (m.block1.value.num, m.block1.value.size) else (0, 1024);
            var s := Sending(m.payload.value, num, [size]);
            var (t', m', exit) := SendRequest(t, m);
            && Sends(t', k, Some(s)) && exit == Returned
            && m' == m.(size1 := Some(|m.payload.value|), payload := Some(Slice(m.payload.value, 0, size)),
                        block1 := Some(Block(num, MoreOf(s), size)))
  {
    hide Slice;
    SumOfOne(if op.request.block1.Some? then op.request.block1.value.size else 1024);
  }

  /**
    An answer in any state that agrees with an upload. After the last block it ends the transfer and
    goes to the caller; if it names another block than the last one sent, the same request is sent
    again; otherwise the next stretch of the payload is sent, in the smaller of the two sizes.
   */
  lemma AnswerArrives(t: Tables, op: Op, k: Key, s: Sending)
    requires Sends(t, k, Some(s)) && Answers(t, op, k)
    ensures var r, x := op.response, op.x.(response := Some(op.response));
            var (t', x', exit) := ReceiveResponse(t, x);
            if !MoreOf(s) then
              t' == t && exit == Returned && x' == x.(blockTransfer := false, request := x.request.(block1 := None))
            else if r.block1.value.num != NumberOf(s) then
              t' == t && exit == ReturnedNone && x' == x.(blockTransfer := true)
            else
              var s' := Longer(s, r);
              && Sends(t', k, Some(s')) && exit == Returned
              && x' == x.(blockTransfer := true, request := x.request.(mid := None,
                   payload := Some(Slice(s.payload, Sum(s.sizes), Sum(s'.sizes))),
                   block1 := Some(Block(r.block1.value.num + 1, MoreOf(s'), SizeOf(s')))))
  {
    hide Slice;
    SumSnoc(s.sizes, SmallerOf(SizeOf(s), op.response.block1.value.size));
  }

  lemma OtherCallsKeepSending(t: Tables, op: Op, k: Key)
    requires !Starts(op, k) && !Answers(t, op, k)
    ensures Lookup(Apply(t, op).0.sent1, k) == Lookup(t.sent1, k)
  {
    if OpKey(op) != k {
      hide Apply;
      OtherKeysUntouched(t, op, k);
    } else {
      hide Cut, Serving, Join, Error, Slice, MoreAfter, StoreBlock, CloseDownload;
    }
  }

  lemma SameSending(t: Tables, t': Tables, k: Key, s: Option<Sending>)
    requires Sends(t, k, s) && Lookup(t'.sent1, k) == Lookup(t.sent1, k)
    ensures Sends(t', k, s)
  {
  }

  /** For every run of calls the table agrees with the upload that the run amounts to. */
  lemma {:induction false} SendingsAddUp(ops: seq<Op>, k: Key)
    ensures Sends(RunAll(ops), k, SendingOf(ops, k))
  {
    hide Apply, Sends, Starts, Answers, ReceiveResponse, SendRequest, MoreOf;
    if ops == [] {
      NothingSent(k);
    } else {
      var front, op := ops[..|ops| - 1], ops[|ops| - 1];
      var t, before := RunAll(front), SendingOf(front, k);
      SendingsAddUp(front, k);
      if Starts(op, k) {
        StartingSends(t, op, k);
        ApplyStarts(t, op, k);
      } else if Answers(t, op, k) {
        ApplyAnswers(t, op, k, before);
        AnswerArrives(t, op, k, before.value);
      } else {
        OtherCallsKeepSending(t, op, k);
        SameSending(t, Apply(t, op).0, k, before);
      }
    }
  }

  lemma NothingSent(k: Key)
    ensures Sends(EmptyTables, k, None)
  {
  }

  lemma ApplyStarts(t: Tables, op: Op, k: Key)
    requires Starts(op, k)
    ensures op.RequestOut? && op.request.payload.Some? && Apply(t, op).0 == SendRequest(t, op.request).0
  {
  }

  lemma ApplyAnswers(t: Tables, op: Op, k: Key, s: Option<Sending>)
    requires Answers(t, op, k) && Sends(t, k, s)
    ensures s.Some? && op.ResponseIn? && op.response.block1.Some?
    ensures Apply(t, op).0 == ReceiveResponse(t, op.x.(response := Some(op.response))).0
  {
  }

  /** The next answer of any run. */
  lemma NextAnswer(ops: seq<Op>, k: Key, op: Op)
    requires Answers(RunAll(ops), op, k)
    ensures SendingOf(ops, k).Some?
    ensures var t, s, r, x := RunAll(ops), SendingOf(ops, k).value, op.response, op.x.(response := Some(op.response));
            var (t', x', exit) := ReceiveResponse(t, x);
            && (x'.blockTransfer <==> MoreOf(s))
            && (exit == ReturnedNone <==> MoreOf(s) && r.block1.value.num != NumberOf(s))
            && (Advances(s, r) ==>
                  var until := Sum(s.sizes) + SmallerOf(SizeOf(s), r.block1.value.size);
                  x'.request.payload == Some(Slice(s.payload, Sum(s.sizes), until)))
            && (!Advances(s, r) ==> t' == t && x'.request.payload == x.request.payload)
  {
    hide ReceiveResponse, Slice, MoreOf;
    SendingsAddUp(ops, k);
    ApplyAnswers(RunAll(ops), op, k, SendingOf(ops, k));
    AnswerArrives(RunAll(ops), op, k, SendingOf(ops, k).value);
    SumSnoc(SendingOf(ops, k).value.sizes, SmallerOf(SizeOf(SendingOf(ops, k).value), op.response.block1.value.size));
  }

  /** The stretches sent one after the other. */
  function Stretches(payload: bytes, sizes: seq<nat>): bytes {
    if sizes == [] then []
    else
      var front := sizes[..|sizes| - 1];
      Stretches(payload, front) + Slice(payload, Sum(front), Sum(sizes))
  }

  /** They make up the payload from its start, without gap or overlap. */
  lemma {:induction false} StretchesMakePrefix(payload: bytes, sizes: seq<nat>)
    ensures Stretches(payload, sizes) == if Sum(sizes) <= |payload| then payload[..Sum(sizes)] else payload
  {
    if sizes != [] {
      StretchesMakePrefix(payload, sizes[..|sizes| - 1]);
    }
  }
}
