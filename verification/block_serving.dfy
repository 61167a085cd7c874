/** Runs of the block layer, server side of Block2: which stretch of a body each answer carries. */
module BlockServing {

  import opened Wrappers
  import opened Bytes
  import opened BlockOption
  import opened Messages
  import opened BlockTables
  import opened BlockIsolation

  /** A call that answers a request of the key with a block. */
  predicate Serves(t: Tables, op: Op, k: Key) {
    op.ResponseOut? && OpKey(op) == k && op.x.response.Some? && Blockwise(t, k, op.x.response.value)
  }

  /** A request of the key with a Block2 option. */
  predicate Asks(op: Op, k: Key) {
    op.RequestIn? && op.x.request.block2.Some? && OpKey(op) == k
  }

  /** The answer that a serving call prepares. */
  function AnswerOf(t: Tables, op: Op): Msg
    requires op.ResponseOut? && op.x.response.Some?
  {
    SendResponse(t, op.x).1.response.value
  }

  /** Where the blocks of a key start, and the sizes of those served since. */
  datatype Account = Account(start: nat, sizes: seq<nat>)

  function Sum(sizes: seq<nat>): nat {
    if sizes == [] then 0 else Sum(sizes[..|sizes| - 1]) + sizes[|sizes| - 1]
  }

  /** The offset that an account stands at. */
  function Offset(a: Account): nat { a.start + Sum(a.sizes) }

  /**
    The account of a key after a run: opened by the first block request, at the offset that it asks
    for, or by the first block of an answer, at 0; extended by the size that each answer names;
    closed by the purge of the key.
   */
  function AccountOf(ops: seq<Op>, k: Key): Option<Account> {
    if ops == [] then None
    else
      var front, op := ops[..|ops| - 1], ops[|ops| - 1];
      var before, t := AccountOf(front, k), RunAll(front);
      if op == Expired(k) then None
      else if Asks(op, k) && before.None? then
        Some(Account(op.x.request.block2.value.num * op.x.request.block2.value.size, []))
      else if Serves(t, op, k) then
        var a := if before.None? then Account(0, []) else before.value;
        Some(a.(sizes := a.sizes + [AnswerOf(t, op).block2.value.size]))
      else before
  }

  /** The table agrees with the account. */
  predicate Accounted(t: Tables, k: Key, a: Option<Account>) {
    && (k in t.received2 <==> a.Some?)
    && (a.Some? ==> t.received2[k].byte == Offset(a.value))
  }

  lemma SumSnoc(sizes: seq<nat>, size: nat)
    ensures Sum(sizes + [size]) == Sum(sizes) + size
  {
    assert (sizes + [size])[..|sizes|] == sizes;
  }

  lemma OtherCallsKeepItem(t: Tables, op: Op, k: Key)
    requires op != Expired(k) && !Asks(op, k) && !Serves(t, op, k)
    ensures Lookup(Apply(t, op).0.received2, k) == Lookup(t.received2, k)
  {
    if OpKey(op) != k {
      hide Apply;
      OtherKeysUntouched(t, op, k);
    } else {
      hide Cut, Serving, CutUpload, Join, Refusal, Error, Slice, MoreAfter;
    }
  }

  lemma AskingKeepsByte(t: Tables, op: Op, k: Key)
    requires Asks(op, k)
    ensures var b, t' := op.x.request.block2.value, Apply(t, op).0;
            && k in t'.received2 && t'.received2[k].num == b.num && t'.received2[k].size == b.size
            && t'.received2[k].byte == if k in t.received2 then t.received2[k].byte else b.num * b.size
  {
  }

  /** What a serving call sends and how it moves on. */
  lemma ServingMovesOn(t: Tables, op: Op, k: Key)
    requires Serves(t, op, k)
    ensures var item := Serving(t, k, op.x.response.value);
            var r, t' := AnswerOf(t, op), Apply(t, op).0;
            && k in t'.received2 && t'.received2[k].byte == item.byte + item.size
            && r.block2 == Some(Block(item.num, MoreAfter(item.num, item.size, |OctetsOf(item.payload)|), item.size))
            && r.payload == Some(Slice(OctetsOf(item.payload), item.byte, item.byte + item.size))
            && item.byte == if k in t.received2 then t.received2[k].byte else 0
  {
    hide Slice, MoreAfter;
  }

  /**
    In every run the offset of a key is the offset of its first block request, or 0, plus the sizes
    of all blocks served since: what a later request asks for does not move it.
   */
  lemma {:induction false} OffsetsAddUp(ops: seq<Op>, k: Key)
    ensures Accounted(RunAll(ops), k, AccountOf(ops, k))
  {
    hide Apply, Serves, Asks, AnswerOf;
    if ops != [] {
      var front, op := ops[..|ops| - 1], ops[|ops| - 1];
      var t := RunAll(front);
      OffsetsAddUp(front, k);
      if op == Expired(k) {
        PurgeEnds(t, k);
      } else if Asks(op, k) {
        AsksIsRequest(op, k);
        AskingKeepsByte(t, op, k);
        AskingDoesNotServe(t, op, k);
      } else if Serves(t, op, k) {
        ServingMovesOn(t, op, k);
        assert op.ResponseOut? && op.x.response.Some? by { ServesIsResponse(t, op, k); }
        var before := AccountOf(front, k);
        SumSnoc(if before.None? then [] else before.value.sizes, AnswerOf(t, op).block2.value.size);
      } else {
        OtherCallsKeepItem(t, op, k);
      }
    }
  }

  lemma PurgeEnds(t: Tables, k: Key)
    ensures k !in Apply(t, Expired(k)).0.received2
  {
  }

  lemma AsksIsRequest(op: Op, k: Key)
    requires Asks(op, k)
    ensures op.RequestIn? && op.x.request.block2.Some?
  {
  }

  lemma ServesIsResponse(t: Tables, op: Op, k: Key)
    requires Serves(t, op, k)
    ensures op.ResponseOut? && op.x.response.Some?
  {
  }

  lemma AskingDoesNotServe(t: Tables, op: Op, k: Key)
    requires Asks(op, k)
    ensures !Serves(t, op, k)
  {
  }

  /**
    Every outgoing response. Without a response nothing is sent, and a stored body raises. A response
    is sent as it is unless a body is stored for the key, a block was asked for, or its payload has
    more than 1024 octets. Otherwise it carries the block that is due, its number, whether more
    follow, and the length of the body if that was asked for or the body is long.
   */
  lemma ResponseIsPrepared(t: Tables, op: Op, k: Key)
    requires op.ResponseOut? && OpKey(op) == k
    ensures var x, (t', x', exit) := op.x, SendResponse(t, op.x);
            var held := k in t.received2 && t.received2[k].payload != Nothing;
            if x.response.None? then t' == t && x' == x && exit == (if held then Thrown else Returned)
            else
              var r := x.response.value;
              var fits := r.payload.None? || (k !in t.received2 && |r.payload.value| <= 1024);
              && exit == Returned
              && (!held && fits ==> t' == t && x' == x)
              && (held || !fits ==>
                    var body := if held then OctetsOf(t.received2[k].payload) else r.payload.value;
                    var (byte, num, size) := if k in t.received2
                      then (t.received2[k].byte, t.received2[k].num, t.received2[k].size) else (0, 0, 1024);
                    && x' == x.(response := Some(r.(
                         size2 := if x.request.size2 == Some(0) || |body| > 1024 then Some(|body|) else None,
                         payload := Some(Slice(body, byte, byte + size)),
                         block2 := Some(Block(num, num * size + size <= |body|, size)))))
                    && k in t'.received2 && t' == t.(received2 := t.received2[k := t'.received2[k]])
                    && t'.received2[k] == Item(byte + size, num + 1,
                         if k in t.received2 then t.received2[k].more else true, size,
                         if held then t.received2[k].payload else Octets(body),
                         if held then t.received2[k].contentType else Some(r.contentType)))
  {
    hide Slice;
  }

  /** A block request is noted and its option is taken off; it is a completing one if a body is stored. */
  lemma BlockRequestIsNoted(t: Tables, op: Op, k: Key)
    requires Asks(op, k)
    ensures var x, b := op.x, op.x.request.block2.value;
            var (t', x', exit) := ReceiveRequest(t, x);
            && exit == Returned && x'.request == x.request.(block2 := None)
            && x'.response == x.response && x'.blockTransfer == x.blockTransfer
            && (x'.completed <==>
                  x.completed
                  || (k in t.received2 && t.received2[k].payload.Octets? && t.received2[k].payload.octets != []))
            && t'.received2 == t.received2[k :=
                 if k in t.received2 then t.received2[k].(num := b.num, more := b.more, size := b.size)
                 else Item(b.num * b.size, b.num, b.more, b.size, Nothing, None)]
  {
  }

  // ---------------------------------------------------------------- answers

  /** The body that blocks are cut from: the stored one, or the response's own. */
  function BodyServed(t: Tables, k: Key, response: Msg): bytes {
    if Snapshot(t, k) then OctetsOf(t.received2[k].payload) else Text(response.payload)
  }

  lemma RunSnoc(ops: seq<Op>, op: Op)
    ensures RunAll(ops + [op]) == Apply(RunAll(ops), op).0
  {
    assert (ops + [op])[..|ops|] == ops;
  }

  lemma ServedBody(t: Tables, op: Op, k: Key)
    requires Serves(t, op, k)
    ensures OctetsOf(Serving(t, k, op.x.response.value).payload) == BodyServed(t, k, op.x.response.value)
  {
  }

  /**
    The answer to any block request of any run: it names the number and size that are asked for, and
    the M bit that belongs to them, but carries the stretch at the offset of the account.
   */
  lemma BlockRequestIsAnswered(ops: seq<Op>, k: Key, ask: Op, reply: Op)
    requires Asks(ask, k) && Serves(RunAll(ops + [ask]), reply, k)
    ensures var t, a, r := RunAll(ops + [ask]), AccountOf(ops + [ask], k), AnswerOf(RunAll(ops + [ask]), reply);
            var b, body := ask.x.request.block2.value, BodyServed(t, k, reply.x.response.value);
            && a.Some?
            && r.block2 == Some(Block(b.num, MoreAfter(b.num, b.size, |body|), b.size))
            && r.payload == Some(Slice(body, Offset(a.value), Offset(a.value) + b.size))
  {
    hide AnswerOf, AccountOf, RunAll, Apply, MoreAfter, Slice, BodyServed;
    var t := RunAll(ops + [ask]);
    RunSnoc(ops, ask);
    AskingKeepsByte(RunAll(ops), ask, k);
    OffsetsAddUp(ops + [ask], k);
    ServingMovesOn(t, reply, k);
    ServedBody(t, reply, k);
  }

  predicate SameStretch(body: bytes, one: nat, other: nat, size: nat) {
    Slice(body, one, one + size) == Slice(body, other, other + size)
  }

  /** A block cut at an offset is, for every body, the block of number j. */
  ghost predicate RightFor(offset: nat, j: nat, size: nat) {
    forall body: bytes :: SameStretch(body, offset, j * size, size)
  }

  lemma StretchesDiffer(first: nat, last: nat, size: nat)
    requires first < last && size > 0
    ensures exists body: bytes :: !SameStretch(body, first, last, size) && !SameStretch(body, last, first, size)
  {
    var body: bytes := seq(last + 1, i => if i == first then 1 else 0);
    assert Slice(body, last, last + size) == body[last..] == [0];
    assert Slice(body, first, first + size)[0] == body[first] == 1;
    assert !SameStretch(body, first, last, size) && !SameStretch(body, last, first, size);
  }

  /** It is if and only if it is cut at that block's own offset. */
  lemma RightInStep(offset: nat, j: nat, size: nat)
    requires size > 0
    ensures RightFor(offset, j, size) <==> offset == j * size
  {
    hide SameStretch;
    if offset < j * size {
      StretchesDiffer(offset, j * size, size);
    } else if offset > j * size {
      StretchesDiffer(j * size, offset, size);
    } else {
      SameOffset(offset, size);
    }
  }

  lemma SameOffset(offset: nat, size: nat)
    ensures forall body: bytes :: SameStretch(body, offset, offset, size)
  {
  }

  /** In step, the answer is the block that was asked for, of the body that is stored for the key. */
  lemma InStepIsRight(ops: seq<Op>, k: Key, ask: Op, reply: Op)
    requires Asks(ask, k) && Serves(RunAll(ops + [ask]), reply, k) && ask.x.request.block2.value.size > 0
    ensures var b, a := ask.x.request.block2.value, AccountOf(ops + [ask], k);
            var t := RunAll(ops + [ask]);
            && a.Some?
            && (RightFor(Offset(a.value), b.num, b.size) <==> Offset(a.value) == b.num * b.size)
            && (Offset(a.value) == b.num * b.size ==>
                  AnswerOf(t, reply).payload
                  == Some(Slice(BodyServed(t, k, reply.x.response.value), b.num * b.size, b.num * b.size + b.size)))
  {
    hide AnswerOf, AccountOf, RunAll, Slice, BodyServed, RightFor;
    BlockRequestIsAnswered(ops, k, ask, reply);
    var b, a := ask.x.request.block2.value, AccountOf(ops + [ask], k).value;
    RightInStep(Offset(a), b.num, b.size);
  }

  // --------------------------------------------------------- two failing runs

  /** A block request and its answer, while the body is stored. */
  lemma HandledOnce(t: Tables, k: Key, ask: Op, reply: Op)
    requires Asks(ask, k) && Snapshot(t, k) && reply.ResponseOut? && OpKey(reply) == k && reply.x.response.Some?
    ensures var b, body, byte := ask.x.request.block2.value, OctetsOf(t.received2[k].payload), t.received2[k].byte;
            var t' := Apply(t, ask).0;
            var t'', r := Apply(t', reply).0, AnswerOf(t', reply);
            && Snapshot(t'', k) && OctetsOf(t''.received2[k].payload) == body && t''.received2[k].byte == byte + b.size
            && r.block2 == Some(Block(b.num, MoreAfter(b.num, b.size, |body|), b.size))
            && r.payload == Some(Slice(body, byte, byte + b.size))
  {
    hide Slice, MoreAfter;
  }

  /** The first block of a plain request's answer. */
  lemma PlainAnswer(k: Key, reply: Op, body: bytes)
    requires reply.ResponseOut? && OpKey(reply) == k && reply.x.response.Some?
    requires reply.x.response.value.payload == Some(body) && |body| > MAX_PAYLOAD
    ensures var t := Apply(EmptyTables, reply).0;
            Snapshot(t, k) && OctetsOf(t.received2[k].payload) == body && t.received2[k].byte == MAX_PAYLOAD
  {
    hide Cut;
  }

  /** After the first block of 5000 octets, block 0 asked for again, or block 2, is answered with block 1. */
  lemma OtherBlockIsSent(k: Key, first: Op, ask: Op, reply: Op, body: bytes)
    requires first.ResponseOut? && OpKey(first) == k && first.x.response.Some?
    requires first.x.response.value.payload == Some(body) && |body| == 5000
    requires Asks(ask, k) && ask.x.request.block2 in {Some(Block(0, false, 1024)), Some(Block(2, false, 1024))}
    requires reply.ResponseOut? && OpKey(reply) == k && reply.x.response.Some?
    ensures var r := AnswerOf(RunAll([first, ask]), reply);
            r.block2 == Some(Block(ask.x.request.block2.value.num, true, 1024)) && r.payload == Some(body[1024..2048])
  {
    hide Apply, AnswerOf, Snapshot;
    assert RunAll([first, ask]) == Apply(Apply(EmptyTables, first).0, ask).0 by {
      RunSnoc([], first);
      RunSnoc([first], ask);
      assert [] + [first] == [first] && [first] + [ask] == [first, ask];
    }
    PlainAnswer(k, first, body);
    HandledOnce(Apply(EmptyTables, first).0, k, ask, reply);
  }

  /** A block-1 request of 3500 octets that is handled twice: block 2 is then answered with the rest behind it. */
  lemma RepeatedRequestShifts(k: Key, first: Op, one: Op, two: Op, reply: Op, body: bytes)
    requires first.ResponseOut? && OpKey(first) == k && first.x.response.Some?
    requires first.x.response.value.payload == Some(body) && |body| == 3500
    requires Asks(one, k) && one.x.request.block2 == Some(Block(1, false, 1024))
    requires Asks(two, k) && two.x.request.block2 == Some(Block(2, false, 1024))
    requires reply.ResponseOut? && OpKey(reply) == k && reply.x.response.Some?
    ensures var r := AnswerOf(RunAll([first, one, reply, one, reply, two]), reply);
            r.block2 == Some(Block(2, true, 1024)) && r.payload == Some(body[3072..])
  {
    hide Apply, AnswerOf, Snapshot;
    var t := Apply(EmptyTables, first).0;
    var u := Apply(Apply(t, one).0, reply).0;
    var v := Apply(Apply(u, one).0, reply).0;
    RunSnoc([], first);
    RunSnoc([first], one);
    RunSnoc([first, one], reply);
    RunSnoc([first, one, reply], one);
    RunSnoc([first, one, reply, one], reply);
    RunSnoc([first, one, reply, one, reply], two);
    assert [] + [first] == [first] && [first] + [one] == [first, one] && [first, one] + [reply] == [first, one, reply];
    assert [first, one, reply] + [one] == [first, one, reply, one];
    assert [first, one, reply, one] + [reply] == [first, one, reply, one, reply];
    assert [first, one, reply, one, reply] + [two] == [first, one, reply, one, reply, two];
    PlainAnswer(k, first, body);
    HandledOnce(t, k, one, reply);
    HandledOnce(u, k, one, reply);
    HandledOnce(v, k, two, reply);
  }
}
