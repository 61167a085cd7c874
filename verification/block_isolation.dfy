/** Runs of the block layer: transfers do not interfere, and uploads are assembled exactly. */
module BlockIsolation {

  import opened Wrappers
  import opened Bytes
  import opened BlockOption
  import opened Messages
  import opened BlockTables

  /** One call of a block layer method. */
  datatype Op =
    | RequestIn(x: Exchange)
    | ResponseIn(x: Exchange, response: Msg)
    | ResponseOut(x: Exchange)
    | RequestOut(request: Msg)
    | Expired(key: Key)

  /** What the caller sees of a call. */
  datatype Output = Edited(x: Exchange, exit: Exit) | Prepared(request: Msg, exit: Exit) | Silent

  function OpKey(op: Op): Key {
    match op
    case RequestIn(x) => KeyOf(x.request.source, x.request.token)
    case ResponseIn(_, r) => KeyOf(r.source, r.token)
    case ResponseOut(x) => KeyOf(x.request.source, x.request.token)
    case RequestOut(m) => KeyOf(m.destination, m.token)
    case Expired(key) => key
  }

  function Apply(t: Tables, op: Op): (Tables, Output) {
    match op
    case RequestIn(x) =>
      var (t', x', exit) := ReceiveRequest(t, x);
      (t', Edited(x', exit))
    case ResponseIn(x, r) =>
      var (t', x', exit) := ReceiveResponse(t, x.(response := Some(r)));
      (t', Edited(x', exit))
    case ResponseOut(x) =>
      var (t', x', exit) := SendResponse(t, x);
      (t', Edited(x', exit))
    case RequestOut(m) =>
      var (t', m', exit) := SendRequest(t, m);
      (t', Prepared(m', exit))
    case Expired(key) => (Purge(t, key), Silent)
  }

  function Run(t: Tables, ops: seq<Op>): Tables
    decreases |ops|
  {
    if ops == [] then t else Run(Apply(t, ops[0]).0, ops[1..])
  }

  // --------------------------------------------------------- non-interference

  function Lookup(m: map<Key, Item>, k: Key): Option<Item> {
    if k in m then Some(m[k]) else None
  }

  /** All that the tables hold for one key. */
  datatype Slot = Slot(sent1: Option<Item>, sent2: Option<Item>, received1: Option<Item>, received2: Option<Item>)

  function SlotOf(t: Tables, k: Key): Slot {
    Slot(Lookup(t.sent1, k), Lookup(t.sent2, k), Lookup(t.received1, k), Lookup(t.received2, k))
  }

  function Only(ops: seq<Op>, k: Key): seq<Op> {
    if ops == [] then []
    else if OpKey(ops[0]) == k then [ops[0]] + Only(ops[1..], k)
    else Only(ops[1..], k)
  }

  /** The outputs of the calls for one key, in order. */
  function OutputsFor(t: Tables, ops: seq<Op>, k: Key): seq<Output>
    decreases |ops|
  {
    if ops == [] then []
    else
      var (t', out) := Apply(t, ops[0]);
      (if OpKey(ops[0]) == k then [out] else []) + OutputsFor(t', ops[1..], k)
  }

  lemma OtherKeysUntouched(t: Tables, op: Op, k: Key)
    requires OpKey(op) != k
    ensures SlotOf(Apply(t, op).0, k) == SlotOf(t, k)
  {
    hide ReceiveRequest, ReceiveResponse, SendResponse, SendRequest, SlotOf;
    match op
    case RequestIn(x) => RequestTouchesOnly(t, x, k);
    case ResponseIn(x, r) => ResponseTouchesOnly(t, x.(response := Some(r)), r, k);
    case ResponseOut(x) => AnswerTouchesOnly(t, x, k);
    case RequestOut(m) => OutgoingTouchesOnly(t, m, k);
    case Expired(_) => PurgeTouchesOnly(t, OpKey(op), k);
  }

  lemma RequestTouchesOnly(t: Tables, x: Exchange, k: Key)
    requires KeyOf(x.request.source, x.request.token) != k
    ensures SlotOf(ReceiveRequest(t, x).0, k) == SlotOf(t, k)
  {
    hide Reply;
  }

  lemma ResponseTouchesOnly(t: Tables, x: Exchange, r: Msg, k: Key)
    requires x.response == Some(r) && KeyOf(r.source, r.token) != k
    ensures SlotOf(ReceiveResponse(t, x).0, k) == SlotOf(t, k)
  {
    hide Slice, Error;
  }

  lemma AnswerTouchesOnly(t: Tables, x: Exchange, k: Key)
    requires KeyOf(x.request.source, x.request.token) != k
    ensures SlotOf(SendResponse(t, x).0, k) == SlotOf(t, k)
  {
    hide Slice, MoreAfter, Serving;
  }

  lemma OutgoingTouchesOnly(t: Tables, m: Msg, k: Key)
    requires KeyOf(m.destination, m.token) != k
    ensures SlotOf(SendRequest(t, m).0, k) == SlotOf(t, k)
  {
    hide Slice, MoreAfter;
  }

  lemma PurgeTouchesOnly(t: Tables, key: Key, k: Key)
    requires key != k
    ensures SlotOf(Purge(t, key), k) == SlotOf(t, k)
  {
  }

  /** Writing or removing the same item keeps two slots the same. */
  lemma SameWrite(t: Tables, t': Tables, k: Key, item: Item)
    requires SlotOf(t, k) == SlotOf(t', k)
    ensures SlotOf(t.(sent1 := t.sent1[k := item]), k) == SlotOf(t'.(sent1 := t'.sent1[k := item]), k)
    ensures SlotOf(t.(sent2 := t.sent2[k := item]), k) == SlotOf(t'.(sent2 := t'.sent2[k := item]), k)
    ensures SlotOf(t.(received1 := t.received1[k := item]), k) == SlotOf(t'.(received1 := t'.received1[k := item]), k)
    ensures SlotOf(t.(received1 := t.received1 - {k}), k) == SlotOf(t'.(received1 := t'.received1 - {k}), k)
  {
  }

  lemma SameSequence(t: Tables, t': Tables, k: Key, b: Block, contentType: nat, payload: Option<bytes>)
    requires SlotOf(t, k) == SlotOf(t', k)
    ensures InSequence(t, k, b, contentType) == InSequence(t', k, b, contentType)
    ensures Gathered(t, k, payload) == Gathered(t', k, payload)
    ensures k in t.received1 <==> k in t'.received1
    ensures k in t.received1 ==> t.received1[k] == t'.received1[k]
  {
    hide Join;
  }

  lemma LocalBlock1Request(t: Tables, t': Tables, k: Key, b: Block, x: Exchange)
    requires SlotOf(t, k) == SlotOf(t', k)
    ensures var (u, y, e) := ReceiveBlock1Request(t, k, b, x);
            var (u', y', e') := ReceiveBlock1Request(t', k, b, x);
            y == y' && e == e' && SlotOf(u, k) == SlotOf(u', k)
  {
    hide SlotOf, Reply, InSequence, Gathered, Incomplete;
    SameSequence(t, t', k, b, x.request.contentType, x.request.payload);
    var u := ReceiveBlock1Request(t, k, b, x).0;
    if k in u.received1 {
      SameWrite(t, t', k, u.received1[k]);
    } else {
      SameWrite(t, t', k, Item(0, 0, false, 0, Nothing, None));
    }
  }

  lemma LocalBlock2Request(t: Tables, t': Tables, k: Key, b: Block, x: Exchange)
    requires SlotOf(t, k) == SlotOf(t', k)
    ensures var (u, y) := ReceiveBlock2Request(t, k, b, x);
            var (u', y') := ReceiveBlock2Request(t', k, b, x);
            y == y' && SlotOf(u, k) == SlotOf(u', k)
  {
  }

  lemma LocalBlock1Response(t: Tables, t': Tables, k: Key, b: Block, x: Exchange)
    requires SlotOf(t, k) == SlotOf(t', k) && k in t.sent1
    ensures k in t'.sent1
    ensures var (u, y, e) := ReceiveBlock1Response(t, k, b, x);
            var (u', y', e') := ReceiveBlock1Response(t', k, b, x);
            y == y' && e == e' && SlotOf(u, k) == SlotOf(u', k)
  {
    hide CutUpload;
  }

  lemma LocalBlock2Response(t: Tables, t': Tables, k: Key, b: Block, x: Exchange, r: Msg)
    requires SlotOf(t, k) == SlotOf(t', k)
    ensures var (u, y, e) := ReceiveBlock(t, k, b, x, r);
            var (u', y', e') := ReceiveBlock(t', k, b, x, r);
            y == y' && e == e' && SlotOf(u, k) == SlotOf(u', k)
  {
    hide Join, Error, Refusal, Hold;
    assert k in t.sent2 <==> k in t'.sent2;
    assert k in t.sent2 ==> t.sent2[k] == t'.sent2[k];
  }

  lemma LocalLastBlock(t: Tables, t': Tables, k: Key, x: Exchange, r: Msg)
    requires SlotOf(t, k) == SlotOf(t', k)
    ensures var (u, y, e) := ReceiveLastBlock(t, k, x, r);
            var (u', y', e') := ReceiveLastBlock(t', k, x, r);
            y == y' && e == e' && SlotOf(u, k) == SlotOf(u', k)
  {
    hide Join, Error;
  }

  lemma LocalSendResponse(t: Tables, t': Tables, x: Exchange)
    requires var k := KeyOf(x.request.source, x.request.token); SlotOf(t, k) == SlotOf(t', k)
    ensures var k := KeyOf(x.request.source, x.request.token);
            var (u, y, e) := SendResponse(t, x);
            var (u', y', e') := SendResponse(t', x);
            y == y' && e == e' && SlotOf(u, k) == SlotOf(u', k)
  {
    hide Cut;
    var k := KeyOf(x.request.source, x.request.token);
    assert k in t.received2 <==> k in t'.received2;
    assert k in t.received2 ==> t.received2[k] == t'.received2[k];
  }

  lemma LocalReceiveRequest(t: Tables, t': Tables, x: Exchange)
    requires var k := KeyOf(x.request.source, x.request.token); SlotOf(t, k) == SlotOf(t', k)
    ensures var k := KeyOf(x.request.source, x.request.token);
            var (u, y, e) := ReceiveRequest(t, x);
            var (u', y', e') := ReceiveRequest(t', x);
            y == y' && e == e' && SlotOf(u, k) == SlotOf(u', k)
  {
    hide SlotOf, ReceiveBlock1Request, ReceiveBlock2Request;
    var k := KeyOf(x.request.source, x.request.token);
    if x.request.block2.Some? {
      LocalBlock2Request(t, t', k, x.request.block2.value, x);
    } else if x.request.block1.Some? {
      LocalBlock1Request(t, t', k, x.request.block1.value, x);
    }
  }

  lemma LocalReceiveResponse(t: Tables, t': Tables, x: Exchange, r: Msg)
    requires x.response == Some(r)
    requires var k := KeyOf(r.source, r.token); SlotOf(t, k) == SlotOf(t', k)
    ensures var k := KeyOf(r.source, r.token);
            var (u, y, ok) := ReceiveResponse(t, x);
            var (u', y', ok') := ReceiveResponse(t', x);
            y == y' && ok == ok' && SlotOf(u, k) == SlotOf(u', k)
  {
    hide ReceiveBlock1Response, ReceiveBlock, ReceiveLastBlock;
    var k := KeyOf(r.source, r.token);
    assert k in t.sent1 <==> k in t'.sent1;
    if k in t.sent1 && r.block1.Some? {
      LocalBlock1Response(t, t', k, r.block1.value, x);
    } else if r.block2.Some? {
      LocalBlock2Response(t, t', k, r.block2.value, x, r);
      LocalLastBlock(t, t', k, x, r);
    }
  }

  lemma LocalSendRequest(t: Tables, t': Tables, m: Msg)
    requires var k := KeyOf(m.destination, m.token); SlotOf(t, k) == SlotOf(t', k)
    ensures var k := KeyOf(m.destination, m.token);
            var (u, y, e) := SendRequest(t, m);
            var (u', y', e') := SendRequest(t', m);
            y == y' && e == e' && SlotOf(u, k) == SlotOf(u', k)
  {
    hide SlotOf, Slice, MoreAfter, LargePayload;
    var k, u := KeyOf(m.destination, m.token), SendRequest(t, m).0;
    if k in u.sent1 {
      SameWrite(t, t', k, u.sent1[k]);
    }
    if k in u.sent2 {
      SameWrite(t, t', k, u.sent2[k]);
    }
  }

  lemma LocalPurge(t: Tables, t': Tables, k: Key)
    requires SlotOf(t, k) == SlotOf(t', k)
    ensures SlotOf(Purge(t, k), k) == SlotOf(Purge(t', k), k)
  {
  }

  /** A call depends on the tables only through its own key's slot. */
  lemma CallsAreLocal(t: Tables, t': Tables, op: Op)
    requires SlotOf(t, OpKey(op)) == SlotOf(t', OpKey(op))
    ensures Apply(t, op).1 == Apply(t', op).1
    ensures SlotOf(Apply(t, op).0, OpKey(op)) == SlotOf(Apply(t', op).0, OpKey(op))
  {
    hide ReceiveRequest, ReceiveResponse, SendResponse, SendRequest, Purge, SlotOf;
    match op
    case RequestIn(x) => LocalReceiveRequest(t, t', x);
    case ResponseIn(x, r) => LocalReceiveResponse(t, t', x.(response := Some(r)), r);
    case ResponseOut(x) => LocalSendResponse(t, t', x);
    case RequestOut(m) => LocalSendRequest(t, t', m);
    case Expired(key) => LocalPurge(t, t', key);
  }

  lemma {:induction false} SameSlotSameRun(t: Tables, t': Tables, ops: seq<Op>, k: Key)
    requires SlotOf(t, k) == SlotOf(t', k)
    ensures SlotOf(Run(t, ops), k) == SlotOf(Run(t', Only(ops, k)), k)
    ensures OutputsFor(t, ops, k) == OutputsFor(t', Only(ops, k), k)
    decreases |ops|
  {
    hide Apply, SlotOf;
    if ops != [] {
      var op := ops[0];
      if OpKey(op) == k {
        CallsAreLocal(t, t', op);
        SameSlotSameRun(Apply(t, op).0, Apply(t', op).0, ops[1..], k);
        assert Only(ops, k)[0] == op && Only(ops, k)[1..] == Only(ops[1..], k);
      } else {
        OtherKeysUntouched(t, op, k);
        SameSlotSameRun(Apply(t, op).0, t', ops[1..], k);
      }
    }
  }

  /**
    Whatever other transfers are interleaved with them, the calls for one key return the same
    and leave the same entries as when they run alone.
   */
  lemma NonInterference(t: Tables, ops: seq<Op>, k: Key)
    ensures SlotOf(Run(t, ops), k) == SlotOf(Run(t, Only(ops, k)), k)
    ensures OutputsFor(t, ops, k) == OutputsFor(t, Only(ops, k), k)
  {
    SameSlotSameRun(t, t, ops, k);
  }

  // ------------------------------------------------------------ the snapshot

  /** No call changes the body that a key's response blocks are cut from; only its removal does. */
  lemma SnapshotIsStable(t: Tables, op: Op, k: Key)
    requires Snapshot(t, k)
    ensures var t' := Apply(t, op).0;
            if k in t'.received2 then t'.received2[k].payload == t.received2[k].payload else op == Expired(k)
  {
    hide Reply, Slice, MoreAfter;
    if OpKey(op) != k {
      hide Apply;
      OtherKeysUntouched(t, op, k);
    }
  }

  // -------------------------------------------------------- uploads, server side

  datatype Outcome = Delivered | Continued | Rejected | Broken

  predicate IsUpload(op: Op, k: Key) {
    op.RequestIn? && op.x.request.block2.None? && op.x.request.block1.Some? && OpKey(op) == k
  }

  function OutcomeOf(t: Tables, op: Op): Outcome
    requires op.RequestIn?
  {
    var (_, x, exit) := ReceiveRequest(t, op.x);
    if exit == Thrown then Broken
    else if !x.blockTransfer then Delivered
    else if x.response.Some? && x.response.value.code == Some(CONTINUE) then Continued
    else Rejected
  }

  /** The block requests of a key accepted since its last delivery. */
  function Pending(ops: seq<Op>, k: Key): seq<Msg> {
    if ops == [] then []
    else
      var before, op := Pending(ops[..|ops| - 1], k), ops[|ops| - 1];
      if !IsUpload(op, k) then before
      else
        match OutcomeOf(RunAll(ops[..|ops| - 1]), op)
        case Delivered => []
        case Continued => before + [op.x.request]
        case Rejected => before
        case Broken => before
  }

  /** The tables after a run from the start of the server. */
  function RunAll(ops: seq<Op>): Tables {
    if ops == [] then EmptyTables else Apply(RunAll(ops[..|ops| - 1]), ops[|ops| - 1]).0
  }

  /** The payloads of requests one after the other; None if one of the requests has none. */
  function Concatenation(ms: seq<Msg>): Option<bytes> {
    if ms == [] then Some([])
    else
      var front, last := Concatenation(ms[..|ms| - 1]), ms[|ms| - 1].payload;
      if front.None? || last.None? then None else Some(front.value + last.value)
  }

  predicate Assembled(t: Tables, k: Key, pending: seq<Msg>) {
    && (k in t.received1 <==> pending != [])
    && (forall i :: 0 <= i < |pending| ==>
          && pending[i].block1.Some? && pending[i].block1.value.num == i && pending[i].block1.value.more
          && pending[i].contentType == pending[0].contentType)
    && (Concatenation(pending).None? ==> |pending| == 1)
    && (pending != [] ==>
          && t.received1[k].num == |pending|
          && t.received1[k].payload == Hold(Concatenation(pending))
          && t.received1[k].contentType == Some(pending[0].contentType))
  }

  /** The request is the next one of an upload: the next number, and the first one's content type. */
  predicate Continues(pending: seq<Msg>, m: Msg)
    requires m.block1.Some?
  {
    m.block1.value.num == |pending| && (pending != [] ==> m.contentType == pending[0].contentType)
  }

  /** There is something stored to join with, and something to join it with. */
  predicate Joins(pending: seq<Msg>, m: Msg) {
    pending == [] || Concatenation(pending + [m]).Some?
  }

  lemma ConcatenationSnoc(pending: seq<Msg>, m: Msg)
    ensures Concatenation(pending + [m]) == Join(Hold(Concatenation(pending)), m.payload)
    ensures Concatenation([m]) == m.payload
  {
    assert (pending + [m])[..|pending|] == pending;
    assert [m][..0] == [] && Concatenation([]) == Some([]);
    assert m.payload.Some? ==> [] + m.payload.value == m.payload.value;
  }

  lemma UploadStep(t: Tables, k: Key, pending: seq<Msg>, op: Op)
    requires Assembled(t, k, pending) && IsUpload(op, k)
    ensures var m := op.x.request;
            var (t', x', exit) := ReceiveRequest(t, op.x);
            match OutcomeOf(t, op)
            case Rejected =>
              && !Continues(pending, m) && t' == t
              && x' == op.x.(blockTransfer := true,
                             response := Some(Reply(m).(code := Some(REQUEST_ENTITY_INCOMPLETE))))
            case Broken =>
              && Continues(pending, m) && !Joins(pending, m)
              && exit == Thrown && t' == t && x' == op.x
            case Continued =>
              && Continues(pending, m) && Joins(pending, m) && m.block1.value.more
              && Assembled(t', k, pending + [m]) && x'.response.value.block1 == m.block1
            case Delivered =>
              && Continues(pending, m) && Joins(pending, m) && !m.block1.value.more
              && Assembled(t', k, []) && x'.request.payload == Concatenation(pending + [m])
  {
    hide Concatenation, Reply;
    var m := op.x.request;
    EmptyConcatenation();
    ConcatenationSnoc(pending, m);
    ConcatenationSnoc([], m);
    if pending == [] {
      assert pending + [m] == [m];
    }
  }

  lemma OtherOpsKeepUploads(t: Tables, k: Key, op: Op)
    requires !IsUpload(op, k)
    ensures var t' := Apply(t, op).0;
            Lookup(t'.received1, k) == Lookup(t.received1, k)
  {
    if OpKey(op) != k {
      hide Apply;
      OtherKeysUntouched(t, op, k);
    }
  }

  /**
    Against any client and among any other traffic: what the server stores for a key is the
    concatenation of exactly the blocks accepted since the last delivery, numbered 0, 1, 2, ...;
    a request without a payload is among them only as the first and only one.
   */
  lemma {:induction false} UploadsAreAssembled(ops: seq<Op>, k: Key)
    ensures Assembled(RunAll(ops), k, Pending(ops, k))
  {
    hide Apply, OutcomeOf, IsUpload, Concatenation;
    if ops == [] {
      NothingPending(k);
    } else {
      var front, op := ops[..|ops| - 1], ops[|ops| - 1];
      UploadsAreAssembled(front, k);
      if IsUpload(op, k) {
        UploadStep(RunAll(front), k, Pending(front, k), op);
        ApplyRequestIn(RunAll(front), k, op);
      } else {
        OtherOpsKeepUploads(RunAll(front), k, op);
      }
    }
  }

  lemma NothingPending(k: Key)
    ensures Assembled(EmptyTables, k, [])
  {
  }

  lemma ApplyRequestIn(t: Tables, k: Key, op: Op)
    requires IsUpload(op, k)
    ensures Apply(t, op).0 == ReceiveRequest(t, op.x).0
  {
  }

  /**
    The next block request of any run is rejected exactly when it does not continue the upload, and
    breaks off with an exception exactly when it does but the payloads cannot be joined. A rejected
    one is answered 4.08; neither changes a table; the last accepted one delivers the concatenation.
   */
  lemma NextBlockRequest(ops: seq<Op>, k: Key, op: Op)
    requires IsUpload(op, k)
    ensures var pending, m, t := Pending(ops, k), op.x.request, RunAll(ops);
            var (t', x', exit) := ReceiveRequest(t, op.x);
            && (OutcomeOf(t, op) == Rejected <==> !Continues(pending, m))
            && (OutcomeOf(t, op) == Broken <==> Continues(pending, m) && !Joins(pending, m))
            && (!Continues(pending, m) ==>
                  t' == t && x'.response == Some(Reply(m).(code := Some(REQUEST_ENTITY_INCOMPLETE))))
            && (Continues(pending, m) && !Joins(pending, m) ==> t' == t && x' == op.x)
            && (Continues(pending, m) && Joins(pending, m) && !m.block1.value.more ==>
                  && x'.request.payload == Concatenation(pending + [m])
                  && !x'.blockTransfer && k !in t'.received1)
  {
    hide OutcomeOf, Concatenation, ReceiveRequest, Continues, Joins, RunAll, Pending;
    UploadsAreAssembled(ops, k);
    UploadStep(RunAll(ops), k, Pending(ops, k), op);
    OutcomeBlockTransfer(RunAll(ops), op);
  }

  lemma OutcomeBlockTransfer(t: Tables, op: Op)
    requires op.RequestIn?
    ensures var (_, x, exit) := ReceiveRequest(t, op.x);
            OutcomeOf(t, op) == Delivered <==> exit != Thrown && !x.blockTransfer
  {
  }

  /** An upload whose first block has no payload can neither go on nor be given up. */
  lemma {:induction false} StuckKey(ops: seq<Op>, k: Key, more: seq<Op>)
    requires Concatenation(Pending(ops, k)).None?
    ensures Pending(ops + more, k) == Pending(ops, k)
    decreases |more|
  {
    hide OutcomeOf, Concatenation, RunAll, IsUpload, ReceiveRequest;
    if more == [] {
      assert ops + more == ops;
    } else {
      var front, op := more[..|more| - 1], more[|more| - 1];
      StuckKey(ops, k, front);
      assert (ops + more)[..|ops + more| - 1] == ops + front;
      if IsUpload(op, k) {
        StuckKeyAcceptsNothing(ops + front, k, op);
      }
    }
  }

  lemma StuckKeyAcceptsNothing(ops: seq<Op>, k: Key, op: Op)
    requires Concatenation(Pending(ops, k)).None? && IsUpload(op, k)
    ensures OutcomeOf(RunAll(ops), op) == Rejected || OutcomeOf(RunAll(ops), op) == Broken
  {
    hide OutcomeOf, Concatenation, RunAll, ReceiveRequest;
    UploadsAreAssembled(ops, k);
    NextBlockRequest(ops, k, op);
    ConcatenationSnoc(Pending(ops, k), op.x.request);
    EmptyConcatenation();
  }

  lemma EmptyConcatenation()
    ensures Concatenation([]) == Some([])
  {
  }

  /**
    A first block without a payload, which any client can send, blocks its key for good: whatever
    follows, purges included, no block request of the key is accepted or delivered any more.
   */
  lemma PayloadlessUploadBlocksItsKey(ops: seq<Op>, k: Key, first: Op, more: seq<Op>, op: Op)
    requires Pending(ops, k) == [] && IsUpload(first, k) && IsUpload(op, k)
    requires var m := first.x.request; m.block1.value.num == 0 && m.block1.value.more && m.payload.None?
    ensures var run := ops + [first] + more;
            && Pending(run, k) == [first.x.request]
            && (OutcomeOf(RunAll(run), op) == Rejected || OutcomeOf(RunAll(run), op) == Broken)
  {
    hide OutcomeOf, Concatenation, RunAll, ReceiveRequest;
    var m, begun := first.x.request, ops + [first];
    assert begun[..|ops|] == ops;
    UploadsAreAssembled(ops, k);
    UploadStep(RunAll(ops), k, [], first);
    assert [] + [m] == [m];
    ConcatenationSnoc([], m);
    StuckKey(begun, k, more);
    StuckKeyAcceptsNothing(begun + more, k, op);
  }
}
