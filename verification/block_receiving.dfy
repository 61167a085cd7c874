/** Runs of the block layer, client side of Block2: what is put together from the responses. */
module BlockReceiving {

  import opened Wrappers
  import opened Bytes
  import opened BlockOption
  import opened Messages
  import opened BlockTables
  import opened BlockIsolation

  /** A response with Block2 that is not taken for the answer to a block of an upload. */
  predicate Brings(t: Tables, op: Op, k: Key) {
    op.ResponseIn? && OpKey(op) == k && op.response.block2.Some? && !(k in t.sent1 && op.response.block1.Some?)
  }

  predicate BringsMore(t: Tables, op: Op, k: Key) {
    Brings(t, op, k) && op.response.block2.value.more
  }

  predicate BringsLast(t: Tables, op: Op, k: Key) {
    Brings(t, op, k) && !op.response.block2.value.more
  }

  /** A request that opens a download at a block of its choice. */
  predicate Opens(op: Op, k: Key) {
    && op.RequestOut? && OpKey(op) == k && op.request.block1.None? && op.request.block2.Some?
    && (op.request.payload.None? || |op.request.payload.value| <= 1024)
  }

  /** What a download started with, the number it expected first, and the response blocks taken since. */
  datatype Fetch = Fetch(start: Held, first: nat, contentType: Option<nat>, taken: seq<Msg>)

  /** The start value joined with the payloads, as far as they can be joined. */
  function Assembly(start: Held, taken: seq<Msg>): Held {
    if taken == [] then start
    else
      var front, last := Assembly(start, taken[..|taken| - 1]), taken[|taken| - 1].payload;
      if front.Octets? && last.Some? then Octets(front.octets + last.value) else front
  }

  function Expected(f: Fetch): nat { f.first + |f.taken| }

  function KnownType(f: Fetch): Option<nat> {
    if f.taken == [] then f.contentType else Some(f.taken[0].contentType)
  }

  /** The block is the next one: the number that is expected, and no other content type. */
  predicate Follows(f: Fetch, r: Msg)
    requires r.block2.Some?
  {
    r.block2.value.num == Expected(f) && (KnownType(f) == None || KnownType(f) == Some(r.contentType))
  }

  /**
    The download of a key after a run: opened by a request for a block or by the first block of a
    response, extended by every block that follows, closed by a last block that is joined.
   */
  function FetchOf(ops: seq<Op>, k: Key): Option<Fetch> {
    if ops == [] then None
    else
      var front, op := ops[..|ops| - 1], ops[|ops| - 1];
      var before, t := FetchOf(front, k), RunAll(front);
      if Opens(op, k) then Some(Fetch(EmptyText, op.request.block2.value.num, None, []))
      else if BringsMore(t, op, k) then
        var r := op.response;
        if before.None? then
          var start := if r.payload.None? then Nothing else Octets(r.payload.value);
          Some(Fetch(start, r.block2.value.num + 1, Some(r.contentType), []))
        else if Follows(before.value, r) then Some(before.value.(taken := before.value.taken + [r]))
        else before
      else if BringsLast(t, op, k) && before.Some? && Ends(before.value, op.response) then None
      else before
  }

  /** A last block of any number is joined if it has the known content type and there are octets on both sides. */
  predicate Ends(f: Fetch, r: Msg) {
    KnownType(f) == Some(r.contentType) && Assembly(f.start, f.taken).Octets? && r.payload.Some?
  }

  /** The table holds the start value joined with exactly the taken blocks, in consecutive numbers and of one type. */
  predicate Fetched(t: Tables, k: Key, f: Option<Fetch>) {
    && (k in t.sent2 <==> f.Some?)
    && (f.Some? ==>
          && t.sent2[k].num == Expected(f.value)
          && t.sent2[k].payload == Assembly(f.value.start, f.value.taken)
          && t.sent2[k].contentType == KnownType(f.value)
          && (forall i :: 0 <= i < |f.value.taken| ==>
                var r := f.value.taken[i];
                && r.block2.Some? && r.block2.value.more && r.block2.value.num == f.value.first + i
                && r.contentType == f.value.taken[0].contentType)
          && (f.value.contentType.Some? && f.value.taken != [] ==>
                Some(f.value.taken[0].contentType) == f.value.contentType))
  }

  lemma AssemblySnoc(start: Held, taken: seq<Msg>, r: Msg)
    ensures Assembly(start, taken + [r]) ==
            var front := Assembly(start, taken);
            if front.Octets? && r.payload.Some? then Octets(front.octets + r.payload.value) else front
  {
    assert (taken + [r])[..|taken|] == taken;
  }

  /**
    A block with M set in any state that agrees with a download. One that does not follow is refused
    with a reset, 4.08 or 4.15, and nothing else changes; one that follows is stored, and the next
    one is asked for if it could be joined.
   */
  lemma BlockArrives(t: Tables, op: Op, k: Key, f: Fetch)
    requires Fetched(t, k, Some(f)) && BringsMore(t, op, k)
    ensures var r, x := op.response, op.x.(response := Some(op.response));
            var (t', x', exit) := ReceiveResponse(t, x);
            if !Follows(f, r) then
              && t' == t && exit == Returned && x'.request == x.request && x'.blockTransfer
              && x'.response == Some(Msg(x.request.destination, x.request.source, x.request.token, None, Some(RST),
                   Some(if r.block2.value.num != Expected(f) then 136 else 143),
                   None, None, None, None, 0, None, []))
            else
              && Fetched(t', k, Some(f.(taken := f.taken + [r]))) && x'.response == Some(r) && x'.blockTransfer
              && (if Assembly(f.start, f.taken).Octets? && r.payload.Some? then
                    && exit == Returned
                    && x'.request == x.request.(mid := None,
                         block2 := Some(Block(r.block2.value.num + 1, false, r.block2.value.size)))
                  else exit == Thrown && x'.request == x.request)
  {
    hide Assembly;
    AssemblySnoc(f.start, f.taken, op.response);
  }

  /** The first block of a response, with M set, opens a download and asks for the next one. */
  lemma FirstBlockArrives(t: Tables, op: Op, k: Key)
    requires k !in t.sent2 && BringsMore(t, op, k)
    ensures var r, x := op.response, op.x.(response := Some(op.response));
            var (t', x', exit) := ReceiveResponse(t, x);
            var start := if r.payload.None? then Nothing else Octets(r.payload.value);
            && Fetched(t', k, Some(Fetch(start, r.block2.value.num + 1, Some(r.contentType), [])))
            && exit == Returned && x'.blockTransfer && x'.response == Some(r)
            && x'.request == x.request.(mid := None,
                 block2 := Some(Block(r.block2.value.num + 1, false, r.block2.value.size)))
  {
  }

  /**
    A block with M clear: refused with a reset and 4.15 for another content type, an exception if it
    cannot be joined, and otherwise the whole payload for the caller. Its number is not looked at.
   */
  lemma LastBlockArrives(t: Tables, op: Op, k: Key, f: Option<Fetch>)
    requires Fetched(t, k, f) && BringsLast(t, op, k)
    ensures var r, x := op.response, op.x.(response := Some(op.response));
            var (t', x', exit) := ReceiveResponse(t, x);
            && x'.request == x.request
            && (if f.None? then
                  t' == t && exit == Returned && !x'.blockTransfer && x'.response == Some(r)
                else if KnownType(f.value) != Some(r.contentType) then
                  && t' == t && exit == Returned && x'.blockTransfer
                  && x'.response == Some(Msg(x.request.destination, x.request.source, x.request.token, None, Some(RST),
                       Some(143), None, None, None, None, 0, None, []))
                else if !Ends(f.value, r) then t' == t && exit == Thrown
                else
                  && Fetched(t', k, None) && exit == Returned && !x'.blockTransfer
                  && x'.response == Some(r.(payload :=
                       Some(Assembly(f.value.start, f.value.taken).octets + r.payload.value))))
  {
    hide Assembly;
  }

  lemma OpeningStores(t: Tables, op: Op, k: Key)
    requires Opens(op, k)
    ensures Fetched(Apply(t, op).0, k, Some(Fetch(EmptyText, op.request.block2.value.num, None, [])))
  {
  }

  lemma OtherCallsKeepFetch(t: Tables, op: Op, k: Key)
    requires !Opens(op, k) && !Brings(t, op, k)
    ensures Lookup(Apply(t, op).0.sent2, k) == Lookup(t.sent2, k)
  {
    if OpKey(op) != k {
      hide Apply;
      OtherKeysUntouched(t, op, k);
    } else {
      hide Cut, Serving, CutUpload, Join, Error, Slice, MoreAfter;
    }
  }

  lemma BringsIsResponse(t: Tables, op: Op, k: Key)
    requires Brings(t, op, k)
    ensures op.ResponseIn? && op.response.block2.Some?
    ensures Apply(t, op).0 == ReceiveResponse(t, op.x.(response := Some(op.response))).0
  {
  }

  /** For every run of calls the table agrees with the download that the run amounts to. */
  lemma {:induction false} FetchesAreAssembled(ops: seq<Op>, k: Key)
    ensures Fetched(RunAll(ops), k, FetchOf(ops, k))
  {
    hide Apply, Brings, Opens, ReceiveResponse, Fetched, Ends, Follows;
    if ops == [] {
      NothingFetched(k);
    } else {
      var front, op := ops[..|ops| - 1], ops[|ops| - 1];
      var t, before := RunAll(front), FetchOf(front, k);
      FetchesAreAssembled(front, k);
      FetchedPresence(t, k, before);
      if Opens(op, k) {
        OpeningStores(t, op, k);
        OpensIsRequest(t, op, k);
      } else if Brings(t, op, k) {
        BringsIsResponse(t, op, k);
        if op.response.block2.value.more {
          if before.None? {
            FirstBlockArrives(t, op, k);
          } else {
            BlockArrives(t, op, k, before.value);
          }
        } else {
          LastBlockArrives(t, op, k, before);
          EndsNeedsType(before, op.response);
        }
      } else {
        OtherCallsKeepFetch(t, op, k);
        SameFetched(t, Apply(t, op).0, k, before);
      }
    }
  }

  lemma NothingFetched(k: Key)
    ensures Fetched(EmptyTables, k, None)
  {
  }

  lemma FetchedPresence(t: Tables, k: Key, f: Option<Fetch>)
    requires Fetched(t, k, f)
    ensures k in t.sent2 <==> f.Some?
  {
  }

  lemma OpensIsRequest(t: Tables, op: Op, k: Key)
    requires Opens(op, k)
    ensures op.RequestOut? && op.request.block2.Some?
  {
  }

  lemma EndsNeedsType(f: Option<Fetch>, r: Msg)
    ensures f.Some? && KnownType(f.value) != Some(r.contentType) ==> !Ends(f.value, r)
  {
  }

  lemma SameFetched(t: Tables, t': Tables, k: Key, f: Option<Fetch>)
    requires Fetched(t, k, f) && Lookup(t'.sent2, k) == Lookup(t.sent2, k)
    ensures Fetched(t', k, f)
  {
  }

  /** The next response block of any run. */
  lemma NextResponseBlock(ops: seq<Op>, k: Key, op: Op)
    requires BringsMore(RunAll(ops), op, k) && FetchOf(ops, k).Some?
    ensures var t, f, r, x := RunAll(ops), FetchOf(ops, k).value, op.response, op.x.(response := Some(op.response));
            var (t', x', exit) := ReceiveResponse(t, x);
            var refused := x'.response.Some? && x'.response.value.typ == Some(RST) && x'.response != Some(r);
            && (r.typ != Some(RST) ==> (refused <==> !Follows(f, r)))
            && (!Follows(f, r) ==>
                  && t' == t && x'.request == x.request && x'.response.value.typ == Some(RST)
                  && x'.response.value.code == Some(if r.block2.value.num != Expected(f) then 136 else 143))
            && (Follows(f, r) ==>
                  && (exit == Thrown <==> !(Assembly(f.start, f.taken).Octets? && r.payload.Some?))
                  && t'.sent2[k].payload == Assembly(f.start, f.taken + [r]))
  {
    hide Follows, ReceiveResponse, Assembly;
    FetchesAreAssembled(ops, k);
    BlockArrives(RunAll(ops), op, k, FetchOf(ops, k).value);
  }

  /** A block that arrives a second time is refused, and the body is not extended by it. */
  lemma RepeatedBlockIsRefused(t: Tables, op: Op, k: Key, f: Fetch)
    requires BringsMore(t, op, k) && Fetched(t, k, Some(f.(taken := f.taken + [op.response])))
    ensures var (t', x', exit) := ReceiveResponse(t, op.x.(response := Some(op.response)));
            t' == t && x'.response.value.typ == Some(RST) && x'.response.value.code == Some(136)
  {
    hide ReceiveResponse, Assembly;
    var g := f.(taken := f.taken + [op.response]);
    assert g.taken[|f.taken|] == op.response;
    BlockArrives(t, op, k, g);
  }

  /** Block 2 of three, arriving right behind block 0, ends the download: the caller gets a body without block 1. */
  lemma SkippedBlockIsDelivered(t: Tables, op: Op, k: Key, zero: bytes, two: bytes, contentType: nat)
    requires Brings(t, op, k) && Fetched(t, k, Some(Fetch(Octets(zero), 1, Some(contentType), [])))
    requires op.response.block2 == Some(Block(2, false, 1024)) && op.response.contentType == contentType
    requires op.response.payload == Some(two)
    ensures var (t', x', exit) := ReceiveResponse(t, op.x.(response := Some(op.response)));
            exit == Returned && !x'.blockTransfer && x'.response.Some? && x'.response.value.payload == Some(zero + two)
  {
    hide ReceiveResponse;
    LastBlockArrives(t, op, k, Some(Fetch(Octets(zero), 1, Some(contentType), [])));
  }
}
