/** The reader of a TCP connection: spooled octets are cut into frames, one frame a call. */
module TcpProtocol {

  import opened Wrappers
  import opened Bytes
  import opened OptionRegistry
  import opened BodyCodec
  import opened TcpSerializer

  datatype Event =
    | Waiting                       // no complete frame yet
    | Delivered(packet: TcpPacket)  // handed to message_received
    | Undelivered(failure: Arrived) // the frame cannot be parsed

  /** One call of data_received on the spool. An escaping exception leaves the frame in the spool. */
  function Receive(spool: bytes, data: bytes): (bytes, Event) {
    var whole := spool + data;
    var size := ExtractSize(whole);
    if size.None? || size.value.Sum() > |whole| then (whole, Waiting)
    else
      var n := size.value.Sum();
      match ParseFrame(whole[..n])
      case Message(packet) => (whole[n..], Delivered(packet))
      case Malformed(failure) =>
        (if failure.BadRequest? then whole[n..] else whole, Undelivered(Malformed(failure)))
  }

  class CoapTcpProtocol {
    var spool: bytes
    /** The messages handed to message_received so far. */
    var received: seq<TcpPacket>

    constructor ()
      ensures spool == [] && received == []
    {
      spool, received := [], [];
    }

    /** Every branch of the reader's loop leaves it, so a call handles at most one frame. */
    method DataReceived(data: bytes) returns (event: Event)
      modifies this
      ensures (spool, event) == Receive(old(spool), data)
      ensures received == old(received) + if event.Delivered? then [event.packet] else []
    {
      hide ExtractSize, ParseFrame;
      spool := spool + data;
      var header := ExtractSize(spool);
      if header.None? {
        return Waiting;
      }
      var size := header.value.Sum();
      if size > |spool| {
        return Waiting;
      }
      var message := Deserialize(spool[..size]);
      match message
      case Malformed(failure) =>
        if failure.BadRequest? {
          spool := spool[size..];
        }
        event := Undelivered(message);
      case Message(packet) =>
        spool := spool[size..];
        received := received + [packet];
        event := Delivered(packet);
    }
  }

  // ----------------------------------------------------------------- framing

  /** The octets hold exactly one frame. */
  predicate IsFrame(f: bytes) {
    ExtractSize(f).Some? && ExtractSize(f).value.Sum() == |f|
  }

  predicate StartsWithFrame(s: bytes) {
    ExtractSize(s).Some? && ExtractSize(s).value.Sum() <= |s|
  }

  /** The complete frames of a stream, from its start. */
  function Frames(s: bytes): seq<bytes>
    decreases |s|
  {
    if !StartsWithFrame(s) then []
    else
      var n := ExtractSize(s).value.Sum();
      [s[..n]] + Frames(s[n..])
  }

  function Concat(parts: seq<bytes>): bytes {
    if parts == [] then [] else parts[0] + Concat(parts[1..])
  }

  lemma {:induction false} ConcatSnoc(parts: seq<bytes>, last: bytes)
    ensures Concat(parts + [last]) == Concat(parts) + last
  {
    if parts == [] {
      assert [last][1..] == [];
    } else {
      assert (parts + [last])[1..] == parts[1..] + [last];
      ConcatSnoc(parts[1..], last);
    }
  }

  lemma FirstFrame(s: bytes)
    requires StartsWithFrame(s)
    ensures var n := ExtractSize(s).value.Sum();
            IsFrame(s[..n]) && Frames(s) == [s[..n]] + Frames(s[n..])
  {
    var size := ExtractSize(s).value;
    var n := size.Sum();
    var f := s[..n];
    assert s[0] == f[0];
    assert |s| >= 2 && n >= 2 ==> f[1..2] == s[1..2];
    assert n >= 3 ==> f[1..3] == s[1..3];
    assert n >= 5 ==> f[1..5] == s[1..5];
  }

  lemma NoFrame(s: bytes)
    requires !StartsWithFrame(s)
    ensures Frames(s) == []
  {
  }

  lemma FrameFirst(f: bytes, rest: bytes)
    requires IsFrame(f)
    ensures Frames(f + rest) == [f] + Frames(rest)
  {
    SizeIsStable(f, rest);
    assert (f + rest)[..|f|] == f && (f + rest)[|f|..] == rest;
  }

  /** Framing is unique: frames followed by any rest are cut back into those frames. */
  lemma {:induction false} FramingIsUnique(fs: seq<bytes>, rest: bytes)
    requires forall i :: 0 <= i < |fs| ==> IsFrame(fs[i])
    ensures Frames(Concat(fs) + rest) == fs + Frames(rest)
  {
    hide IsFrame, Frames;
    if fs == [] {
      assert Concat(fs) + rest == rest && fs + Frames(rest) == Frames(rest);
    } else {
      FramingIsUnique(fs[1..], rest);
      FrameFirst(fs[0], Concat(fs[1..]) + rest);
      assert Concat(fs) + rest == fs[0] + (Concat(fs[1..]) + rest);
      assert fs + Frames(rest) == [fs[0]] + (fs[1..] + Frames(rest));
    }
  }

  /**
    An unreadable frame goes nowhere: a bad request has left the spool before it is reported,
    while any other exception escapes the parser and finds the whole spool as it was.
   */
  lemma UnreadableFrame(spool: bytes, data: bytes, f: bytes, rest: bytes)
    requires spool + data == f + rest && IsFrame(f) && ParseFrame(f).Malformed?
    ensures Receive(spool, data).1 == Undelivered(ParseFrame(f))
    ensures ParseFrame(f) == Malformed(BadRequest) ==> Receive(spool, data).0 == rest
    ensures ParseFrame(f) != Malformed(BadRequest) ==> Receive(spool, data).0 == f + rest
  {
    hide ExtractSize, ParseFrame;
    SizeIsStable(f, rest);
    assert (f + rest)[..|f|] == f && (f + rest)[|f|..] == rest;
  }

  // ------------------------------------------------------------ whole streams

  /** broken: an exception has escaped data_received, so the connection is closed. */
  datatype Reader = Reader(spool: bytes, cut: seq<bytes>, received: seq<TcpPacket>, broken: bool)

  /** A call of data_received, with the frame it cut off the spool for a delivered message. */
  function Feed(r: Reader, data: bytes): Reader {
    if r.broken then r
    else
      var (spool, event) := Receive(r.spool, data);
      var whole := r.spool + data;
      if event.Delivered? then
        Reader(spool, r.cut + [whole[..|whole| - |spool|]], r.received + [event.packet], false)
      else Reader(spool, r.cut, r.received, event.Undelivered?)
  }

  function FeedAll(chunks: seq<bytes>): Reader {
    if chunks == [] then Reader([], [], [], false) else Feed(FeedAll(chunks[..|chunks| - 1]), chunks[|chunks| - 1])
  }

  /** The number of frames before the first one that cannot be parsed. */
  function Good(fs: seq<bytes>): (n: nat)
    ensures n <= |fs|
  {
    if fs == [] || !ParseFrame(fs[0]).Message? then 0 else 1 + Good(fs[1..])
  }

  lemma {:induction false} GoodFrames(fs: seq<bytes>, i: nat)
    requires i < |fs|
    ensures i < Good(fs) ==> ParseFrame(fs[i]).Message?
    ensures i == Good(fs) ==> !ParseFrame(fs[i]).Message?
  {
    hide ParseFrame;
    if i > 0 && ParseFrame(fs[0]).Message? {
      GoodFrames(fs[1..], i - 1);
    }
  }

  lemma {:induction false} GoodGrows(fs: seq<bytes>, more: seq<bytes>)
    ensures Good(fs) <= Good(fs + more)
    ensures Good(fs) < |fs| ==> Good(fs + more) == Good(fs)
  {
    hide ParseFrame;
    if fs == [] {
      assert fs + more == more;
    } else {
      assert (fs + more)[1..] == fs[1..] + more;
      GoodGrows(fs[1..], more);
    }
  }

  lemma {:induction false} AllGood(fs: seq<bytes>)
    requires forall i :: 0 <= i < |fs| ==> ParseFrame(fs[i]).Message?
    ensures Good(fs) == |fs|
  {
    hide ParseFrame;
    if fs != [] {
      AllGood(fs[1..]);
    }
  }

  /** The frames cut are the start of the framing, and each was delivered as its message. */
  predicate Handed(r: Reader, fs: seq<bytes>) {
    && r.cut <= fs
    && |r.received| == |r.cut| <= Good(fs)
    && (forall i :: 0 <= i < |r.cut| ==> ParseFrame(r.cut[i]) == Message(r.received[i]))
  }

  predicate Reassembled(r: Reader, stream: bytes) {
    && Handed(r, Frames(stream))
    && (forall i :: 0 <= i < |r.cut| ==> IsFrame(r.cut[i]))
    && (if r.broken then |r.received| == Good(Frames(stream)) < |Frames(stream)|
        else Concat(r.cut) + r.spool == stream)
  }

  lemma FeedNothing(r: Reader, data: bytes)
    requires !r.broken && !StartsWithFrame(r.spool + data)
    ensures Feed(r, data) == Reader(r.spool + data, r.cut, r.received, false)
  {
  }

  lemma FeedFrame(r: Reader, data: bytes)
    requires !r.broken && StartsWithFrame(r.spool + data)
    ensures var whole := r.spool + data;
            var n := ExtractSize(whole).value.Sum();
            var message := ParseFrame(whole[..n]);
            if message.Message? then
              Feed(r, data) == Reader(whole[n..], r.cut + [whole[..n]], r.received + [message.packet], false)
            else
              Feed(r, data).broken && Feed(r, data).cut == r.cut && Feed(r, data).received == r.received
  {
    hide ParseFrame, ExtractSize;
    var whole := r.spool + data;
    var n := ExtractSize(whole).value.Sum();
    assert whole[..|whole| - |whole[n..]|] == whole[..n];
  }

  lemma HandedGrows(r: Reader, fs: seq<bytes>, fs': seq<bytes>)
    requires Handed(r, fs) && fs <= fs'
    ensures Handed(r, fs') && Good(fs) <= Good(fs')
    ensures Good(fs) < |fs| ==> Good(fs') == Good(fs)
  {
    hide ParseFrame;
    assert fs' == fs + fs'[|fs|..];
    GoodGrows(fs, fs'[|fs|..]);
  }

  /** A call hands over one frame if a good one is waiting; if a bad one is next, the reader breaks. */
  lemma FeedOne(r: Reader, stream: bytes, data: bytes)
    requires Reassembled(r, stream)
    ensures var r', fs := Feed(r, data), Frames(stream + data);
            && Reassembled(r', stream + data)
            && |r'.received| == Next(|r.received|, Good(fs))
            && (r'.broken <==> r.broken || |r.received| == Good(fs) < |fs|)
  {
    hide ParseFrame, ExtractSize, IsFrame, Concat, Frames, Handed, Feed;
    var whole := r.spool + data;
    var fs := Frames(stream + data);
    FramesGrow(stream, data);
    HandedGrows(r, Frames(stream), fs);
    HandedParts(r, fs);
    if r.broken {
      assert Feed(r, data) == r by { BrokenStays(r, data); }
    } else {
      assert Concat(r.cut) + whole == stream + data;
      FramingIsUnique(r.cut, whole);
      if StartsWithFrame(whole) {
        var n := ExtractSize(whole).value.Sum();
        FirstFrame(whole);
        assert fs[|r.cut|] == whole[..n];
        GoodFrames(fs, |r.cut|);
        FeedFrame(r, data);
        if ParseFrame(whole[..n]).Message? {
          HandedOneMore(r, fs, whole[n..]);
          ConcatSnoc(r.cut, whole[..n]);
          assert Concat(r.cut) + whole[..n] + whole[n..] == Concat(r.cut) + whole;
        } else {
          SameHanded(r, Feed(r, data), fs);
        }
      } else {
        NoFrame(whole);
        FeedNothing(r, data);
        SameHanded(r, Feed(r, data), fs);
      }
    }
  }

  lemma HandedParts(r: Reader, fs: seq<bytes>)
    requires Handed(r, fs)
    ensures r.cut <= fs && |r.received| == |r.cut| <= Good(fs)
  {
  }

  lemma SameHanded(r: Reader, r': Reader, fs: seq<bytes>)
    requires Handed(r, fs) && r'.cut == r.cut && r'.received == r.received
    ensures Handed(r', fs)
  {
  }

  lemma BrokenStays(r: Reader, data: bytes)
    requires r.broken
    ensures Feed(r, data) == r
  {
  }

  lemma HandedOneMore(r: Reader, fs: seq<bytes>, rest: bytes)
    requires Handed(r, fs) && |r.cut| < Good(fs)
    ensures ParseFrame(fs[|r.cut|]).Message?
    ensures Handed(Reader(rest, r.cut + [fs[|r.cut|]], r.received + [ParseFrame(fs[|r.cut|]).packet], false), fs)
  {
    hide ParseFrame, Good;
    GoodFrames(fs, |r.cut|);
  }

  function Next(handed: nat, good: nat): nat {
    if handed < good then handed + 1 else handed
  }

  /**
    For every chunking of every stream: the frames cut are the start of the stream's own framing,
    before its first unreadable frame, and were delivered in order; as long as no exception has
    escaped, they and the spool are all the octets received; each call delivers one frame if a
    readable one is next, and the exception escapes exactly when an unreadable one is.
   */
  lemma {:induction false} StreamReassembly(chunks: seq<bytes>)
    ensures var r, fs := FeedAll(chunks), Frames(Concat(chunks));
            && Reassembled(r, Concat(chunks))
            && (chunks != [] ==>
                  var before := FeedAll(chunks[..|chunks| - 1]);
                  && |r.received| == Next(|before.received|, Good(fs))
                  && (r.broken <==> before.broken || |before.received| == Good(fs) < |fs|))
  {
    hide ParseFrame, ExtractSize, IsFrame, Feed, Frames, Reassembled;
    if chunks == [] {
      NothingReceived();
    } else {
      var before, last := chunks[..|chunks| - 1], chunks[|chunks| - 1];
      assert chunks == before + [last];
      ConcatSnoc(before, last);
      StreamReassembly(before);
      FeedOne(FeedAll(before), Concat(before), last);
    }
  }

  lemma NothingReceived()
    ensures Reassembled(Reader([], [], [], false), []) && Concat([]) == [] && Frames([]) == []
  {
  }

  /** More octets never change the frames already complete. */
  lemma {:induction false} FramesGrow(s: bytes, more: bytes)
    ensures Frames(s) <= Frames(s + more)
    decreases |s|
  {
    hide ExtractSize, IsFrame;
    if StartsWithFrame(s) {
      var n := ExtractSize(s).value.Sum();
      SizeIsStable(s, more);
      assert (s + more)[..n] == s[..n] && (s + more)[n..] == s[n..] + more;
      FramesGrow(s[n..], more);
    }
  }

  /** The readable frames that the first n chunks complete, before an unreadable one. */
  function ReadableAfter(chunks: seq<bytes>, n: nat): nat
    requires n <= |chunks|
  {
    Good(Frames(Concat(chunks[..n])))
  }

  function HandedAfter(chunks: seq<bytes>, n: nat): nat
    requires n <= |chunks|
  {
    |FeedAll(chunks[..n]).received|
  }

  lemma ReadableGrows(chunks: seq<bytes>, n: nat)
    requires 0 < n <= |chunks|
    ensures ReadableAfter(chunks, n - 1) <= ReadableAfter(chunks, n)
  {
    hide Frames, Good;
    var s := chunks[..n];
    assert s[..n - 1] == chunks[..n - 1];
    ConcatSplit(s, n - 1);
    var fs, fs' := Frames(Concat(s[..n - 1])), Frames(Concat(s));
    FramesGrow(Concat(s[..n - 1]), Concat(s[n - 1..]));
    assert fs' == fs + fs'[|fs|..];
    GoodGrows(fs, fs'[|fs|..]);
  }

  lemma HandsOneMore(chunks: seq<bytes>)
    requires chunks != []
    ensures |FeedAll(chunks).received| == Next(|FeedAll(chunks[..|chunks| - 1]).received|, Good(Frames(Concat(chunks))))
  {
    hide Frames, FeedAll, Reassembled;
    StreamReassembly(chunks);
  }

  lemma HandedRecurrence(chunks: seq<bytes>, n: nat)
    requires n <= |chunks|
    ensures n == 0 ==> HandedAfter(chunks, n) == ReadableAfter(chunks, n) == 0
    ensures n > 0 ==> HandedAfter(chunks, n) == Next(HandedAfter(chunks, n - 1), ReadableAfter(chunks, n))
  {
    hide Frames, FeedAll, Concat, Next, Good;
    if n == 0 {
      NothingReceived();
      NothingFed();
    } else {
      HandsOneMore(chunks[..n]);
      assert chunks[..n][..n - 1] == chunks[..n - 1];
    }
  }

  lemma NothingFed()
    ensures FeedAll([]) == Reader([], [], [], false) && Good([]) == 0
  {
  }

  lemma {:induction false} ConcatSplit(parts: seq<bytes>, n: nat)
    requires n <= |parts|
    ensures Concat(parts) == Concat(parts[..n]) + Concat(parts[n..])
  {
    if n > 0 {
      ConcatSplit(parts[1..], n - 1);
      assert parts[..n][1..] == parts[1..][..n - 1] && parts[1..][n - 1..] == parts[n..];
    } else {
      assert parts[n..] == parts;
    }
  }

  /**
    No readable frame is ever kept waiting exactly when no call completes more than one;
    otherwise a frame stays in the spool until more octets arrive.
   */
  lemma NothingWaits(chunks: seq<bytes>)
    ensures (forall n: nat | n <= |chunks| :: HandedAfter(chunks, n) == ReadableAfter(chunks, n))
       <==> (forall n: nat | 0 < n <= |chunks| :: ReadableAfter(chunks, n) <= ReadableAfter(chunks, n - 1) + 1)
  {
    hide HandedAfter, ReadableAfter, Frames;
    forall n: nat | n <= |chunks|
      ensures n > 0 ==> HandedAfter(chunks, n) == Next(HandedAfter(chunks, n - 1), ReadableAfter(chunks, n))
      ensures n > 0 ==> ReadableAfter(chunks, n - 1) <= ReadableAfter(chunks, n)
    {
      HandedRecurrence(chunks, n);
      if n > 0 {
        ReadableGrows(chunks, n);
      }
    }
    HandedRecurrence(chunks, 0);
    if forall n: nat | 0 < n <= |chunks| :: ReadableAfter(chunks, n) <= ReadableAfter(chunks, n - 1) + 1 {
      for n := 0 to |chunks|
        invariant forall k: nat | k <= n :: HandedAfter(chunks, k) == ReadableAfter(chunks, k)
      {
        assert ReadableAfter(chunks, n + 1) <= ReadableAfter(chunks, n + 1 - 1) + 1;
      }
    }
  }

  // ---------------------------------------------------- messages over a stream

  predicate Sendable(m: TcpPacket, order: ByteOrder) {
    KnownCode(m.code) && WellFormed(m.options) && Readable(m, order) && PrintFrame(m, order).Ok?
  }

  function FrameOf(m: TcpPacket, order: ByteOrder): bytes
    requires Sendable(m, order)
  {
    PrintFrame(m, order).value
  }

  function FramesOf(ms: seq<TcpPacket>, order: ByteOrder): (fs: seq<bytes>)
    requires forall i :: 0 <= i < |ms| ==> Sendable(ms[i], order)
    ensures |fs| == |ms| && forall i :: 0 <= i < |ms| ==> fs[i] == FrameOf(ms[i], order)
  {
    seq(|ms|, i requires 0 <= i < |ms| => FrameOf(ms[i], order))
  }

  lemma FrameOfIsFrame(m: TcpPacket, order: ByteOrder)
    requires Sendable(m, order)
    ensures IsFrame(FrameOf(m, order)) && ParseFrame(FrameOf(m, order)) == Message(Arrival(m))
  {
    hide ParseFrame, ExtractSize, PrintFrame, Readable, WellFormed, KnownCode;
    FrameAnnouncesItsLength(m, order, []);
    assert FrameOf(m, order) + [] == FrameOf(m, order);
    FrameRoundTrip(m, order);
  }

  lemma PartOfFrame(m: TcpPacket, order: ByteOrder, k: nat)
    requires Sendable(m, order) && k < |FrameOf(m, order)|
    ensures Frames(FrameOf(m, order)[..k]) == []
  {
    hide ExtractSize, PrintFrame, Readable, WellFormed, KnownCode;
    FrameIsSelfDelimiting(m, order, k);
    NoFrame(FrameOf(m, order)[..k]);
  }

  /**
    Messages sent one after the other, the last one possibly cut short, and received in any
    chunks: what has been delivered is a prefix of what was sent, in order, and it lags behind
    the complete messages only as HandedRecurrence says.
   */
  lemma SentMessagesArrive(ms: seq<TcpPacket>, last: TcpPacket, order: ByteOrder, k: nat, chunks: seq<bytes>)
    requires (forall i :: 0 <= i < |ms| ==> Sendable(ms[i], order)) && Sendable(last, order)
             && k < |FrameOf(last, order)|
    requires Concat(chunks) == Concat(FramesOf(ms, order)) + FrameOf(last, order)[..k]
    ensures ReadableAfter(chunks, |chunks|) == |ms| && !FeedAll(chunks).broken
    ensures var received := FeedAll(chunks).received;
            |received| <= |ms| && forall i :: 0 <= i < |received| ==> received[i] == Arrival(ms[i])
  {
    hide ParseFrame, IsFrame, Sendable, FrameOf, Arrival, FeedAll, Frames, Concat, Good;
    var fs := FramesOf(ms, order);
    forall i | 0 <= i < |ms|
      ensures IsFrame(fs[i]) && ParseFrame(fs[i]) == Message(Arrival(ms[i]))
    {
      FrameOfIsFrame(ms[i], order);
    }
    PartOfFrame(last, order, k);
    FramingIsUnique(fs, FrameOf(last, order)[..k]);
    assert fs + [] == fs;
    AllGood(fs);
    assert chunks[..|chunks|] == chunks;
    StreamReassembly(chunks);
  }
}
