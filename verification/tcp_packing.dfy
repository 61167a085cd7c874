/** The body of a TCP frame: fields packed in the byte order and alignment of the sending machine. */
module TcpPacking {

  import opened Wrappers
  import opened Bytes
  import opened Utf8
  import opened OptionRegistry
  import opened OptionWire
  import opened OptionOrder
  import opened BodyCodec

  // ---------------------------------------------------------------- packing

  function NativeShort(v: nat, order: ByteOrder): (b: bytes)
    requires v < 0x1_0000
    ensures |b| == 2
  {
    if order == Big then Words(v, 2) else [v % 256, v / 256]
  }

  /** An extended field at an offset of the packed structure. */
  function NativeExtended(v: nat, offset: nat, order: ByteOrder): bytes
    requires v <= MAX_FIELD
  {
    if v <= 255 + 13 then Extended(v)
    else (if offset % 2 == 1 then [0] else []) + NativeShort(v - 269, order)
  }

  function NativeHeader(o: StoredOption, last: nat, offset: nat, order: ByteOrder): bytes
    requires FieldsFit(o, last)
  {
    var delta, length := o.number - last, Length(o.value);
    var start := [Nibble(delta).value * 16 + Nibble(length).value] + NativeExtended(delta, offset + 1, order);
    start + NativeExtended(length, offset + |start|, order)
  }

  function NativeOption(o: StoredOption, last: nat, offset: nat, order: ByteOrder): bytes
    requires FieldsFit(o, last)
  {
    NativeHeader(o, last, offset, order) + ValueBytes(o.value)
  }

  function NativeOptions(os: seq<StoredOption>, last: nat, offset: nat, order: ByteOrder): bytes
    requires AllFit(os, last)
  {
    if os == [] then []
    else
      var first := NativeOption(os[0], last, offset, order);
      first + NativeOptions(os[1..], os[0].number, offset + |first|, order)
  }

  function NativeBody(options: seq<StoredOption>, payload: Option<bytes>, order: ByteOrder): Result<bytes> {
    var os := SortByNumber(options);
    if AllFit(os, 0) then Ok(NativeOptions(os, 0, 0, order) + PayloadSection(payload)) else Raised
  }

  lemma {:induction false} NativeOptionsSnoc(os: seq<StoredOption>, o: StoredOption, last: nat, offset: nat,
                                             order: ByteOrder)
    requires AllFit(os + [o], last)
    ensures var end := if os == [] then last else os[|os| - 1].number;
            && AllFit(os, last) && FieldsFit(o, end)
            && var before := NativeOptions(os, last, offset, order);
               NativeOptions(os + [o], last, offset, order) == before + NativeOption(o, end, offset + |before|, order)
  {
    hide NativeOption, FieldsFit;
    if os == [] {
      assert [o][1..] == [];
    } else {
      assert (os + [o])[1..] == os[1..] + [o];
      var first := NativeOption(os[0], last, offset, order);
      NativeOptionsSnoc(os[1..], o, os[0].number, offset + |first|, order);
    }
  }

  /** The serializer's loop, with the fields packed where they come to stand. */
  method WriteNativeBody(options: seq<StoredOption>, payload: Option<bytes>, order: ByteOrder)
    returns (body: Result<bytes>)
    ensures body == NativeBody(options, payload, order)
  {
    hide SortByNumber, FieldsFit, NativeOption, WithNumber, AllFit, NativeOptions, PrintOption, PrintOptions, Nibble,
      Fits;
    var sorted := SortByNumber(options);
    SortIsStable(options);
    NothingPacked(order);
    var values: bytes := [];
    var lastOptionNumber: nat := 0;
    for i := 0 to |sorted|
      invariant AllFit(sorted[..i], 0)
      invariant values == NativeOptions(sorted[..i], 0, 0, order)
      invariant lastOptionNumber == if i == 0 then 0 else sorted[i - 1].number
    {
      var option := sorted[i];
      assert sorted[..i + 1] == sorted[..i] + [option];
      PrintOptionsSnoc(sorted[..i], option, 0);
      if !Fits(option, lastOptionNumber) {
        if AllFit(sorted, 0) {
          AllFitPrefix(sorted, i + 1, 0);
        }
        return Raised;
      }
      NativeOptionsSnoc(sorted[..i], option, 0, 0, order);
      values := values + NativeOption(option, lastOptionNumber, |values|, order);
      lastOptionNumber := option.number;
    }
    assert sorted[..|sorted|] == sorted;
    if payload.Some? && |payload.value| > 0 {
      values := values + [PAYLOAD_MARKER] + payload.value;
    }
    assert values == NativeOptions(sorted, 0, 0, order) + PayloadSection(payload);
    body := Ok(values);
  }

  /** Both fields of the option have a nibble. */
  predicate Fits(o: StoredOption, last: nat)
    requires last <= o.number
    ensures Fits(o, last) == FieldsFit(o, last)
  {
    Nibble(o.number - last).Some? && Nibble(Length(o.value)).Some?
  }

  lemma NothingPacked(order: ByteOrder)
    ensures AllFit([], 0) && NativeOptions([], 0, 0, order) == []
  {
  }

  // ---------------------------------------------------------- what is read back

  /** A two-octet field stands at an even offset, so that no padding precedes it. */
  predicate Aligned(v: nat, offset: nat) { v <= 255 + 13 || offset % 2 == 0 }

  /** What the parser, which reads network order, makes of an aligned field. */
  function Announced(v: nat, order: ByteOrder): nat
    requires v <= MAX_FIELD
  {
    if v <= 255 + 13 || order == Big then v else (v - 269) % 256 * 256 + (v - 269) / 256 + 269
  }

  /**
    The parser finds every option: its delta is aligned and read as it is; its length is aligned and
    read as the number of octets that follow, or as more than that where nothing else follows.
   */
  predicate ReadsBack(os: seq<StoredOption>, last: nat, offset: nat, order: ByteOrder, payload: bool)
    requires AllFit(os, last)
  {
    os == [] ||
    var o := os[0];
    var delta, length, octets := o.number - last, Length(o.value), |ValueBytes(o.value)|;
    && Aligned(delta, offset + 1) && Announced(delta, order) == delta
    && Aligned(length, offset + 1 + |Extended(delta)|)
    && (if Announced(length, order) == octets
        then ReadsBack(os[1..], o.number, offset + |PrintOption(o, last)|, order, payload)
        else Announced(length, order) > octets && os[1..] == [] && !payload)
  }

  /** The first and the second octet of a packed short. */
  function First(w: nat, order: ByteOrder): byte
    requires w < 0x1_0000
  {
    if order == Big then w / 256 else w % 256
  }

  function Second(w: nat, order: ByteOrder): byte
    requires w < 0x1_0000
  {
    if order == Big then w % 256 else w / 256
  }

  lemma ShortOctets(w: nat, order: ByteOrder)
    requires w < 0x1_0000
    ensures NativeShort(w, order) == [First(w, order), Second(w, order)]
  {
    assert Words(w, 2) == Words(w / 256, 1) + [w % 256];
    assert Words(w / 256, 1) == Words(w / 256 / 256, 0) + [w / 256 % 256] == [w / 256];
  }

  lemma FoldTwo(a: byte, b: byte)
    ensures Fold([a, b]) == a as int * 256 + b as int
  {
    assert [a, b][..1] == [a] && [a][..0] == [];
    assert Fold([a]) == a as int;
  }

  /** Reading a packed field: an aligned one as announced, a padded one from the padding and its first octet. */
  lemma ReadNativeField(v: nat, offset: nat, order: ByteOrder, tail: bytes)
    requires v <= MAX_FIELD
    ensures Nibble(v).Some? && Nibble(v).value <= 14
    ensures ReadField(Nibble(v).value, NativeExtended(v, offset, order) + tail)
         == if Aligned(v, offset) then Field(Announced(v, order), tail)
            else Field(First(v - 269, order) as int + 269, [Second(v - 269, order)] + tail)
  {
    if v <= 268 {
      ReadPrintedField(v, tail);
    } else {
      var w := v - 269;
      var f, s := First(w, order), Second(w, order);
      ShortOctets(w, order);
      if offset % 2 == 1 {
        assert NativeExtended(v, offset, order) + tail == [0, f] + ([s] + tail);
        assert ([0, f] + ([s] + tail))[..2] == [0, f];
        FoldTwo(0, f);
      } else {
        assert NativeExtended(v, offset, order) + tail == [f, s] + tail;
        assert ([f, s] + tail)[..2] == [f, s];
        FoldTwo(f, s);
      }
    }
  }

  lemma NativeFieldSize(v: nat, offset: nat, order: ByteOrder)
    requires v <= MAX_FIELD
    ensures Aligned(v, offset) ==> |NativeExtended(v, offset, order)| == |Extended(v)|
    ensures !Aligned(v, offset) ==> |NativeExtended(v, offset, order)| == 3
    ensures |Extended(v)| == if v <= 12 then 0 else if v <= 268 then 1 else 2
  {
  }

  /** The octets of an option behind its first one. */
  lemma NativeParts(o: StoredOption, last: nat, offset: nat, order: ByteOrder, tail: bytes)
    requires FieldsFit(o, last)
    ensures var delta, length := o.number - last, Length(o.value);
            var ext := NativeExtended(delta, offset + 1, order);
            var whole := NativeOption(o, last, offset, order) + tail;
            && whole[0] == Nibble(delta).value * 16 + Nibble(length).value && whole[0] != PAYLOAD_MARKER
            && whole[1..] == ext + (NativeExtended(length, offset + 1 + |ext|, order) + (ValueBytes(o.value) + tail))
  {
    hide NativeExtended, ValueBytes, Length;
    var delta, length := o.number - last, Length(o.value);
    assert Nibble(delta).value <= 14 && Nibble(length).value <= 14;
  }

  /** An option with aligned fields is read with what they announce. */
  lemma ReadAlignedHeader(o: StoredOption, last: nat, offset: nat, order: ByteOrder, tail: bytes)
    requires FieldsFit(o, last)
    requires Aligned(o.number - last, offset + 1)
    requires Aligned(Length(o.value), offset + 1 + |Extended(o.number - last)|)
    ensures ReadHeader(NativeOption(o, last, offset, order) + tail)
         == Header(Announced(o.number - last, order), Announced(Length(o.value), order), ValueBytes(o.value) + tail)
  {
    hide NativeOption, NativeExtended, ReadField, Announced, ValueBytes, Length, Aligned;
    var delta, length := o.number - last, Length(o.value);
    NativeParts(o, last, offset, order, tail);
    NativeFieldSize(delta, offset + 1, order);
    var lengthAt := offset + 1 + |Extended(delta)|;
    ReadNativeField(delta, offset + 1, order, NativeExtended(length, lengthAt, order) + (ValueBytes(o.value) + tail));
    ReadNativeField(length, lengthAt, order, ValueBytes(o.value) + tail);
  }

  // ------------------------------------------------------------- reading it back

  /** The whole value is stored as it would be from network order. */
  lemma ReadWholeValue(o: StoredOption, announced: nat, tail: bytes, before: seq<StoredOption>)
    requires WellTyped(o) && (AlreadyIn(o.number, before) ==> Lookup(o.number).value.repeatable)
    requires announced >= |ValueBytes(o.value)| && (announced == 0 <==> Length(o.value) == 0)
    requires announced == |ValueBytes(o.value)| || tail == []
    ensures var b := ValueBytes(o.value) + tail;
            && ReadOption(o.number, announced, Take(b, announced), before) == Stored(RereadOption(o))
            && Drop(b, announced) == tail
  {
    hide Lookup;
    var b := ValueBytes(o.value);
    assert Take(b + tail, announced) == b;
    match o.value
    case Int(n) => PackedInteger(n);
    case Raw(_) =>
    case Str(s) => Utf8RoundTrip(s);
  }

  lemma ValueLength(v: Value)
    ensures Length(v) == 0 <==> |ValueBytes(v)| == 0
    ensures Length(v) <= |ValueBytes(v)|
  {
    PlainLength(v);
    if v.Str? && v.s != "" {
      Utf8Length(v.s);
    }
  }

  lemma AnnouncedZero(v: nat, order: ByteOrder)
    requires v <= MAX_FIELD
    ensures Announced(v, order) == 0 <==> v == 0
  {
  }

  /** One option that reads back. */
  lemma ParseNativeOption(o: StoredOption, last: nat, offset: nat, order: ByteOrder, tail: bytes,
                          before: seq<StoredOption>)
    requires FieldsFit(o, last) && WellTyped(o)
    requires AlreadyIn(o.number, before) ==> Lookup(o.number).value.repeatable
    requires Aligned(o.number - last, offset + 1) && Announced(o.number - last, order) == o.number - last
    requires Aligned(Length(o.value), offset + 1 + |Extended(o.number - last)|)
    requires var announced := Announced(Length(o.value), order);
             announced == |ValueBytes(o.value)| || (announced > |ValueBytes(o.value)| && tail == [])
    ensures ParseBody(NativeOption(o, last, offset, order) + tail, last, before)
         == ParseBody(tail, o.number, before + [RereadOption(o)])
  {
    hide ParseBody, ReadHeader, ReadOption, Lookup, HasKind, NativeOption, Reread, Length, ValueBytes, Announced,
      Aligned;
    var announced := Announced(Length(o.value), order);
    ReadAlignedHeader(o, last, offset, order, tail);
    NativeParts(o, last, offset, order, tail);
    AnnouncedZero(Length(o.value), order);
    ReadWholeValue(o, announced, tail, before);
    ParseStored(NativeOption(o, last, offset, order) + tail, last, before, o.number - last, announced,
                ValueBytes(o.value) + tail, RereadOption(o));
  }

  lemma NativeSize(o: StoredOption, last: nat, offset: nat, order: ByteOrder)
    requires FieldsFit(o, last)
    requires Aligned(o.number - last, offset + 1)
    requires Aligned(Length(o.value), offset + 1 + |Extended(o.number - last)|)
    ensures |NativeOption(o, last, offset, order)| == |PrintOption(o, last)|
  {
    hide NativeExtended, Extended, Aligned, Length, ValueBytes;
    NativeFieldSize(o.number - last, offset + 1, order);
    NativeFieldSize(Length(o.value), offset + 1 + |Extended(o.number - last)|, order);
  }

  /** The payload as the parser reports it. */
  function Reported(payload: Option<bytes>): Option<bytes> { if payload == Some([]) then None else payload }

  lemma {:induction false} ReadingBack(os: seq<StoredOption>, last: nat, offset: nat, order: ByteOrder,
                                       payload: Option<bytes>, before: seq<StoredOption>)
    requires AllFit(os, last) && ReadsBack(os, last, offset, order, PayloadSection(payload) != [])
    requires NoForbiddenRepeat(before + os) && forall i :: 0 <= i < |os| ==> WellTyped(os[i])
    ensures ParseBody(NativeOptions(os, last, offset, order) + PayloadSection(payload), last, before)
         == Body(before + RereadAll(os), Reported(payload))
  {
    hide ParseBody, NativeOption, PrintOption, Lookup, HasKind, Announced, Aligned, Extended, Length, ValueBytes,
      PayloadSection, NoForbiddenRepeat, FieldsFit, Reread, RereadAll;
    if os == [] {
      assert [] + PayloadSection(payload) == PayloadSection(payload);
      assert before + RereadAll(os) == before by { NothingReread(); }
      ParsePayloadSection(payload, last, before);
    } else {
      var o := os[0];
      var first := NativeOption(o, last, offset, order);
      var tail := NativeOptions(os[1..], o.number, offset + |first|, order) + PayloadSection(payload);
      assert NativeOptions(os, last, offset, order) + PayloadSection(payload) == first + tail;
      NotYetIn(before, os);
      NativeSize(o, last, offset, order);
      ParseNativeOption(o, last, offset, order, tail, before);
      RepeatOfReread(before, os);
      ReadingBack(os[1..], o.number, offset + |first|, order, payload, before + [RereadOption(o)]);
      RereadRest(before, os);
    }
  }

  lemma NothingReread()
    ensures RereadAll([]) == []
  {
  }

  lemma NotYetIn(before: seq<StoredOption>, os: seq<StoredOption>)
    requires os != [] && NoForbiddenRepeat(before + os)
    ensures AlreadyIn(os[0].number, before) ==> Lookup(os[0].number).Some? && Lookup(os[0].number).value.repeatable
  {
    hide Lookup;
    if AlreadyIn(os[0].number, before) {
      var i :| 0 <= i < |before| && before[i].number == os[0].number;
      assert (before + os)[i] == before[i] && (before + os)[|before|] == os[0];
    }
  }

  // ----------------------------------------------------------- what is not read back

  /** The body is not the one that was written: it fails, or differs from the options expected after before. */
  predicate Lost(b: Body, before: seq<StoredOption>, os: seq<StoredOption>, payload: Option<bytes>) {
    b != Body(before + RereadAll(os), payload)
  }

  /** Another option at the place of the next one is never made good. */
  lemma OtherOptionIsLost(rest: bytes, current: nat, before: seq<StoredOption>, o: StoredOption,
                          os: seq<StoredOption>, payload: Option<bytes>)
    requires os == [] || o != RereadOption(os[0])
    ensures Lost(ParseBody(rest, current, before + [o]), before, os, payload)
  {
    hide ParseBody, Reread;
    ParsedOptionsStay(rest, current, before + [o]);
    var expected := before + RereadAll(os);
    assert (before + [o])[|before|] == o;
    if os != [] {
      assert expected[|before|] == RereadOption(os[0]);
    }
  }

  lemma {:induction false} NumbersGrow(rest: bytes, current: nat, before: seq<StoredOption>)
    ensures var b := ParseBody(rest, current, before);
            b.Body? ==> |b.options| >= |before| && forall i :: |before| <= i < |b.options| ==>
                b.options[i].number >= current
    decreases |rest|
  {
    hide ReadHeader;
    if rest != [] && rest[0] != PAYLOAD_MARKER && NextOption(rest, current, before).More? {
      var p := NextOption(rest, current, before);
      NumbersGrow(p.rest, p.current, p.os);
      ParsedOptionsStay(p.rest, p.current, p.os);
    }
  }

  /** Behind a number that is too large nothing is found any more. */
  lemma OvershootIsLost(rest: bytes, current: nat, before: seq<StoredOption>, h: Header, os: seq<StoredOption>,
                        payload: Option<bytes>)
    requires rest != [] && rest[0] != PAYLOAD_MARKER && ReadHeader(rest) == h && h.Header?
    requires os != [] && current + h.delta > os[0].number
    ensures Lost(ParseBody(rest, current, before), before, os, payload)
  {
    hide ParseBody, ReadHeader, ReadOption, Reread;
    UnfoldParseBody(rest, current, before);
    var step := ReadOption(current + h.delta, h.length, Take(h.tail, h.length), before);
    StoredNumber(current + h.delta, h.length, Take(h.tail, h.length), before);
    match step
    case Failed(_) => FailedIsNoBody(current + h.delta, h.length, Take(h.tail, h.length), before);
    case Stored(o) => OtherOptionIsLost(Drop(h.tail, h.length), current + h.delta, before, o, os, payload);
    case Skipped =>
      var b := ParseBody(Drop(h.tail, h.length), current + h.delta, before);
      NumbersGrow(Drop(h.tail, h.length), current + h.delta, before);
      if b == Body(before + RereadAll(os), payload) {
        assert b.options[|before|] == RereadOption(os[0]);
      }
  }

  lemma StoredNumber(number: nat, length: nat, taken: bytes, before: seq<StoredOption>)
    ensures var step := ReadOption(number, length, taken, before);
            step.Stored? ==>
              && step.option.number == number && Lookup(number).Some?
              && ParseValue(Lookup(number).value.kind, length, taken) == Some(step.option.value)
  {
    hide Lookup, ParseValue;
  }

  lemma FailedIsNoBody(number: nat, length: nat, taken: bytes, before: seq<StoredOption>)
    ensures var step := ReadOption(number, length, taken, before);
            step.Failed? ==> !step.failure.Body?
  {
  }

  /** What is stored for the option itself must be its own value. */
  lemma OtherValueIsLost(rest: bytes, current: nat, before: seq<StoredOption>, h: Header, os: seq<StoredOption>,
                         payload: Option<bytes>)
    requires rest != [] && rest[0] != PAYLOAD_MARKER && ReadHeader(rest) == h && h.Header?
    requires os != [] && current + h.delta == os[0].number && WellTyped(os[0])
    requires ParseValue(Lookup(os[0].number).value.kind, h.length, Take(h.tail, h.length)) != Some(Reread(os[0].value))
    ensures Lost(ParseBody(rest, current, before), before, os, payload)
  {
    hide ParseBody, ReadHeader, ReadOption, Lookup, ParseValue, Reread;
    UnfoldParseBody(rest, current, before);
    var number, taken := current + h.delta, Take(h.tail, h.length);
    StoredNumber(number, h.length, taken, before);
    FailedIsNoBody(number, h.length, taken, before);
    var step := ReadOption(number, h.length, taken, before);
    if step.Stored? {
      OtherOptionIsLost(Drop(h.tail, h.length), number, before, step.option, os, payload);
    } else {
      RegisteredIsNotSkipped(number, h.length, taken, before);
    }
  }

  lemma RegisteredIsNotSkipped(number: nat, length: nat, taken: bytes, before: seq<StoredOption>)
    requires Lookup(number).Some?
    ensures !ReadOption(number, length, taken, before).Skipped?
  {
    hide Lookup, ParseValue;
  }

  // ------------------------------------------------------------ misread lengths

  lemma FoldGrows(b: bytes, t: bytes)
    ensures Fold(b + t) >= Fold(b)
    ensures t != [] && Fold(b) > 0 ==> Fold(b + t) > Fold(b)
  {
    if t == [] {
      assert b + t == b;
    } else {
      var u := t[..|t| - 1];
      assert (b + t)[..|b + t| - 1] == b + u;
      FoldGrows(b, u);
    }
  }

  /** Fewer octets than the shortest form denote a smaller integer. */
  lemma ShorterIsSmaller(n: nat, b: bytes)
    requires |b| < ByteLen(n)
    ensures Fold(b) < n
  {
    WordsOfFold(b);
    ByteLenIsLeast(n, |b|);
  }

  /** Any other stretch than exactly the value's octets is another value. */
  lemma OtherOctetsOtherValue(kind: Kind, v: Value, length: nat, taken: bytes)
    requires HasKind(v, kind) && length > 0 && ValueBytes(v) != []
    requires taken != ValueBytes(v)
    requires v.Int? ==> |taken| < |ValueBytes(v)| || (ValueBytes(v) <= taken)
    ensures ParseValue(kind, length, taken) != Some(Reread(v))
  {
    var b := ValueBytes(v);
    match v
    case Raw(_) =>
    case Str(s) =>
      if DecodeUtf8(taken) == Some(s) {
        DecodedIsEncoded(taken);
      }
    case Int(n) =>
      PackedInteger(n);
      if |taken| < |b| {
        ShorterIsSmaller(n, taken);
      } else {
        var t := taken[|b|..];
        assert taken == b + t;
        FoldGrows(b, t);
      }
  }

  /** An aligned length that announces another number of octets, unless the value ends the body. */
  lemma WrongLengthIsLost(os: seq<StoredOption>, last: nat, offset: nat, order: ByteOrder, tail: bytes,
                          before: seq<StoredOption>, payload: Option<bytes>)
    requires os != [] && FieldsFit(os[0], last) && WellTyped(os[0])
    requires Aligned(os[0].number - last, offset + 1) && Announced(os[0].number - last, order) == os[0].number - last
    requires Aligned(Length(os[0].value), offset + 1 + |Extended(os[0].number - last)|)
    requires var announced, octets := Announced(Length(os[0].value), order), |ValueBytes(os[0].value)|;
             announced < octets || (announced > octets && tail != [])
    ensures Lost(ParseBody(NativeOption(os[0], last, offset, order) + tail, last, before), before, os, payload)
  {
    hide ParseBody, ReadHeader, Lookup, NativeOption, Reread, Length, ValueBytes, Announced, Aligned, ParseValue,
      Extended;
    var o := os[0];
    var announced, b := Announced(Length(o.value), order), ValueBytes(o.value);
    ReadAlignedHeader(o, last, offset, order, tail);
    NativeParts(o, last, offset, order, tail);
    AnnouncedZero(Length(o.value), order);
    ValueLength(o.value);
    var taken := Take(b + tail, announced);
    if announced < |b| {
      assert |taken| < |b|;
    } else {
      assert taken == b + Take(tail, announced - |b|);
      assert Take(tail, announced - |b|) != [];
    }
    OtherOctetsOtherValue(Lookup(o.number).value.kind, o.value, announced, taken);
    OtherValueIsLost(NativeOption(o, last, offset, order) + tail, last, before,
                     Header(o.number - last, announced, b + tail), os, payload);
  }

  // ------------------------------------------------------------- padded lengths

  /** An option with an aligned delta and a padded length. */
  lemma ReadPaddedLength(o: StoredOption, last: nat, offset: nat, order: ByteOrder, tail: bytes)
    requires FieldsFit(o, last)
    requires Aligned(o.number - last, offset + 1)
    requires !Aligned(Length(o.value), offset + 1 + |Extended(o.number - last)|)
    ensures var w := Length(o.value) - 269;
            ReadHeader(NativeOption(o, last, offset, order) + tail)
            == Header(Announced(o.number - last, order), First(w, order) as int + 269,
                      [Second(w, order)] + (ValueBytes(o.value) + tail))
  {
    hide NativeOption, NativeExtended, ReadField, Announced, ValueBytes, Length;
    var delta, length := o.number - last, Length(o.value);
    NativeParts(o, last, offset, order, tail);
    NativeFieldSize(delta, offset + 1, order);
    var lengthAt := offset + 1 + |Extended(delta)|;
    ReadNativeField(delta, offset + 1, order, NativeExtended(length, lengthAt, order) + (ValueBytes(o.value) + tail));
    ReadNativeField(length, lengthAt, order, ValueBytes(o.value) + tail);
  }

  lemma {:induction false} LeadingZero(b: bytes)
    ensures Fold([0] + b) == Fold(b)
  {
    if b == [] {
      assert [0] + b == [0] && [0][..0] == [];
    } else {
      assert ([0] + b)[..|b|] == [0] + b[..|b| - 1];
      LeadingZero(b[..|b| - 1]);
    }
  }

  lemma {:induction false} LeadingOctet(b: bytes)
    requires b != [] && b[0] != 0
    ensures ByteLen(Fold(b)) == |b|
  {
    if |b| == 1 {
      assert b[..0] == [];
      assert ByteLen(Fold(b)) == 1 + ByteLen(Fold(b) / 256);
    } else {
      LeadingOctet(b[..|b| - 1]);
      assert Fold(b) / 256 == Fold(b[..|b| - 1]);
    }
  }

  /** The first octet of the value is then the second one of the length: the integer differs. */
  lemma PaddedIntIsLost(n: nat, order: ByteOrder, tail: bytes)
    requires 269 <= ByteLen(n) <= MAX_FIELD
    ensures var w := ByteLen(n) - 269;
            Fold(Take([Second(w, order)] + (Words(n, ByteLen(n)) + tail), First(w, order) as int + 269)) != n
  {
    hide Words, Fold, ByteLen;
    var w, b := ByteLen(n) - 269, Words(n, ByteLen(n));
    var k, second := First(w, order) as int + 269, Second(w, order);
    var whole := [second] + (b + tail);
    var taken := Take(whole, k);
    if second == 0 {
      assert k <= |b|;
      assert taken == [0] + b[..k - 1];
      LeadingZero(b[..k - 1]);
      ShorterIsSmaller(n, b[..k - 1]);
    } else {
      assert taken[0] == second;
      LeadingOctet(taken);
      assert |taken| != |b|;
    }
  }

  lemma LongCharIsMixed(c: char, rest: bytes)
    ensures c as int >= 0x80 ==> (EncodeChar(c) + rest)[0] != (EncodeChar(c) + rest)[1]
  {
  }

  /** A text whose octets are all the same is ASCII. */
  lemma {:induction false} UniformText(s: string, c: byte)
    requires forall i :: 0 <= i < |EncodeUtf8(s)| ==> EncodeUtf8(s)[i] == c
    ensures Ascii(s)
  {
    if s != "" {
      var first, rest := EncodeChar(s[0]), EncodeUtf8(s[1..]);
      assert EncodeUtf8(s) == first + rest;
      LongCharIsMixed(s[0], rest);
      assert forall i :: 0 <= i < |rest| ==> rest[i] == (first + rest)[|first| + i];
      UniformText(s[1..], c);
      assert s == [s[0]] + s[1..];
    }
  }

  /** Octets that stay the same when another one is pushed in front of them are all that one. */
  lemma PushedOctets(b: bytes, c: byte, tail: bytes, k: nat)
    requires b != [] && Take([c] + (b + tail), k) == b
    ensures k == |b| && forall i :: 0 <= i < |b| ==> b[i] == c
  {
    var whole := [c] + (b + tail);
    assert |whole| > |b|;
    assert forall i :: 0 <= i < |b| - 1 ==> whole[i + 1] == b[i];
    for i := 0 to |b|
      invariant forall j :: 0 <= j < i ==> b[j] == c
    {
      assert b[i] == whole[i];
    }
  }

  /** An empty option of the same number, read from a zero octet, moves all further ones on. */
  lemma {:induction false} ExtraOption(os: seq<StoredOption>, last: nat, offset: nat, order: ByteOrder,
                                       payload: Option<bytes>, before: seq<StoredOption>, e: StoredOption)
    requires AllFit(os, last) && forall i :: 0 <= i < |os| ==> WellTyped(os[i])
    requires e.number == last && Lookup(last).Some? && Lookup(last).value.repeatable
    requires e.value == Raw([]) || e.value == Str("b''")
    ensures Lost(ParseBody(NativeOptions(os, last, offset, order) + PayloadSection(payload), last, before + [e]),
                 before, os, Reported(payload))
  {
    hide ParseBody, Lookup, HasKind, NativeOption, PrintOption, ValueBytes, PayloadSection, Lost;
    var rest := NativeOptions(os, last, offset, order) + PayloadSection(payload);
    if os == [] || RereadOption(os[0]) != e {
      OtherOptionIsLost(rest, last, before, e, os, Reported(payload));
    } else {
      var o := os[0];
      var first := NativeOption(o, last, offset, order);
      var tail := NativeOptions(os[1..], last, offset + |first|, order) + PayloadSection(payload);
      assert rest == first + tail;
      SmallValue(o.value);
      ParseNativeOption(o, last, offset, order, tail, before + [e]);
      ExtraOption(os[1..], last, offset + |first|, order, payload, before + [e], e);
      assert before + [e] + RereadAll(os[1..]) == before + RereadAll(os);
      SameLost(ParseBody(rest, last, before + [e]), before + [e], os[1..], before, os, Reported(payload));
    }
  }

  lemma SmallValue(v: Value)
    requires Reread(v) == Raw([]) || Reread(v) == Str("b''")
    ensures Length(v) == |ValueBytes(v)| <= 3
  {
    PlainLength(v);
  }

  lemma SameLost(b: Body, before: seq<StoredOption>, os: seq<StoredOption>,
                 before': seq<StoredOption>, os': seq<StoredOption>, payload: Option<bytes>)
    requires before + RereadAll(os) == before' + RereadAll(os')
    ensures Lost(b, before, os, payload) == Lost(b, before', os', payload)
  {
  }

  /** A zero octet in front of the rest is read as an empty option of the same number. */
  lemma ZeroOctetIsLost(os: seq<StoredOption>, last: nat, offset: nat, order: ByteOrder, payload: Option<bytes>,
                        before: seq<StoredOption>)
    requires AllFit(os, last) && forall i :: 0 <= i < |os| ==> WellTyped(os[i])
    requires AlreadyIn(last, before) && Lookup(last).Some?
    requires Lookup(last).value.kind != Integer
    ensures var rest := NativeOptions(os, last, offset, order) + PayloadSection(payload);
            Lost(ParseBody([0] + rest, last, before), before, os, Reported(payload))
  {
    hide ParseBody, Lookup, NativeOptions, PayloadSection, ReadHeader;
    var rest := NativeOptions(os, last, offset, order) + PayloadSection(payload);
    assert ([0] + rest)[1..] == rest && ([0] + rest)[0] == 0;
    ZeroHeader(rest);
    UnfoldParseBody([0] + rest, last, before);
    var step := ReadOption(last, 0, [], before);
    assert Take(rest, 0) == [] && Drop(rest, 0) == rest;
    if step.Stored? {
      ExtraOption(os, last, offset, order, payload, before, step.option);
    }
  }

  lemma ZeroHeader(rest: bytes)
    ensures ReadHeader([0] + rest) == Header(0, 0, rest)
  {
    assert ([0] + rest)[1..] == rest;
  }

  /** A padded length is never made good. */
  lemma PaddedLengthIsLost(os: seq<StoredOption>, last: nat, offset: nat, order: ByteOrder, payload: Option<bytes>,
                           before: seq<StoredOption>)
    requires os != [] && AllFit(os, last) && forall i :: 0 <= i < |os| ==> WellTyped(os[i])
    requires NoForbiddenRepeat(before + os)
    requires Aligned(os[0].number - last, offset + 1) && Announced(os[0].number - last, order) == os[0].number - last
    requires !Aligned(Length(os[0].value), offset + 1 + |Extended(os[0].number - last)|)
    ensures Lost(ParseBody(NativeOptions(os, last, offset, order) + PayloadSection(payload), last, before),
                 before, os, Reported(payload))
  {
    hide ParseBody, ReadHeader, Lookup, NativeOption, Announced, PayloadSection, ReadOption, ParseValue, RereadAll,
      NoForbiddenRepeat, ValueBytes, Extended, Lost, Take, Drop, NativeOptions, First, Second, Reread;
    var o := os[0];
    var first := NativeOption(o, last, offset, order);
    var tail := NativeOptions(os[1..], o.number, offset + |first|, order) + PayloadSection(payload);
    NativeUnfolds(os, last, offset, order, PayloadSection(payload));
    var w, b := Length(o.value) - 269, ValueBytes(o.value);
    var k, c := First(w, order) as int + 269, Second(w, order);
    var h := Header(o.number - last, k, [c] + (b + tail));
    ReadPaddedLength(o, last, offset, order, tail);
    NativeParts(o, last, offset, order, tail);
    var kind, taken := Lookup(o.number).value.kind, Take([c] + (b + tail), k);
    if ParseValue(kind, k, taken) != Some(Reread(o.value)) {
      OtherValueIsLost(first + tail, last, before, h, os, Reported(payload));
    } else {
      PaddedValue(kind, o.value, order, tail);
      NotYetIn(before, os);
      ReadKnown(o, k, taken, before);
      ParseStored(first + tail, last, before, o.number - last, k, h.tail, o);
      PaddedZeros(os, offset + |first|, order, payload, before);
    }
  }

  lemma PaddedZeros(os: seq<StoredOption>, offset: nat, order: ByteOrder, payload: Option<bytes>,
                    before: seq<StoredOption>)
    requires os != [] && AllFit(os[1..], os[0].number) && forall i :: 0 <= i < |os| ==> WellTyped(os[i])
    requires Reread(os[0].value) == os[0].value && Lookup(os[0].number).Some?
    requires Lookup(os[0].number).value.kind != Integer
    ensures var rest := NativeOptions(os[1..], os[0].number, offset, order) + PayloadSection(payload);
            Lost(ParseBody([0] + rest, os[0].number, before + [os[0]]), before, os, Reported(payload))
  {
    hide ParseBody, Lookup, NativeOptions, PayloadSection, Lost, AllFit, WellTyped, Reread;
    var o := os[0];
    assert (before + [o])[|before|] == o;
    ZeroOctetIsLost(os[1..], o.number, offset, order, payload, before + [o]);
    RereadRest(before, os);
    SameLost(ParseBody([0] + (NativeOptions(os[1..], o.number, offset, order) + PayloadSection(payload)), o.number,
        before + [o]),
             before + [o], os[1..], before, os, Reported(payload));
  }

  lemma ReadKnown(o: StoredOption, length: nat, taken: bytes, before: seq<StoredOption>)
    requires Lookup(o.number).Some? && (AlreadyIn(o.number, before) ==> Lookup(o.number).value.repeatable)
    requires ParseValue(Lookup(o.number).value.kind, length, taken) == Some(o.value)
    ensures ReadOption(o.number, length, taken, before) == Stored(o)
  {
    hide Lookup, ParseValue;
  }

  /** The one value that padding in front of its length does not change: zeros, of which one is left over. */
  lemma PaddedValue(kind: Kind, v: Value, order: ByteOrder, tail: bytes)
    requires HasKind(v, kind) && 269 <= Length(v) <= MAX_FIELD
    requires var w := Length(v) - 269;
             ParseValue(kind, First(w, order) as int + 269,
                        Take([Second(w, order)] + (ValueBytes(v) + tail), First(w, order) as int + 269))
                            == Some(Reread(v))
    ensures kind != Integer && Reread(v) == v
    ensures var w := Length(v) - 269;
            Drop([Second(w, order)] + (ValueBytes(v) + tail), First(w, order) as int + 269) == [0] + tail
  {
    hide Fold, EncodeUtf8, DecodeUtf8, Words, ByteLen;
    var w, b := Length(v) - 269, ValueBytes(v);
    var k, c := First(w, order) as int + 269, Second(w, order);
    var taken := Take([c] + (b + tail), k);
    match v {
      case Int(n) => PaddedIntIsLost(n, order, tail);
      case Raw(_) =>
      case Str(s) => DecodedIsEncoded(taken);
    }
    assert taken == b;
    ValueLength(v);
    PushedOctets(b, c, tail, k);
    if v.Str? {
      UniformText(v.s, c);
    }
    PlainLength(v);
    assert c == 0 && b[|b| - 1] == 0;
    assert [c] + (b + tail) == [0] + b[..|b| - 1] + ([0] + tail) by { assert b == b[..|b| - 1] + [0]; }
  }

  // ------------------------------------------------------------- misread deltas

  /** The least number of octets that move the option number on by d. */
  function MovingOctets(d: int): nat { if d <= 12 then 1 else if d <= 268 then 2 else 3 }

  /** The octets of an extended field. */
  function FieldOctets(n: nat): nat { if n <= 12 then 0 else if n <= 268 then 1 else 2 }

  /** Octets that a value cannot do without; texts are not counted. */
  function Weight(v: Value): nat {
    match v
    case Int(n) => ByteLen(n)
    case Raw(b) => |b|
    case Str(_) => 0
  }

  function Cost(os: seq<StoredOption>, last: nat): nat {
    if os == [] then 0
    else
      MovingOctets(os[0].number - last) + FieldOctets(Weight(os[0].value)) + Weight(os[0].value)
      + Cost(os[1..], os[0].number)
  }

  function PayloadOctets(payload: Option<bytes>): nat { if payload.None? then 0 else 1 + |payload.value| }

  lemma FieldSize(nibble: nat, tail: bytes)
    requires nibble < 16
    ensures var f := ReadField(nibble, tail);
            f.Field? ==>
              && |tail| == |f.tail| + (if nibble <= 12 then 0 else nibble - 12)
              && FieldOctets(f.value) == (if nibble <= 12 then 0 else nibble - 12)
              && (nibble <= 12 ==> f.value == nibble)
  {
    ReadFieldShrinks(nibble, tail);
    if nibble == 13 && tail != [] {
      assert tail[0] < 256;
    }
  }

  lemma HeaderSize(rest: bytes)
    requires rest != []
    ensures var h := ReadHeader(rest);
            h.Header? ==> |rest| >= MovingOctets(h.delta) + FieldOctets(h.length) + |h.tail|
  {
    hide ReadField;
    FieldSize(rest[0] as int / 16, rest[1..]);
    var f := ReadField(rest[0] as int / 16, rest[1..]);
    if f.Field? {
      FieldSize(rest[0] as int % 16, f.tail);
    }
  }

  lemma StoredWeight(number: nat, length: nat, taken: bytes, before: seq<StoredOption>)
    requires |taken| <= length
    ensures var step := ReadOption(number, length, taken, before);
            step.Stored? ==> Weight(step.option.value) <= |taken|
  {
    hide Lookup;
    WordsOfFold(taken);
    ByteLenIsLeast(Fold(taken), |taken|);
  }

  /** However options are found, by way of skipped ones or not, they take their cost in octets. */
  lemma {:induction false} Counting(rest: bytes, current: nat, before: seq<StoredOption>,
                                    os: seq<StoredOption>, payload: Option<bytes>)
    requires ParseBody(rest, current, before) == Body(before + os, payload)
    ensures |rest| >= Cost(os, current) + PayloadOctets(payload)
    decreases |rest|
  {
    hide ReadHeader, ReadOption, Weight, Lookup;
    if rest == [] || rest[0] == PAYLOAD_MARKER {
      assert before + os == before;
      assert os == [];
    } else {
      hide ParseBody;
      UnfoldParseBody(rest, current, before);
      HeaderSize(rest);
      var h := ReadHeader(rest);
      var number, taken, after := current + h.delta, Take(h.tail, h.length), Drop(h.tail, h.length);
      FailedIsNoBody(number, h.length, taken, before);
      match ReadOption(number, h.length, taken, before)
      case Failed(_) => assert false;
      case Skipped =>
        Counting(after, number, before, os, payload);
      case Stored(o) =>
        StoredNumber(number, h.length, taken, before);
        StoredWeight(number, h.length, taken, before);
        ParsedOptionsStay(after, number, before + [o]);
        assert (before + os)[|before|] == o && os != [] && os[0] == o;
        assert before + [o] + os[1..] == before + os;
        Counting(after, number, before + [o], os[1..], payload);
    }
  }

  /** Integers and octets: at most one padding octet an option above what it costs. */
  lemma NativeOptionSize(o: StoredOption, last: nat, offset: nat, order: ByteOrder)
    requires FieldsFit(o, last) && !o.value.Str?
    ensures |ValueBytes(o.value)| == Length(o.value) == Weight(o.value)
    ensures |NativeOption(o, last, offset, order)|
         <= MovingOctets(o.number - last) + FieldOctets(Weight(o.value)) + Weight(o.value) + 1
  {
    hide NativeExtended, Extended;
    PlainLength(o.value);
    var delta, length := o.number - last, Length(o.value);
    NativeFieldSize(delta, offset + 1, order);
    NativeFieldSize(length, offset + 1 + |NativeExtended(delta, offset + 1, order)|, order);
  }

  lemma {:induction false} NativeOptionsSize(os: seq<StoredOption>, last: nat, offset: nat, order: ByteOrder)
    requires AllFit(os, last) && forall i :: 0 <= i < |os| ==> !os[i].value.Str?
    ensures |NativeOptions(os, last, offset, order)| <= Cost(os, last) + |os|
  {
    hide NativeOption, Weight, FieldOctets, MovingOctets;
    if os != [] {
      NativeOptionSize(os[0], last, offset, order);
      NativeOptionsSize(os[1..], os[0].number, offset + |NativeOption(os[0], last, offset, order)|, order);
    }
  }

  /** The registered numbers are so spaced that only three are reached by a two-octet delta. */
  lemma WideDeltas(last: nat, number: nat)
    requires Lookup(last).Some? && Lookup(number).Some? && number >= last + 269
    ensures number in {2049, 2053, 65524} && number - last <= MAX_FIELD
    ensures var w := number - last - 269;
            && 1522 <= w < 0x1_0000
            && var s := w % 256 * 256 + w / 256;
               s > w || w - s >= 269
    ensures number == 2049 ==>
              var w := number - last - 269;
              last <= 258 && (w % 256 / 16 > 12 || w % 256 % 16 > 0) && w / 256 < 16 && w / 256 % 16 > 0
  {
    assert last in {0, 1, 2, 3, 4, 5, 6, 7, 8, 11, 12, 14, 15, 17, 20, 23, 27, 28, 35, 39, 60, 258, 2049, 2053, 65524};
    assert number in {2049, 2053, 65524};
  }

  function Rank(number: nat): nat { if number <= 2049 then 0 else if number <= 2053 then 1 else 2 }

  /** The last three numbers are not repeatable and hold no text, so at most two options follow the first of them. */
  lemma HighOptions(os: seq<StoredOption>)
    requires os != [] && os[0].number in {2049, 2053, 65524} && Sorted(os) && NoForbiddenRepeat(os)
    requires forall i :: 0 <= i < |os| ==> WellTyped(os[i])
    ensures forall i :: 0 <= i < |os| ==> !os[i].value.Str?
    ensures |os| <= 3
    ensures |os| == 3 ==> os[0].number == 2049 && os[1].number == 2053
    ensures RereadAll(os) == os
  {
    forall i | 0 <= i < |os|
      ensures os[i].number in {2049, 2053, 65524} && !os[i].value.Str? && !Lookup(os[i].number).value.repeatable
    {
      HighNumber(os[i]);
    }
    hide Lookup, WellTyped;
    assert forall i, j :: 0 <= i < j < |os| ==> os[i].number < os[j].number;
    assert |os| > 1 ==> os[0].number < os[1].number;
    assert |os| > 2 ==> os[1].number < os[2].number;
    for i := 0 to |os|
      invariant forall j :: 0 <= j < i ==> Rank(os[j].number) >= j
    {
      assert i > 0 ==> os[i - 1].number < os[i].number;
    }
    assert |os| > 0 ==> Rank(os[|os| - 1].number) >= |os| - 1;
    assert forall i :: 0 <= i < |os| ==> RereadOption(os[i]) == os[i];
  }

  lemma HighNumber(o: StoredOption)
    requires WellTyped(o) && o.number >= 2049
    ensures o.number in {2049, 2053, 65524} && !o.value.Str? && !Lookup(o.number).value.repeatable
  {
  }

  /** A number that is read too small: what is left does not suffice, unless a lower option is stored. */
  lemma TooSmallIsLost(rest: bytes, last: nat, before: seq<StoredOption>, h: Header, os: seq<StoredOption>,
                       payload: Option<bytes>)
    requires rest != [] && rest[0] != PAYLOAD_MARKER && ReadHeader(rest) == h && h.Header?
    requires os != [] && last + h.delta < os[0].number && RereadAll(os) == os
    requires |Drop(h.tail, h.length)| < Cost(os, last + h.delta) + PayloadOctets(payload)
    ensures Lost(ParseBody(rest, last, before), before, os, payload)
  {
    hide ParseBody, ReadHeader, ReadOption, Reread, Cost;
    var number, taken, after := last + h.delta, Take(h.tail, h.length), Drop(h.tail, h.length);
    UnfoldParseBody(rest, last, before);
    StoredNumber(number, h.length, taken, before);
    FailedIsNoBody(number, h.length, taken, before);
    match ReadOption(number, h.length, taken, before)
    case Failed(_) =>
    case Stored(o) =>
      OtherOptionIsLost(after, number, before, o, os, payload);
    case Skipped =>
      if !Lost(ParseBody(rest, last, before), before, os, payload) {
        Counting(after, number, before, os, payload);
      }
  }

  /** The octets behind an option with a misread delta. */
  ghost predicate Misread(os: seq<StoredOption>, last: nat, offset: nat, order: ByteOrder) {
    && os != [] && AllFit(os, last) && Sorted(os) && NoForbiddenRepeat(os)
    && (forall i :: 0 <= i < |os| ==> WellTyped(os[i]))
    && Lookup(last).Some? && os[0].number >= last + 269
    && !(Aligned(os[0].number - last, offset + 1) && Announced(os[0].number - last, order) == os[0].number - last)
  }

  lemma MisreadParts(os: seq<StoredOption>, last: nat, offset: nat, order: ByteOrder, behind: nat)
    requires Misread(os, last, offset, order)
    ensures os != [] && Lookup(last).Some? && Lookup(os[0].number).Some? && os[0].number >= last + 269
    ensures !(Aligned(os[0].number - last, offset + 1) && Announced(os[0].number - last, order) == os[0].number - last)
    ensures FieldsFit(os[0], last) && AllFit(os[1..], os[0].number) && |os| <= 3 && RereadAll(os) == os
    ensures |ValueBytes(os[0].value)| == Length(os[0].value) == Weight(os[0].value)
    ensures |NativeOptions(os[1..], os[0].number, behind, order)| <= Cost(os[1..], os[0].number) + |os| - 1
    ensures |os| == 3 ==> os[0].number == 2049 && os[1].number == 2053
  {
    WideDeltas(last, os[0].number);
    HighOptions(os);
    NativeOptionSize(os[0], last, offset, order);
    NativeOptionsSize(os[1..], os[0].number, behind, order);
  }

  lemma PayloadSectionSize(payload: Option<bytes>)
    ensures |PayloadSection(payload)| == PayloadOctets(Reported(payload))
  {
  }

  /** The octets that follow an option with a misread delta. */
  predicate Follows(tail: bytes, os: seq<StoredOption>, payload: Option<bytes>)
    requires os != []
  {
    && |tail| <= Cost(os[1..], os[0].number) + |os| - 1 + PayloadOctets(payload)
    && (|os| == 3 ==> tail != [] && tail[0] / 16 == 4)
  }

  lemma TailFollows(os: seq<StoredOption>, last: nat, offset: nat, order: ByteOrder, behind: nat,
                    payload: Option<bytes>)
    requires Misread(os, last, offset, order)
    ensures AllFit(os[1..], os[0].number)
    ensures Follows(NativeOptions(os[1..], os[0].number, behind, order) + PayloadSection(payload), os,
            Reported(payload))
  {
    assert os != [];
    hide ValueBytes, Length, PayloadSection, NativeOptions, Cost, Misread, AllFit;
    MisreadParts(os, last, offset, order, behind);
    PayloadSectionSize(payload);
    if |os| == 3 {
      HighTail(os[1..], os[0].number, behind, order, PayloadSection(payload));
    }
  }

  lemma CostOfFirst(os: seq<StoredOption>, current: nat)
    requires os != [] && os[0].number >= current + 269
    ensures Cost(os, current)
         == 3 + FieldOctets(Weight(os[0].value)) + Weight(os[0].value) + Cost(os[1..], os[0].number)
  {
  }

  /** An aligned delta in the wrong order. */
  lemma SwappedDeltaIsLost(os: seq<StoredOption>, last: nat, offset: nat, order: ByteOrder, tail: bytes,
                           payload: Option<bytes>, before: seq<StoredOption>)
    requires Misread(os, last, offset, order) && Aligned(os[0].number - last, offset + 1)
    requires FieldsFit(os[0], last) && Follows(tail, os, payload)
    ensures Lost(ParseBody(NativeOption(os[0], last, offset, order) + tail, last, before), before, os, payload)
  {
    hide ParseBody, ReadHeader, Lookup, NativeOption, ValueBytes, Length, Lost, Misread, AllFit,
      Cost, Weight, RereadAll, NativeOptions, Announced, Extended, NativeExtended, FieldOctets;
    MisreadParts(os, last, offset, order, 0);
    var o := os[0];
    var delta, first := o.number - last, NativeOption(o, last, offset, order);
    SwappedNumber(last, o.number, order);
    NativeFieldSize(delta, offset + 1, order);
    ReadAlignedHeader(o, last, offset, order, tail);
    NativeParts(o, last, offset, order, tail);
    var read := Announced(delta, order);
    var h := Header(read, Announced(Length(o.value), order), ValueBytes(o.value) + tail);
    if last + read > o.number {
      OvershootIsLost(first + tail, last, before, h, os, payload);
    } else {
      CostOfFirst(os, last + read);
      TooSmallIsLost(first + tail, last, before, h, os, payload);
    }
  }

  lemma SwappedNumber(last: nat, number: nat, order: ByteOrder)
    requires Lookup(last).Some? && Lookup(number).Some? && number >= last + 269
    ensures number - last <= MAX_FIELD
    ensures var read := Announced(number - last, order);
            read == number - last || read > number - last || read + 269 <= number - last
  {
    hide Lookup;
    WideDeltas(last, number);
  }

  /** An option with a padded delta: the second octet of the delta is taken for what follows. */
  lemma ReadPaddedDelta(o: StoredOption, last: nat, offset: nat, order: ByteOrder, tail: bytes)
    requires FieldsFit(o, last) && !Aligned(o.number - last, offset + 1)
    ensures var w, length, b := o.number - last - 269, Length(o.value), ValueBytes(o.value);
            var h := ReadHeader(NativeOption(o, last, offset, order) + tail);
            && h.Header? && h.delta == First(w, order) as int + 269
            && (if length <= 12 then h.length == length && h.tail == [Second(w, order)] + (b + tail)
                else h.length >= 13 && |h.tail| <= 1 + |b| + |tail|)
  {
    hide NativeOption, NativeExtended, ReadField, Announced, ValueBytes, Length;
    var delta, length, b := o.number - last, Length(o.value), ValueBytes(o.value);
    NativeParts(o, last, offset, order, tail);
    NativeFieldSize(delta, offset + 1, order);
    var lengthAt := offset + 4;
    var ext := NativeExtended(length, lengthAt, order);
    var c := Second(delta - 269, order);
    NativeFieldSize(length, lengthAt, order);
    ReadNativeField(delta, offset + 1, order, ext + (b + tail));
    ReadNativeField(length, lengthAt, order, b + tail);
    ReadBehindPadding(length, c, ext, b + tail);
  }

  lemma ReadBehindPadding(length: nat, c: byte, ext: bytes, tail: bytes)
    requires length <= MAX_FIELD && |ext| == |Extended(length)|
    ensures var f := ReadField(Nibble(length).value, [c] + (ext + tail));
            && f.Field?
            && (if length <= 12 then f.value == length && f.tail == [c] + tail
                else f.value >= 13 && |f.tail| <= 1 + |tail|)
  {
    var whole := [c] + (ext + tail);
    FieldSize(Nibble(length).value, whole);
    if length <= 12 {
      assert ext + tail == tail;
    }
  }

  lemma PaddedDeltaIsLost(os: seq<StoredOption>, last: nat, offset: nat, order: ByteOrder, tail: bytes,
                          payload: Option<bytes>, before: seq<StoredOption>)
    requires Misread(os, last, offset, order) && !Aligned(os[0].number - last, offset + 1)
    requires FieldsFit(os[0], last) && Follows(tail, os, payload)
    ensures Lost(ParseBody(NativeOption(os[0], last, offset, order) + tail, last, before), before, os, payload)
  {
    hide ParseBody, ReadHeader, Lookup, NativeOption, ValueBytes, Length, Lost, Misread, AllFit, Cost, Weight,
      RereadAll, NativeOptions;
    MisreadParts(os, last, offset, order, 0);
    var o := os[0];
    var first := NativeOption(o, last, offset, order);
    WideDeltas(last, o.number);
    ReadPaddedDelta(o, last, offset, order, tail);
    NativeParts(o, last, offset, order, tail);
    var h := ReadHeader(first + tail);
    CostOfFirst(os, last + h.delta);
    if |os| < 3 || Length(o.value) > 0 {
      TooSmallIsLost(first + tail, last, before, h, os, payload);
    } else {
      assert ValueBytes(o.value) + tail == tail;
      LeftOverIsLost(first + tail, last, before, h.delta, Second(o.number - last - 269, order), tail, os, payload);
    }
  }

  lemma HighTail(os: seq<StoredOption>, last: nat, offset: nat, order: ByteOrder, section: bytes)
    requires os != [] && AllFit(os, last) && os[0].number == last + 4
    ensures var tail := NativeOptions(os, last, offset, order) + section;
            tail != [] && tail[0] / 16 == 4
  {
    hide ValueBytes, Length, NativeExtended;
  }

  /**
    A padded delta of an integer 0, with two options behind it: the octet left over is read as one
    more header, and that takes what would be missing.
   */
  lemma LeftOverIsLost(rest: bytes, last: nat, before: seq<StoredOption>, delta: nat, c: byte, tail: bytes,
                       os: seq<StoredOption>, payload: Option<bytes>)
    requires rest != [] && rest[0] != PAYLOAD_MARKER && ReadHeader(rest) == Header(delta, 0, [c] + tail)
    requires |os| == 3 && os[0].number == 2049 && RereadAll(os) == os && last <= 258 && delta <= 255 + 269
    requires tail != [] && tail[0] / 16 == 4 && (c / 16 > 12 || c % 16 > 0)
    requires |tail| <= Cost(os[1..], 2049) + 2 + PayloadOctets(payload)
    ensures Lost(ParseBody(rest, last, before), before, os, payload)
  {
    hide ParseBody, ReadHeader, ReadOption, Cost, Reread, RereadAll;
    var number := last + delta;
    UnfoldParseBody(rest, last, before);
    assert Take([c] + tail, 0) == [] && Drop([c] + tail, 0) == [c] + tail;
    StoredNumber(number, 0, [], before);
    FailedIsNoBody(number, 0, [], before);
    match ReadOption(number, 0, [], before)
    case Failed(_) =>
    case Stored(o) => OtherOptionIsLost([c] + tail, number, before, o, os, payload);
    case Skipped => LeftOverHeader(number, before, c, tail, os, payload);
  }

  lemma LeftOverHeader(number: nat, before: seq<StoredOption>, c: byte, tail: bytes,
                       os: seq<StoredOption>, payload: Option<bytes>)
    requires |os| == 3 && os[0].number == 2049 && RereadAll(os) == os && number <= 782
    requires tail != [] && tail[0] / 16 == 4 && (c / 16 > 12 || c % 16 > 0)
    requires |tail| <= Cost(os[1..], 2049) + 2 + PayloadOctets(payload)
    ensures Lost(ParseBody([c] + tail, number, before), before, os, payload)
  {
    hide ParseBody, Cost, Reread;
    var rest := [c] + tail;
    if c == PAYLOAD_MARKER {
      MarkerIsLost(tail, number, before, os, payload);
    } else {
      var h := ReadHeader(rest);
      LeftOverSize(c, tail);
      UnfoldParseBody(rest, number, before);
      if h.Header? {
        if c / 16 == 14 {
          OvershootIsLost(rest, number, before, h, os, payload);
        } else {
          CostOfFirst(os, number + h.delta);
          TooSmallIsLost(rest, number, before, h, os, payload);
        }
      }
    }
  }

  lemma MarkerIsLost(tail: bytes, number: nat, before: seq<StoredOption>, os: seq<StoredOption>, payload: Option<bytes>)
    requires os != []
    ensures Lost(ParseBody([PAYLOAD_MARKER] + tail, number, before), before, os, payload)
  {
    assert |before + RereadAll(os)| > |before|;
  }

  lemma LeftOverSize(c: byte, tail: bytes)
    requires tail != [] && tail[0] / 16 == 4 && (c / 16 > 12 || c % 16 > 0)
    ensures var h := ReadHeader([c] + tail);
            h.Header? ==>
              && (c / 16 == 14 ==> h.delta >= 269 + 0x4000)
              && (c / 16 != 14 ==> h.delta <= 268)
              && |Drop(h.tail, h.length)| <= |tail| - 1
  {
    hide ReadField;
    var rest := [c] + tail;
    assert rest[1..] == tail && rest[0] == c;
    FieldSize(c as int / 16, tail);
    var f := ReadField(c as int / 16, tail);
    WideField(c as int / 16, tail);
    if f.Field? {
      FieldSize(c as int % 16, f.tail);
    }
  }

  lemma WideField(nibble: nat, tail: bytes)
    requires tail != [] && tail[0] / 16 == 4 && nibble < 16
    ensures var f := ReadField(nibble, tail);
            && (nibble == 14 && f.Field? ==> f.value >= 269 + 0x4000)
            && (nibble != 14 && f.Field? ==> f.value <= 268)
  {
    if nibble == 14 && |tail| >= 2 {
      assert tail[..2] == [tail[0], tail[1]];
      FoldTwo(tail[0], tail[1]);
    }
  }

  // -------------------------------------------------------------- both directions

  /** The first option is found. */
  predicate FirstReadsBack(o: StoredOption, last: nat, offset: nat, order: ByteOrder, ending: bool)
    requires FieldsFit(o, last)
  {
    var delta, announced, octets := o.number - last, Announced(Length(o.value), order), |ValueBytes(o.value)|;
    && Aligned(delta, offset + 1) && Announced(delta, order) == delta
    && Aligned(Length(o.value), offset + 1 + |Extended(delta)|)
    && (announced == octets || (announced > octets && ending))
  }

  lemma FirstIsLost(os: seq<StoredOption>, last: nat, offset: nat, order: ByteOrder, payload: Option<bytes>,
                    before: seq<StoredOption>)
    requires os != [] && AllFit(os, last)
    requires !FirstReadsBack(os[0], last, offset, order, os[1..] == [] && PayloadSection(payload) == [])
    requires NoForbiddenRepeat(before + os) && Sorted(os) && Lookup(last).Some?
    requires forall i :: 0 <= i < |os| ==> WellTyped(os[i])
    ensures Lost(ParseBody(NativeOptions(os, last, offset, order) + PayloadSection(payload), last, before),
                 before, os, Reported(payload))
  {
    hide ParseBody, ReadHeader, Lookup, NativeOption, PayloadSection, ValueBytes, Length, Lost, PrintOption,
      NativeOptions, Extended, HasKind, RereadAll, Announced, Aligned, NoForbiddenRepeat, Reread, Follows, Sorted;
    var o := os[0];
    var delta, length := o.number - last, Length(o.value);
    var first := NativeOption(o, last, offset, order);
    var tail := NativeOptions(os[1..], o.number, offset + |first|, order) + PayloadSection(payload);
    NativeUnfolds(os, last, offset, order, PayloadSection(payload));
    if !(Aligned(delta, offset + 1) && Announced(delta, order) == delta) {
      DeltaIsMisread(os, last, offset, order, before);
      TailFollows(os, last, offset, order, offset + |first|, payload);
      if Aligned(delta, offset + 1) {
        SwappedDeltaIsLost(os, last, offset, order, tail, Reported(payload), before);
      } else {
        PaddedDeltaIsLost(os, last, offset, order, tail, Reported(payload), before);
      }
    } else if !Aligned(length, offset + 1 + |Extended(delta)|) {
      PaddedLengthIsLost(os, last, offset, order, payload, before);
    } else {
      SomethingFollows(os[1..], o.number, offset + |first|, order, payload);
      WrongLengthIsLost(os, last, offset, order, tail, before, Reported(payload));
    }
  }

  lemma {:induction false} NotReadingBack(os: seq<StoredOption>, last: nat, offset: nat, order: ByteOrder,
                                          payload: Option<bytes>, before: seq<StoredOption>)
    requires AllFit(os, last) && !ReadsBack(os, last, offset, order, PayloadSection(payload) != [])
    requires NoForbiddenRepeat(before + os) && Sorted(os) && Lookup(last).Some?
    requires forall i :: 0 <= i < |os| ==> WellTyped(os[i])
    ensures Lost(ParseBody(NativeOptions(os, last, offset, order) + PayloadSection(payload), last, before),
                 before, os, Reported(payload))
  {
    hide ParseBody, Lookup, NativeOption, PayloadSection, ValueBytes, Length, Lost, PrintOption, NativeOptions,
      Extended, HasKind, RereadAll, Announced, Aligned, NoForbiddenRepeat, Reread, Sorted, FieldsFit, ReadsBack;
    NothingIsFound(last, offset, order, PayloadSection(payload) != []);
    var o := os[0];
    if !FirstReadsBack(o, last, offset, order, os[1..] == [] && PayloadSection(payload) == []) {
      FirstIsLost(os, last, offset, order, payload, before);
    } else {
      var first := NativeOption(o, last, offset, order);
      var tail := NativeOptions(os[1..], o.number, offset + |first|, order) + PayloadSection(payload);
      NativeUnfolds(os, last, offset, order, PayloadSection(payload));
      RestIsBad(os, last, offset, order, PayloadSection(payload) != []);
      NativeSize(o, last, offset, order);
      NotYetIn(before, os);
      ParseNativeOption(o, last, offset, order, tail, before);
      RepeatOfReread(before, os);
      RestIsSorted(os);
      NotReadingBack(os[1..], o.number, offset + |first|, order, payload, before + [RereadOption(o)]);
      RereadRest(before, os);
      SameLost(ParseBody(first + tail, last, before), before + [RereadOption(o)], os[1..], before, os,
          Reported(payload));
    }
  }

  lemma NativeUnfolds(os: seq<StoredOption>, last: nat, offset: nat, order: ByteOrder, section: bytes)
    requires os != [] && AllFit(os, last)
    ensures var first := NativeOption(os[0], last, offset, order);
            NativeOptions(os, last, offset, order) + section
            == first + (NativeOptions(os[1..], os[0].number, offset + |first|, order) + section)
  {
    hide NativeOption;
  }

  lemma NothingIsFound(last: nat, offset: nat, order: ByteOrder, payload: bool)
    ensures ReadsBack([], last, offset, order, payload)
  {
  }

  lemma RestIsBad(os: seq<StoredOption>, last: nat, offset: nat, order: ByteOrder, payload: bool)
    requires os != [] && AllFit(os, last) && !ReadsBack(os, last, offset, order, payload)
    requires FirstReadsBack(os[0], last, offset, order, os[1..] == [] && !payload)
    ensures Announced(Length(os[0].value), order) == |ValueBytes(os[0].value)|
    ensures !ReadsBack(os[1..], os[0].number, offset + |PrintOption(os[0], last)|, order, payload)
  {
    hide PrintOption, ValueBytes, Length, Extended, Announced, Aligned;
  }

  lemma DeltaIsMisread(os: seq<StoredOption>, last: nat, offset: nat, order: ByteOrder, before: seq<StoredOption>)
    requires os != [] && AllFit(os, last) && Sorted(os) && NoForbiddenRepeat(before + os) && Lookup(last).Some?
    requires forall i :: 0 <= i < |os| ==> WellTyped(os[i])
    requires !(Aligned(os[0].number - last, offset + 1) && Announced(os[0].number - last, order) == os[0].number - last)
    ensures Misread(os, last, offset, order)
  {
    hide Lookup, AllFit, NoForbiddenRepeat, Sorted, WellTyped;
    assert FieldsFit(os[0], last) by { FirstFits(os, last); }
    TailOfRepeat(before, os);
  }

  lemma FirstFits(os: seq<StoredOption>, last: nat)
    requires os != [] && AllFit(os, last)
    ensures FieldsFit(os[0], last)
  {
  }

  lemma RestIsSorted(os: seq<StoredOption>)
    requires os != [] && Sorted(os)
    ensures Sorted(os[1..])
  {
  }

  lemma RereadRest(before: seq<StoredOption>, os: seq<StoredOption>)
    requires os != []
    ensures before + [RereadOption(os[0])] + RereadAll(os[1..]) == before + RereadAll(os)
  {
  }

  lemma TailOfRepeat(before: seq<StoredOption>, os: seq<StoredOption>)
    requires NoForbiddenRepeat(before + os)
    ensures NoForbiddenRepeat(os)
  {
    hide Lookup;
    forall i, j | 0 <= i < j < |os| && os[i].number == os[j].number
      ensures Lookup(os[i].number).Some? && Lookup(os[i].number).value.repeatable
    {
      assert (before + os)[|before| + i] == os[i] && (before + os)[|before| + j] == os[j];
    }
  }

  lemma SomethingFollows(os: seq<StoredOption>, last: nat, offset: nat, order: ByteOrder, payload: Option<bytes>)
    requires AllFit(os, last)
    ensures NativeOptions(os, last, offset, order) + PayloadSection(payload) == []
       <==> os == [] && PayloadSection(payload) == []
  {
    hide PayloadSection, ValueBytes, Length;
  }

  /** The body of a well-formed message is read back if and only if every option is found. */
  lemma NativeBodyReadsBack(options: seq<StoredOption>, payload: Option<bytes>, order: ByteOrder)
    requires WellFormed(options)
    ensures var os := SortByNumber(options);
            && AllFit(os, 0) && NativeBody(options, payload, order).Ok?
            && (ParseBody(NativeBody(options, payload, order).value, 0, []) == Body(RereadAll(os), Reported(payload))
                <==> ReadsBack(os, 0, 0, order, PayloadSection(payload) != []))
  {
    hide ParseBody, SortByNumber, NativeOptions, ReadsBack, RereadAll, PayloadSection, WellTyped, Lookup, WellFormed,
      NoForbiddenRepeat, AllFit, Sorted;
    var os := SortByNumber(options);
    SortIsStable(options);
    SortKeepsWellFormed(options);
    TypedOptions(os);
    assert [] + os == os && [] + RereadAll(os) == RereadAll(os);
    assert Lookup(0).Some? by { ReservedIsRegistered(); }
    if ReadsBack(os, 0, 0, order, PayloadSection(payload) != []) {
      ReadingBack(os, 0, 0, order, payload, []);
    } else {
      NotReadingBack(os, 0, 0, order, payload, []);
    }
  }

  lemma ReservedIsRegistered()
    ensures Lookup(0).Some?
  {
  }

  /** No option needs a two-octet field. */
  predicate Narrow(os: seq<StoredOption>, last: nat) {
    os == [] || (last <= os[0].number <= last + 268 && Length(os[0].value) <= 268 && Narrow(os[1..], os[0].number))
  }

  lemma {:induction false} NarrowReadsBack(os: seq<StoredOption>, last: nat, offset: nat, order: ByteOrder,
                                           payload: bool)
    requires Narrow(os, last) && AllPlain(os)
    ensures AllFit(os, last) && ReadsBack(os, last, offset, order, payload)
  {
    if os != [] {
      PlainLength(os[0].value);
      assert forall i :: 0 <= i < |os[1..]| ==> os[1..][i] == os[i + 1];
      NarrowReadsBack(os[1..], os[0].number, offset + |PrintOption(os[0], last)|, order, payload);
    }
  }
}
