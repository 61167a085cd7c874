/** Options and payload: the part of a message that the UDP and TCP serializers share. */
module BodyCodec {

  import opened Wrappers
  import opened Bytes
  import opened OptionRegistry
  import opened Utf8
  import opened OptionWire
  import opened OptionOrder

  const PAYLOAD_MARKER: byte := 0xFF

  // ---------------------------------------------------------------- printing

  predicate FieldsFit(o: StoredOption, last: nat) {
    && last <= o.number
    && o.number - last <= MAX_FIELD
    && Length(o.value) <= MAX_FIELD
  }

  function PrintOption(o: StoredOption, last: nat): (b: bytes)
    requires FieldsFit(o, last)
    ensures |b| > 0 && b[0] != PAYLOAD_MARKER
  {
    var delta := o.number - last;
    var length := Length(o.value);
    [Nibble(delta).value * 16 + Nibble(length).value] + (Extended(delta) + (Extended(length) + ValueBytes(o.value)))
  }

  predicate AllFit(os: seq<StoredOption>, last: nat) {
    os == [] || (FieldsFit(os[0], last) && AllFit(os[1..], os[0].number))
  }

  function PrintOptions(os: seq<StoredOption>, last: nat): bytes
    requires AllFit(os, last)
  {
    if os == [] then [] else PrintOption(os[0], last) + PrintOptions(os[1..], os[0].number)
  }

  function PayloadSection(payload: Option<bytes>): bytes {
    if payload.None? || payload.value == [] then [] else [PAYLOAD_MARKER] + payload.value
  }

  /** Raised when a delta or a length does not fit its extended field. */
  function PrintBody(options: seq<StoredOption>, payload: Option<bytes>): Result<bytes> {
    var os := SortByNumber(options);
    if AllFit(os, 0) then Ok(PrintOptions(os, 0) + PayloadSection(payload)) else Raised
  }

  lemma {:induction false} PrintOptionsSnoc(os: seq<StoredOption>, o: StoredOption, last: nat)
    ensures var end := if os == [] then last else os[|os| - 1].number;
            && (AllFit(os + [o], last) <==> AllFit(os, last) && FieldsFit(o, end))
            && (AllFit(os + [o], last) ==> PrintOptions(os + [o], last) == PrintOptions(os, last) + PrintOption(o, end))
  {
    hide PrintOption, FieldsFit;
    if os == [] {
      assert [o][1..] == [];
    } else {
      assert (os + [o])[1..] == os[1..] + [o];
      PrintOptionsSnoc(os[1..], o, os[0].number);
    }
  }

  /** One round of the serializer's loop: header byte, extended fields, value. */
  method WriteOption(option: StoredOption, lastOptionNumber: nat) returns (values: Result<bytes>)
    requires lastOptionNumber <= option.number
    ensures values == if FieldsFit(option, lastOptionNumber) then Ok(PrintOption(option, lastOptionNumber)) else Raised
  {
    hide Extended, Words, ByteLen;
    var optionDelta := option.number - lastOptionNumber;
    var optionLength := Length(option.value);
    var deltaNibble, lengthNibble := Nibble(optionDelta), Nibble(optionLength);
    if deltaNibble.None? || lengthNibble.None? {
      return Raised;
    }
    var out: bytes := [deltaNibble.value * 16 + lengthNibble.value];
    out := out + Extended(optionDelta);
    out := out + Extended(optionLength);
    var value: bytes := [];
    if optionLength > 0 {
      match option.value
      case Int(n) =>
        var words := IntToWords(n, optionLength);
        value := words.value;
      case Str(s) =>
        value := EncodeUtf8(s);
      case Raw(b) =>
        value := b;
    }
    assert value == ValueBytes(option.value);
    out := out + value;
    assert out == PrintOption(option, lastOptionNumber);
    values := Ok(out);
  }

  lemma PrintNoOptions()
    ensures AllFit([], 0) && PrintOptions([], 0) == []
  {
  }

  /** The serializer's loop over the sorted options. */
  method WriteBody(options: seq<StoredOption>, payload: Option<bytes>) returns (body: Result<bytes>)
    ensures body == PrintBody(options, payload)
  {
    hide SortByNumber, FieldsFit, PrintOption, WithNumber, AllFit, PrintOptions;
    var sorted := SortByNumber(options);
    SortIsStable(options);
    PrintNoOptions();
    var values: bytes := [];
    var lastOptionNumber: nat := 0;
    for i := 0 to |sorted|
      invariant AllFit(sorted[..i], 0)
      invariant values == PrintOptions(sorted[..i], 0)
      invariant lastOptionNumber == if i == 0 then 0 else sorted[i - 1].number
    {
      var option := sorted[i];
      assert sorted[..i + 1] == sorted[..i] + [option];
      PrintOptionsSnoc(sorted[..i], option, 0);
      var written := WriteOption(option, lastOptionNumber);
      if written.Raised? {
        if AllFit(sorted, 0) {
          AllFitPrefix(sorted, i + 1, 0);
        }
        return Raised;
      }
      values := values + written.value;
      lastOptionNumber := option.number;
    }
    assert sorted[..|sorted|] == sorted;
    if payload.Some? && |payload.value| > 0 {
      values := values + [PAYLOAD_MARKER] + payload.value;
    }
    assert values == PrintOptions(sorted, 0) + PayloadSection(payload);
    body := Ok(values);
  }

  lemma {:induction false} AllFitPrefix(os: seq<StoredOption>, i: nat, last: nat)
    requires i <= |os| && AllFit(os, last)
    ensures AllFit(os[..i], last)
  {
    if i > 0 {
      assert os[..i][1..] == os[1..][..i - 1];
      AllFitPrefix(os[1..], i - 1, os[0].number);
    }
  }

  // ----------------------------------------------------------------- parsing

  datatype Header = Header(delta: nat, length: nat, tail: bytes) | BadHeader | ShortHeader

  /** read_option_value_len_from_byte, on the octets from the header byte on. */
  function ReadHeader(rest: bytes): (h: Header)
    requires rest != []
    ensures h.Header? ==> |h.tail| < |rest| && h.length <= MAX_FIELD && h.delta <= MAX_FIELD
  {
    ReadFieldShrinks(rest[0] / 16, rest[1..]);
    match ReadField(rest[0] / 16, rest[1..])
    case BadField => BadHeader
    case ShortField => ShortHeader
    case Field(delta, tail) =>
      ReadFieldShrinks(rest[0] % 16, tail);
      match ReadField(rest[0] % 16, tail)
      case BadField => BadHeader
      case ShortField => ShortHeader
      case Field(length, tail') => Header(delta, length, tail')
  }

  /**
    BadRequest is the parser's own error, undecodable text included; Uncaught is an exception
    that no handler of the parser catches.
   */
  datatype Body = Body(options: seq<StoredOption>, payload: Option<bytes>) | BadRequest | Uncaught

  predicate AlreadyIn(number: nat, os: seq<StoredOption>) {
    exists i :: 0 <= i < |os| && os[i].number == number
  }

  function Take(s: bytes, n: nat): bytes { if n <= |s| then s[..n] else s }

  function Drop(s: bytes, n: nat): bytes { if n <= |s| then s[n..] else [] }

  /** The machine that runs the parser; nothing is assumed about it. */
  const Host: ByteOrder

  /** get_option_flags: the flag is read from the first octet of the packed number. */
  predicate Critical(number: nat)
    requires number < 0x1_0000
  {
    if number < 256 || Host == Little then number % 2 == 1 else number / 256 % 2 == 1
  }

  datatype Step = Stored(option: StoredOption) | Skipped | Failed(failure: Body)

  /** What one option of the datagram does to the message under construction. */
  function ReadOption(number: nat, length: nat, taken: bytes, os: seq<StoredOption>): Step {
    match Lookup(number)
    case None =>
      // a number above 16 bits cannot be packed
      if number >= 0x1_0000 || Critical(number) then Failed(BadRequest) else Skipped
    case Some(item) =>
      match ParseValue(item.kind, length, taken)
      case None => Failed(BadRequest)
      case Some(value) =>
        if !item.repeatable && AlreadyIn(number, os) then Failed(Uncaught)
        else Stored(CoapOption(number, value))
  }

  datatype Progress = More(rest: bytes, current: nat, os: seq<StoredOption>) | Done(body: Body)

  /** One round of the parser's loop, on the octets from an option header on. */
  function NextOption(rest: bytes, current: nat, os: seq<StoredOption>): (p: Progress)
    requires rest != [] && rest[0] != PAYLOAD_MARKER
    ensures p.More? ==> |p.rest| < |rest|
    ensures p.Done? ==> !p.body.Body?
  {
    match ReadHeader(rest)
    case BadHeader => Done(BadRequest)
    case ShortHeader => Done(Uncaught)
    case Header(delta, length, tail) =>
      match ReadOption(current + delta, length, Take(tail, length), os)
      case Failed(failure) => Done(failure)
      case Skipped => More(Drop(tail, length), current + delta, os)
      case Stored(option) => More(Drop(tail, length), current + delta, os + [option])
  }

  function ParseBody(rest: bytes, current: nat, os: seq<StoredOption>): Body
    decreases |rest|
  {
    if rest == [] then Body(os, None)
    else if rest[0] == PAYLOAD_MARKER then
      if |rest| == 1 then BadRequest else Body(os, Some(rest[1..]))
    else
      match NextOption(rest, current, os)
      case Done(body) => body
      case More(rest', current', os') => ParseBody(rest', current', os')
  }

  lemma UnfoldParseBody(rest: bytes, current: nat, os: seq<StoredOption>)
    requires rest != [] && rest[0] != PAYLOAD_MARKER
    ensures ParseBody(rest, current, os) ==
            match NextOption(rest, current, os)
            case Done(body) => body
            case More(rest', current', os') => ParseBody(rest', current', os')
  {
    hide NextOption;
  }

  /** The parser's loop; it ends because pos grows with every option. */
  method ReadBody(values: bytes) returns (body: Body)
    ensures body == ParseBody(values, 0, [])
  {
    hide ReadOption, ReadHeader;
    var pos: nat := 0;
    var currentOption: nat := 0;
    var options: seq<StoredOption> := [];
    while pos < |values|
      invariant ParseBody(values, 0, []) == ParseBody(Drop(values, pos), currentOption, options)
      decreases |values| - pos
    {
      var rest := values[pos..];
      if rest[0] != PAYLOAD_MARKER {
        hide ParseBody;
        UnfoldParseBody(rest, currentOption, options);
        var header := ReadHeader(rest);
        if header.BadHeader? {
          return BadRequest;
        }
        if header.ShortHeader? {
          return Uncaught;
        }
        TailIsSuffix(values, pos);
        currentOption := currentOption + header.delta;
        pos := |values| - |header.tail|;
        var step := ReadOption(currentOption, header.length, Take(header.tail, header.length), options);
        match step {
          case Failed(failure) => return failure;
          case Skipped =>
          case Stored(option) => options := options + [option];
        }
        pos := pos + header.length;
      } else {
        if |rest| == 1 {
          return BadRequest;
        }
        return Body(options, Some(rest[1..]));
      }
    }
    body := Body(options, None);
  }

  lemma TailIsSuffix(values: bytes, pos: nat)
    requires pos < |values|
    ensures var h := ReadHeader(values[pos..]);
            h.Header? ==>
              && h.tail == values[|values| - |h.tail|..]
              && Drop(values, |values| - |h.tail| + h.length) == Drop(h.tail, h.length)
  {
    hide ReadField;
    var rest := values[pos..];
    FieldTailIsSuffix(rest[0] / 16, rest[1..]);
    var h := ReadField(rest[0] / 16, rest[1..]);
    if h.Field? {
      FieldTailIsSuffix(rest[0] % 16, h.tail);
    }
  }

  lemma FieldTailIsSuffix(nibble: nat, tail: bytes)
    ensures var f := ReadField(nibble, tail);
            f.Field? ==> |f.tail| <= |tail| && f.tail == tail[|tail| - |f.tail|..]
  {
    hide Fold;
  }

  // -------------------------------------------------------------- round trip

  predicate WellTyped(o: StoredOption) {
    Lookup(o.number).Some? && HasKind(o.value, Lookup(o.number).value.kind)
  }

  /** Non-repeatable options occur at most once. */
  predicate NoForbiddenRepeat(os: seq<StoredOption>) {
    forall i, j :: 0 <= i < j < |os| && os[i].number == os[j].number
      ==> Lookup(os[i].number).Some? && Lookup(os[i].number).value.repeatable
  }

  predicate WellFormed(os: seq<StoredOption>) {
    && (forall i :: 0 <= i < |os| ==> WellTyped(os[i]) && Length(os[i].value) <= MAX_FIELD)
    && NoForbiddenRepeat(os)
  }

  /** Every text is ASCII. */
  predicate AllPlain(os: seq<StoredOption>) {
    forall i :: 0 <= i < |os| ==> Plain(os[i].value)
  }

  function RereadOption(o: StoredOption): StoredOption { o.(value := Reread(o.value)) }

  function RereadAll(os: seq<StoredOption>): (r: seq<StoredOption>)
    ensures |r| == |os|
    ensures forall i :: 0 <= i < |os| ==> r[i] == RereadOption(os[i])
  {
    seq(|os|, i requires 0 <= i < |os| => RereadOption(os[i]))
  }

  lemma RegisteredBelow2To16(number: nat)
    requires Lookup(number).Some?
    ensures number <= 65524
  {
  }

  lemma ReadPrintedHeader(o: StoredOption, last: nat, tail: bytes)
    requires FieldsFit(o, last)
    ensures ReadHeader(PrintOption(o, last) + tail)
         == Header(o.number - last, Length(o.value), ValueBytes(o.value) + tail)
  {
    var delta, length := o.number - last, Length(o.value);
    var whole := PrintOption(o, last) + tail;
    assert whole[1..] == Extended(delta) + (Extended(length) + (ValueBytes(o.value) + tail));
    ReadPrintedField(delta, Extended(length) + (ValueBytes(o.value) + tail));
    ReadPrintedField(length, ValueBytes(o.value) + tail);
    assert whole[0] / 16 == Nibble(delta).value && whole[0] % 16 == Nibble(length).value;
  }

  lemma ParseStored(rest: bytes, current: nat, os: seq<StoredOption>, delta: nat, length: nat, tail: bytes,
                    o: StoredOption)
    requires rest != [] && rest[0] != PAYLOAD_MARKER
    requires ReadHeader(rest) == Header(delta, length, tail)
    requires ReadOption(current + delta, length, Take(tail, length), os) == Stored(o)
    ensures ParseBody(rest, current, os) == ParseBody(Drop(tail, length), current + delta, os + [o])
  {
    hide ParseBody, ReadHeader, ReadOption;
    UnfoldParseBody(rest, current, os);
  }

  lemma ReadPrintedOption(o: StoredOption, os: seq<StoredOption>)
    requires WellTyped(o) && Plain(o.value)
    requires AlreadyIn(o.number, os) ==> Lookup(o.number).value.repeatable
    ensures |ValueBytes(o.value)| == Length(o.value)
    ensures ReadOption(o.number, Length(o.value), ValueBytes(o.value), os) == Stored(RereadOption(o))
  {
    ParsePrintedValue(Lookup(o.number).value.kind, o.value);
  }

  /** Parsing one printed option stores exactly that option and stops right behind it. */
  lemma ParsePrintedOption(o: StoredOption, last: nat, tail: bytes, os: seq<StoredOption>)
    requires FieldsFit(o, last) && WellTyped(o) && Plain(o.value)
    requires AlreadyIn(o.number, os) ==> Lookup(o.number).value.repeatable
    ensures ParseBody(PrintOption(o, last) + tail, last, os) == ParseBody(tail, o.number, os + [RereadOption(o)])
  {
    hide ParseBody, ReadHeader, ReadOption, Lookup, HasKind, PrintOption, Reread, Length, ValueBytes;
    ReadPrintedHeader(o, last, tail);
    ReadPrintedOption(o, os);
    var b := ValueBytes(o.value);
    assert Take(b + tail, |b|) == b && Drop(b + tail, |b|) == tail;
    ParseStored(PrintOption(o, last) + tail, last, os, o.number - last, Length(o.value), b + tail, RereadOption(o));
  }

  lemma {:induction false} ParsePrintedOptions(os: seq<StoredOption>, last: nat, tail: bytes, before: seq<StoredOption>)
    requires AllFit(os, last)
    requires AllPlain(os) && forall i :: 0 <= i < |os| ==> WellTyped(os[i])
    requires NoForbiddenRepeat(before + os)
    ensures ParseBody(PrintOptions(os, last) + tail, last, before)
         == ParseBody(tail, if os == [] then last else os[|os| - 1].number, before + RereadAll(os))
  {
    hide ParseBody, PrintOption, Lookup, HasKind, Plain;
    if os == [] {
      assert [] + tail == tail;
      assert before + RereadAll(os) == before;
    } else {
      var o := os[0];
      var after := PrintOptions(os[1..], o.number) + tail;
      assert PrintOptions(os, last) + tail == PrintOption(o, last) + after;
      if AlreadyIn(o.number, before) {
        var i :| 0 <= i < |before| && before[i].number == o.number;
        assert (before + os)[i] == before[i] && (before + os)[|before|] == o;
      }
      ParsePrintedOption(o, last, after, before);
      var next := before + [RereadOption(o)];
      RepeatOfReread(before, os);
      ParsePrintedOptions(os[1..], o.number, tail, next);
      assert next + RereadAll(os[1..]) == before + RereadAll(os);
    }
  }

  lemma RepeatOfReread(before: seq<StoredOption>, os: seq<StoredOption>)
    requires os != [] && NoForbiddenRepeat(before + os)
    ensures NoForbiddenRepeat(before + [RereadOption(os[0])] + os[1..])
  {
    var a, b := before + os, before + [RereadOption(os[0])] + os[1..];
    assert |a| == |b| && forall i :: 0 <= i < |a| ==> a[i].number == b[i].number;
  }

  lemma {:induction false} SortedOptionsFit(os: seq<StoredOption>, last: nat)
    requires Sorted(os) && (os != [] ==> last <= os[0].number)
    requires forall i :: 0 <= i < |os| ==> WellTyped(os[i]) && Length(os[i].value) <= MAX_FIELD
    ensures AllFit(os, last)
  {
    if os != [] {
      RegisteredBelow2To16(os[0].number);
      SortedOptionsFit(os[1..], os[0].number);
    }
  }

  lemma SortKeepsWellFormed(os: seq<StoredOption>)
    requires WellFormed(os)
    ensures WellFormed(SortByNumber(os))
  {
    var r := SortByNumber(os);
    SortIsStable(os);
    forall i | 0 <= i < |r| ensures WellTyped(r[i]) && Length(r[i].value) <= MAX_FIELD {
      assert r[i] in multiset(os);
    }
    forall i, j | 0 <= i < j < |r| && r[i].number == r[j].number
      ensures Lookup(r[i].number).Some? && Lookup(r[i].number).value.repeatable
    {
      TwiceFromFilter(r, i, j);
      TwiceInFilter(os, r[i].number);
    }
  }

  lemma {:induction false} TwiceInFilter(os: seq<StoredOption>, n: nat) 
    requires |WithNumber(os, n)| >= 2
    ensures exists i, j :: 0 <= i < j < |os| && os[i].number == os[j].number == n
  {
    var front := os[..|os| - 1];
    if os[|os| - 1].number == n {
      WithNumberMember(front, n);
      var o := WithNumber(front, n)[0];
      assert o in WithNumber(front, n);
      var i :| 0 <= i < |front| && front[i] == o;
      assert os[i].number == n;
    } else {
      TwiceInFilter(front, n);
      var i, j :| 0 <= i < j < |front| && front[i].number == front[j].number == n;
      assert os[i].number == os[j].number == n;
    }
  }

  lemma {:induction false} TwiceFromFilter(os: seq<StoredOption>, i: nat, j: nat)
    requires i < j < |os| && os[i].number == os[j].number
    ensures |WithNumber(os, os[i].number)| >= 2
  {
    var front := os[..|os| - 1];
    if j == |os| - 1 {
      WithNumberMember(front, os[i].number);
      assert front[i] in WithNumber(front, os[i].number);
    } else {
      TwiceFromFilter(front, i, j);
    }
  }

  lemma SortedBodyRoundTrip(os: seq<StoredOption>, payload: Option<bytes>)
    requires WellFormed(os) && Sorted(os) && AllPlain(os)
    ensures AllFit(os, 0)
    ensures ParseBody(PrintOptions(os, 0) + PayloadSection(payload), 0, [])
         == Body(RereadAll(os), if payload == Some([]) then None else payload)
  {
    hide ParseBody, PrintOptions, WellTyped, PayloadSection, Plain;
    SortedOptionsFit(os, 0);
    assert [] + os == os;
    ParsePrintedOptions(os, 0, PayloadSection(payload), []);
    assert [] + RereadAll(os) == RereadAll(os);
    ParsePayloadSection(payload, if os == [] then 0 else os[|os| - 1].number, RereadAll(os));
  }

  /** The option at i of the body is not the one at i of the list. */
  predicate DiffersAt(b: Body, os: seq<StoredOption>, i: nat)
    requires i < |os|
  {
    b.Body? ==> |b.options| > i && b.options[i] != os[i]
  }

  /** What has been parsed stays parsed. */
  lemma {:induction false} ParsedOptionsStay(rest: bytes, current: nat, os: seq<StoredOption>)
    ensures ParseBody(rest, current, os).Body? ==> os <= ParseBody(rest, current, os).options
    decreases |rest|
  {
    hide ReadHeader, ReadOption;
    if rest != [] && rest[0] != PAYLOAD_MARKER && NextOption(rest, current, os).More? {
      var p := NextOption(rest, current, os);
      ParsedOptionsStay(p.rest, p.current, p.os);
    }
  }

  /** Of a text with characters outside ASCII only a part is read, which is another text or none. */
  lemma ParseLongText(o: StoredOption, last: nat, tail: bytes, before: seq<StoredOption>)
    requires FieldsFit(o, last) && WellTyped(o) && !Plain(o.value)
    ensures var b := ParseBody(PrintOption(o, last) + tail, last, before);
            b.Body? ==> |b.options| > |before| && b.options[|before|] != o
  {
    hide ParseBody, ReadHeader, PrintOption, ParseValue, ValueBytes, Lookup;
    var length, value := Length(o.value), ValueBytes(o.value);
    var whole := PrintOption(o, last) + tail;
    ReadPrintedHeader(o, last, tail);
    LongTextIsLost(o.value);
    assert Take(value + tail, length) == value[..length];
    UnfoldParseBody(whole, last, before);
    var p := NextOption(whole, last, before);
    if p.More? {
      ParsedOptionsStay(p.rest, p.current, p.os);
      assert p.os[|before|] != o;
    }
  }

  /** Printed options are read wrongly from the first text on that is not ASCII. */
  lemma {:induction false} LongTextBreaks(os: seq<StoredOption>, last: nat, tail: bytes, before: seq<StoredOption>,
                                          i: nat)
    requires AllFit(os, last) && i < |os| && !Plain(os[i].value) && AllPlain(os[..i])
    requires forall j :: 0 <= j < |os| ==> WellTyped(os[j])
    requires NoForbiddenRepeat(before + os)
    ensures var b := ParseBody(PrintOptions(os, last) + tail, last, before);
            b.Body? ==> |b.options| > |before| + i && b.options[|before| + i] != os[i]
  {
    hide ParseBody, PrintOption, Lookup, HasKind, Plain;
    var o := os[0];
    var after := PrintOptions(os[1..], o.number) + tail;
    assert PrintOptions(os, last) + tail == PrintOption(o, last) + after;
    if i == 0 {
      ParseLongText(o, last, after, before);
    } else {
      assert Plain(o.value) by { assert os[..i][0] == o; }
      if AlreadyIn(o.number, before) {
        var k :| 0 <= k < |before| && before[k].number == o.number;
        assert (before + os)[k] == before[k] && (before + os)[|before|] == o;
      }
      ParsePrintedOption(o, last, after, before);
      RepeatOfReread(before, os);
      assert os[1..][..i - 1] == os[..i][1..];
      LongTextBreaks(os[1..], o.number, tail, before + [RereadOption(o)], i - 1);
    }
  }

  lemma {:induction false} FirstLongText(os: seq<StoredOption>) returns (i: nat)
    requires !AllPlain(os)
    ensures i < |os| && !Plain(os[i].value) && AllPlain(os[..i])
  {
    hide Plain;
    if AllPlain(os[..|os| - 1]) {
      i := |os| - 1;
    } else {
      i := FirstLongText(os[..|os| - 1]);
      assert os[..|os| - 1][..i] == os[..i];
    }
  }

  lemma SortKeepsPlain(os: seq<StoredOption>)
    ensures AllPlain(SortByNumber(os)) <==> AllPlain(os)
  {
    hide SortByNumber, Plain;
    SortIsStable(os);
    var r := SortByNumber(os);
    forall i | 0 <= i < |r| ensures r[i] in os {
      assert r[i] in multiset(os);
    }
    forall i | 0 <= i < |os| ensures os[i] in r {
      assert os[i] in multiset(r);
    }
  }

  /**
    What any well-formed body becomes when it is written and read. If every text is ASCII: the
    options stably sorted, an empty string turned into the text of an empty byte string, an empty
    payload absent. Otherwise the first text that is not ASCII comes back as another one, or not at all.
   */
  lemma BodyRoundTrip(options: seq<StoredOption>, payload: Option<bytes>)
    requires WellFormed(options)
    ensures PrintBody(options, payload).Ok?
    ensures var b, os := ParseBody(PrintBody(options, payload).value, 0, []), SortByNumber(options);
            if AllPlain(options) then
              b == Body(RereadAll(os), if payload == Some([]) then None else payload)
            else
              exists i: nat :: i < |os| && os[i].value != Str("") && DiffersAt(b, os, i)
  {
    hide ParseBody, SortByNumber, WellFormed, PrintOptions, AllFit, RereadAll, PayloadSection, AllPlain, DiffersAt;
    var os := SortByNumber(options);
    SortIsStable(options);
    SortKeepsWellFormed(options);
    SortKeepsPlain(options);
    if AllPlain(options) {
      SortedBodyRoundTrip(os, payload);
    } else {
      LongTextBody(os, payload);
    }
  }

  lemma LongTextBody(os: seq<StoredOption>, payload: Option<bytes>)
    requires WellFormed(os) && Sorted(os) && !AllPlain(os)
    ensures AllFit(os, 0)
    ensures var b := ParseBody(PrintOptions(os, 0) + PayloadSection(payload), 0, []);
            exists i: nat :: i < |os| && os[i].value != Str("") && DiffersAt(b, os, i)
  {
    hide ParseBody, PrintOptions, WellFormed, AllFit, PayloadSection, Plain;
    var i := FirstLongText(os);
    TypedOptions(os);
    assert [] + os == os;
    LongTextBreaks(os, 0, PayloadSection(payload), [], i);
    EmptyIsPlain();
    assert DiffersAt(ParseBody(PrintOptions(os, 0) + PayloadSection(payload), 0, []), os, i);
  }

  lemma TypedOptions(os: seq<StoredOption>)
    requires WellFormed(os) && Sorted(os)
    ensures AllFit(os, 0) && NoForbiddenRepeat(os) && forall i :: 0 <= i < |os| ==> WellTyped(os[i])
  {
    hide WellTyped;
    SortedOptionsFit(os, 0);
  }

  lemma EmptyIsPlain()
    ensures Plain(Str(""))
  {
  }

  lemma ParsePayloadSection(payload: Option<bytes>, current: nat, os: seq<StoredOption>)
    ensures ParseBody(PayloadSection(payload), current, os) == Body(os, if payload == Some([]) then None else payload)
  {
    if payload.Some? {
      assert ([PAYLOAD_MARKER] + payload.value)[1..] == payload.value;
    }
  }

  predicate Consistent(os: seq<StoredOption>, current: nat) {
    WellFormed(os) && Sorted(os) && forall i :: 0 <= i < |os| ==> os[i].number <= current
  }

  lemma ConsistentSnoc(os: seq<StoredOption>, o: StoredOption, current: nat)
    requires Consistent(os, current) && current <= o.number
    requires WellTyped(o) && Length(o.value) <= MAX_FIELD
    requires AlreadyIn(o.number, os) ==> Lookup(o.number).value.repeatable
    ensures Consistent(os + [o], o.number)
  {
    hide Lookup;
    var next := os + [o];
    forall i, j | 0 <= i < j < |next| && next[i].number == next[j].number
      ensures Lookup(next[i].number).Some? && Lookup(next[i].number).value.repeatable
    {
      if j == |os| { assert AlreadyIn(o.number, os); }
    }
  }

  lemma ReadOptionIsWellTyped(number: nat, length: nat, taken: bytes, os: seq<StoredOption>)
    requires |taken| <= length <= MAX_FIELD
    ensures var step := ReadOption(number, length, taken, os);
            step.Stored? ==>
              && step.option.number == number && WellTyped(step.option) && Length(step.option.value) <= MAX_FIELD
              && (AlreadyIn(number, os) ==> Lookup(number).value.repeatable)
  {
    if Lookup(number).Some? {
      ParsedValueKind(Lookup(number).value.kind, length, taken);
    }
  }

  lemma NextOptionIsConsistent(rest: bytes, current: nat, os: seq<StoredOption>)
    requires rest != [] && rest[0] != PAYLOAD_MARKER
    requires Consistent(os, current)
    ensures var p := NextOption(rest, current, os); p.More? ==> Consistent(p.os, p.current)
  {
    hide ReadHeader, ReadOption, WellTyped;
    var h := ReadHeader(rest);
    if h.Header? {
      var number := current + h.delta;
      ReadOptionIsWellTyped(number, h.length, Take(h.tail, h.length), os);
      var step := ReadOption(number, h.length, Take(h.tail, h.length), os);
      if step.Stored? {
        ConsistentSnoc(os, step.option, current);
      }
    }
  }

  lemma EmptyIsConsistent()
    ensures Consistent([], 0)
  {
  }

  /** Whatever the parser accepts is sorted and well formed, so it can be written again. */
  lemma {:induction false} ParsedBodyIsWellFormed(rest: bytes, current: nat, os: seq<StoredOption>)
    requires Consistent(os, current)
    ensures var b := ParseBody(rest, current, os);
            b.Body? ==> WellFormed(b.options) && Sorted(b.options) && b.payload != Some([])
    decreases |rest|
  {
    hide NextOption, WellFormed;
    if rest != [] && rest[0] != PAYLOAD_MARKER {
      NextOptionIsConsistent(rest, current, os);
      var p := NextOption(rest, current, os);
      if p.More? {
        ParsedBodyIsWellFormed(p.rest, p.current, p.os);
      }
    }
  }
}
