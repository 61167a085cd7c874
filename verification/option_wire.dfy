/** One option on the wire: header nibbles, extended fields and the value. */
module OptionWire {

  import opened Wrappers
  import opened Bytes
  import opened OptionRegistry
  import opened Utf8

  /** What Option stores in _value; Raw also serves the reserved option 0. */
  datatype Value = Int(n: nat) | Str(s: string) | Raw(b: bytes)

  datatype CoapOption<V> = CoapOption(number: nat, value: V)

  type StoredOption = CoapOption<Value>

  const MAX_FIELD := 65535 + 269

  /** Option.length; the length of a text is counted in characters. */
  function Length(v: Value): nat {
    match v
    case Int(n) => ByteLen(n)
    case Str(s) => |s|
    case Raw(b) => |b|
  }

  predicate HasKind(v: Value, kind: Kind) {
    match v
    case Int(_) => kind == Integer
    case Str(s) => kind == Text
    case Raw(_) => kind == Opaque
  }

  /** get_option_nibble; None is the exception for a field that is too large. */
  function Nibble(optionValue: nat): Option<nat> {
    if optionValue <= 12 then Some(optionValue)
    else if optionValue <= 255 + 13 then Some(13)
    else if optionValue <= MAX_FIELD then Some(14)
    else None
  }

  /** The extended field that follows the option header byte. */
  function Extended(optionValue: nat): bytes
    requires optionValue <= MAX_FIELD
  {
    if optionValue <= 12 then []
    else if optionValue <= 255 + 13 then [optionValue - 13]
    else Words(optionValue - 269, 2)
  }

  datatype Field = Field(value: nat, tail: bytes) | BadField | ShortField

  /** Half of read_option_value_len_from_byte: one nibble and its extended field. */
  function ReadField(nibble: nat, tail: bytes): Field {
    if nibble <= 12 then Field(nibble, tail)
    else if nibble == 13 then
      if |tail| < 1 then ShortField else Field(tail[0] as int + 13, tail[1..])
    else if nibble == 14 then
      if |tail| < 2 then BadField else Field(Fold(tail[..2]) + 269, tail[2..])
    else BadField
  }

  lemma ReadPrintedField(v: nat, tail: bytes)
    requires v <= MAX_FIELD
    ensures Nibble(v).Some? && Nibble(v).value <= 14
    ensures ReadField(Nibble(v).value, Extended(v) + tail) == Field(v, tail)
  {
    if v > 268 {
      var ext := Words(v - 269, 2);
      assert (ext + tail)[..2] == ext;
      assert Pow256(2) == 256 * Pow256(1) == 256 * (256 * Pow256(0));
      FoldOfWords(v - 269, 2);
    }
  }

  lemma ReadFieldShrinks(nibble: nat, tail: bytes)
    ensures var f := ReadField(nibble, tail);
            f.Field? ==> |f.tail| <= |tail| && f.value <= MAX_FIELD
  {
    if nibble == 14 && |tail| >= 2 {
      WordsOfFold(tail[..2]);
      assert Pow256(2) == 256 * Pow256(1) == 256 * (256 * Pow256(0));
    }
  }

  /** The octets of an option value as the serializer writes them. */
  function ValueBytes(v: Value): bytes {
    match v
    case Int(n) => Words(n, ByteLen(n))
    case Str(s) => EncodeUtf8(s)
    case Raw(b) => b
  }

  /**
    The value that the parser stores for an option announced with the given length; None if its text cannot be decoded.
    A string announced as empty goes through str(bytes()) and is stored as its repr.
   */
  function ParseValue(kind: Kind, length: nat, taken: bytes): Option<Value> {
    match kind
    case Integer => Some(Int(Fold(taken)))
    case Opaque => Some(Raw(taken))
    case Text =>
      if length == 0 then Some(Str("b''"))
      else match DecodeUtf8(taken)
           case None => None
           case Some(s) => Some(Str(s))
  }

  /** What a stored value becomes after being written and read back. */
  function Reread(v: Value): Value {
    if v == Str("") then Str("b''") else v
  }

  /** The announced length of the value is the number of its octets. */
  predicate Plain(v: Value) { v.Str? ==> Ascii(v.s) }

  lemma PlainLength(v: Value)
    ensures |ValueBytes(v)| == Length(v) <==> Plain(v)
    ensures |ValueBytes(v)| >= Length(v)
  {
    if v.Str? {
      Utf8Length(v.s);
    }
  }

  /** A text whose announced length falls short is never read back, whatever is read in its place. */
  lemma LongTextIsLost(v: Value)
    requires !Plain(v)
    ensures Length(v) > 0 && Length(v) < |ValueBytes(v)|
    ensures ParseValue(Text, Length(v), ValueBytes(v)[..Length(v)]) != Some(v)
  {
    PlainLength(v);
    PartIsAnotherText(v.s, ValueBytes(v)[..Length(v)]);
  }

  lemma ParsePrintedValue(kind: Kind, v: Value)
    requires HasKind(v, kind) && Plain(v)
    ensures |ValueBytes(v)| == Length(v)
    ensures ParseValue(kind, Length(v), ValueBytes(v)) == Some(Reread(v))
  {
    match v
    case Int(n) => PackedInteger(n);
    case Raw(_) =>
    case Str(s) =>
      Utf8RoundTrip(s);
      Utf8Length(s);
  }

  /** Parsed values have the registered kind and fit the announced length. */
  lemma ParsedValueKind(kind: Kind, length: nat, taken: bytes)
    requires |taken| <= length
    ensures var r := ParseValue(kind, length, taken);
            r.Some? ==> HasKind(r.value, kind) && (Length(r.value) <= length || Length(r.value) == 3)
  {
    if kind == Integer {
      WordsOfFold(taken);
      ByteLenIsLeast(Fold(taken), |taken|);
    } else if kind == Text && DecodeUtf8(taken).Some? {
      DecodedIsEncoded(taken);
      Utf8Length(DecodeUtf8(taken).value);
    }
  }
}
