/** messages/options.py: the second codec for the option section, over groups of typed options. */
module OptionsCodec {

  import opened Wrappers
  import opened Bytes
  import opened OptionRegistry
  import opened Utf8
  import opened OptionWire
  import opened OptionOrder
  import opened BodyCodec

  datatype Typed = Uint(n: nat) | Chars(s: string) | Octets(b: bytes) | Blockwise(num: nat, more: bool, szx: nat)

  type TypedOption = CoapOption<Typed>

  type Groups = map<nat, seq<TypedOption>>

  // ------------------------------------------------------------- one option

  /** _write_extended_field_value; None is the ValueError. */
  function WriteExtended(value: nat): Option<(nat, bytes)> {
    if value < 13 then Some((value, []))
    else if value < 269 then Some((13, [value - 13]))
    else if value < 65804 then Some((14, Words(value - 269, 2)))
    else None
  }

  /** _read_extended_field_value. */
  function ReadExtended(value: nat, raw: bytes): Option<(nat, bytes)> {
    if value < 13 then Some((value, raw))
    else if value == 13 then
      if |raw| < 1 then None else Some((raw[0] as int + 13, raw[1..]))
    else if value == 14 then
      if |raw| < 2 then None else Some((Fold(raw[..2]) + 269, raw[2..]))
    else None
  }

  function StripZeros(bs: bytes): bytes {
    if bs != [] && bs[0] == 0 then StripZeros(bs[1..]) else bs
  }

  function BlockInteger(num: nat, more: bool, szx: nat): nat {
    num * 16 + (if more then 8 else 0) + szx
  }

  /** encode of the option types; an integer wider than the packed word raises. */
  function EncodeValue(v: Typed): Result<bytes> {
    match v
    case Uint(n) => if n < Pow256(4) then Ok(StripZeros(Words(n, 4))) else Raised
    case Blockwise(num, more, szx) =>
      var n := BlockInteger(num, more, szx);
      if n < Pow256(4) then Ok(StripZeros(Words(n, 4))) else Raised
    case Chars(s) => Ok(EncodeUtf8(s))
    case Octets(b) => Ok(b)
  }

  /** create_option(decode=...); None is text that cannot be decoded. */
  function DecodeValue(number: nat, raw: bytes): Option<Typed> {
    match FormatOf(number)
    case OpaqueFormat => Some(Octets(raw))
    case UintFormat => Some(Uint(Fold(raw)))
    case BlockFormat =>
      var n := Fold(raw);
      Some(Blockwise(n / 16, n / 8 % 2 == 1, n % 8))
    case StringFormat =>
      match DecodeUtf8(raw)
      case None => None
      case Some(s) => Some(Chars(s))
  }

  /** One turn of the encoder's loop. */
  function EncodeOption(o: TypedOption, last: nat): Result<bytes>
    requires last <= o.number
  {
    match EncodeValue(o.value)
    case Raised => Raised
    case Ok(data) =>
      var delta, length := WriteExtended(o.number - last), WriteExtended(|data|);
      if delta.None? || length.None? then Raised
      else Ok([delta.value.0 % 16 * 16 + length.value.0 % 16] + (delta.value.1 + (length.value.1 + data)))
  }

  predicate Ascending(os: seq<TypedOption>, last: nat) {
    Sorted(os) && (os != [] ==> last <= os[0].number)
  }

  function EncodeList(os: seq<TypedOption>, last: nat): Result<bytes>
    requires Ascending(os, last)
  {
    if os == [] then Ok([])
    else
      match EncodeOption(os[0], last)
      case Raised => Raised
      case Ok(first) => Prepend(first, EncodeList(os[1..], os[0].number))
  }

  // ----------------------------------------------------------------- groups

  /** Every group is filed under the number that all its options carry. */
  predicate ValidGroups(g: Groups) {
    forall n :: n in g ==> g[n] != [] && forall o :: o in g[n] ==> o.number == n
  }

  function AddTo(g: Groups, o: TypedOption): Groups {
    g[o.number := (if o.number in g then g[o.number] else []) + [o]]
  }

  function AddAll(g: Groups, os: seq<TypedOption>): Groups {
    if os == [] then g else AddTo(AddAll(g, os[..|os| - 1]), os[|os| - 1])
  }

  ghost predicate IsLeast(k: nat, keys: set<nat>) {
    k in keys && forall j :: j in keys ==> k <= j
  }

  lemma {:induction false} LeastExists(keys: set<nat>)
    requires keys != {}
    ensures exists k :: IsLeast(k, keys)
  {
    var k :| k in keys;
    if keys == {k} {
      assert IsLeast(k, keys);
    } else {
      LeastExists(keys - {k});
      var m :| IsLeast(m, keys - {k});
      assert forall j :: j in keys ==> j == k || j in keys - {k};
      assert IsLeast(if k <= m then k else m, keys);
    }
  }

  function Smallest(keys: set<nat>): (k: nat)
    requires keys != {}
    ensures IsLeast(k, keys)
  {
    LeastExists(keys);
    var k :| k in keys && forall j :: j in keys ==> k <= j;
    k
  }

  /** option_list: the groups one after the other, by ascending number. */
  function OptionList(g: Groups): seq<TypedOption>
    decreases |g.Keys|
  {
    if g.Keys == {} then []
    else
      var k := Smallest(g.Keys);
      assert |(g - {k}).Keys| < |g.Keys| by { assert (g - {k}).Keys == g.Keys - {k}; }
      g[k] + OptionList(g - {k})
  }

  lemma {:induction false} WithNumberOfConcat<V>(a: seq<CoapOption<V>>, b: seq<CoapOption<V>>, n: nat)
    ensures WithNumber(a + b, n) == WithNumber(a, n) + WithNumber(b, n)
  {
    if b == [] {
      assert a + b == a;
    } else {
      var front, last := b[..|b| - 1], b[|b| - 1];
      assert a + b == (a + front) + [last] && b == front + [last];
      WithNumberOfConcat(a, front, n);
      WithNumberSnoc(a + front, last, n);
      WithNumberSnoc(front, last, n);
    }
  }

  lemma {:induction false} WithNumberOfGroup<V>(os: seq<CoapOption<V>>, k: nat, n: nat)
    requires forall o :: o in os ==> o.number == k
    ensures WithNumber(os, n) == if n == k then os else []
  {
    if os != [] {
      assert os == os[..|os| - 1] + [os[|os| - 1]];
      WithNumberOfGroup(os[..|os| - 1], k, n);
    }
  }

  lemma SortedConcat(a: seq<TypedOption>, b: seq<TypedOption>, k: nat)
    requires forall o :: o in a ==> o.number == k
    requires Sorted(b) && forall o :: o in b ==> k <= o.number
    ensures Sorted(a + b)
  {
    forall i, j | 0 <= i < j < |a + b| ensures (a + b)[i].number <= (a + b)[j].number {
      if j < |a| {
        assert a[i] in a && a[j] in a;
      } else if i < |a| {
        assert a[i] in a && b[j - |a|] in b;
      }
    }
  }

  lemma ListingStep(g: Groups)
    requires ValidGroups(g) && g.Keys != {}
    ensures var k := Smallest(g.Keys);
            && k in g && (forall n :: n in g ==> k <= n) && OptionList(g) == g[k] + OptionList(g - {k})
            && ValidGroups(g - {k}) && |(g - {k}).Keys| < |g.Keys|
  {
    var k := Smallest(g.Keys);
    assert (g - {k}).Keys == g.Keys - {k};
    assert forall n :: n in g ==> n in g.Keys;
  }

  lemma {:induction false} ListingIsSorted(g: Groups)
    requires ValidGroups(g)
    ensures Sorted(OptionList(g))
    ensures forall o :: o in OptionList(g) ==> o.number in g && o in g[o.number]
    decreases |g.Keys|
  {
    if g.Keys != {} {
      hide Smallest, OptionList, Sorted;
      var k := Smallest(g.Keys);
      ListingStep(g);
      ListingIsSorted(g - {k});
      SortedConcat(g[k], OptionList(g - {k}), k);
    }
  }

  /** The listing is sorted and holds each group, in order, under its number. */
  lemma {:induction false} ListingOfGroups(g: Groups)
    requires ValidGroups(g)
    ensures Sorted(OptionList(g))
    ensures forall n: nat :: WithNumber(OptionList(g), n) == if n in g then g[n] else []
    ensures forall o :: o in OptionList(g) ==> o.number in g && o in g[o.number]
    decreases |g.Keys|
  {
    ListingIsSorted(g);
    if g.Keys != {} {
      hide Smallest, OptionList, Sorted, WithNumber;
      var k := Smallest(g.Keys);
      ListingStep(g);
      ListingOfGroups(g - {k});
      forall n: nat ensures WithNumber(OptionList(g), n) == if n in g then g[n] else [] {
        WithNumberOfConcat(g[k], OptionList(g - {k}), n);
        WithNumberOfGroup(g[k], k, n);
      }
    }
  }

  lemma {:induction false} GroupsOfList(os: seq<TypedOption>)
    ensures var g := AddAll(map[], os);
            ValidGroups(g) && forall n: nat :: WithNumber(os, n) == if n in g then g[n] else []
  {
    if os != [] {
      GroupsOfList(os[..|os| - 1]);
    }
  }

  /** Grouping by number and listing the groups is the stable sort. */
  lemma GroupOrderIsStableSort(os: seq<TypedOption>)
    ensures OptionList(AddAll(map[], os)) == SortByNumber(os)
  {
    hide SortByNumber, OptionList, AddAll, WithNumber;
    var g := AddAll(map[], os);
    GroupsOfList(os);
    ListingOfGroups(g);
    SortIsStable(os);
    StableOrderIsUnique(OptionList(g), SortByNumber(os));
  }

  /** Adding the listed options to an empty container rebuilds the groups. */
  lemma GroupsFromListing(g: Groups)
    requires ValidGroups(g)
    ensures AddAll(map[], OptionList(g)) == g
  {
    hide OptionList, AddAll, WithNumber;
    ListingOfGroups(g);
    GroupsOfList(OptionList(g));
    var h := AddAll(map[], OptionList(g));
    forall n: nat ensures n in h <==> n in g {
      assert WithNumber(OptionList(g), n) == if n in g then g[n] else [];
    }
    assert h.Keys == g.Keys;
    forall n: nat | n in g ensures h[n] == g[n] {
      assert WithNumber(OptionList(g), n) == g[n];
    }
  }

  // ---------------------------------------------------- the Options container

  /** A decoding fills groups until the payload marker; Malformed is any exception raised on the way. */
  datatype Decoded = Rest(body: bytes) | MalformedOption

  function DecodeAll(raw: bytes, number: nat, g: Groups): (Groups, Decoded)
    decreases |raw|
  {
    if raw == [] then (g, Rest([]))
    else if raw[0] == PAYLOAD_MARKER then (g, Rest(raw[1..]))
    else
      match DecodeOption(raw, number)
      case MalformedHead => (g, MalformedOption)
      case Head(o, rest) => DecodeAll(rest, o.number, AddTo(g, o))
  }

  datatype Head = Head(option: TypedOption, rest: bytes) | MalformedHead

  /** One turn of the decoder's loop. */
  function DecodeOption(raw: bytes, number: nat): (h: Head)
    requires raw != []
    ensures h.Head? ==> |h.rest| < |raw|
  {
    match ReadExtended(raw[0] / 16, raw[1..])
    case None => MalformedHead
    case Some((delta, raw')) =>
      match ReadExtended(raw[0] % 16, raw')
      case None => MalformedHead
      case Some((length, raw'')) =>
        if |raw''| < length then MalformedHead
        else
          match DecodeValue(number + delta, raw''[..length])
          case None => MalformedHead
          case Some(v) => Head(CoapOption(number + delta, v), raw''[length..])
  }

  function Prepend(first: bytes, rest: Result<bytes>): Result<bytes> {
    match rest
    case Raised => Raised
    case Ok(bs) => Ok(first + bs)
  }

  lemma PrependTwice(a: bytes, b: bytes, rest: Result<bytes>)
    ensures Prepend(a, Prepend(b, rest)) == Prepend(a + b, rest)
  {
    if rest.Ok? {
      assert a + (b + rest.value) == a + b + rest.value;
    }
  }

  lemma PrependEmpty(rest: Result<bytes>)
    ensures Prepend([], rest) == rest
  {
    if rest.Ok? {
      assert [] + rest.value == rest.value;
    }
  }

  lemma PrependLast(out: bytes)
    ensures Prepend(out, Ok([])) == Ok(out)
  {
    assert out + [] == out;
  }

  lemma PrependRaised(out: bytes)
    ensures Prepend(out, Raised) == Raised
  {
  }

  lemma SortedIsAscending(os: seq<TypedOption>)
    requires Sorted(os)
    ensures Ascending(os, 0)
  {
  }

  lemma TailIsAscending(os: seq<TypedOption>, last: nat)
    requires Ascending(os, last) && os != []
    ensures last <= os[0].number && Ascending(os[1..], os[0].number)
  {
  }

  function EncodeGroups(g: Groups): Result<bytes>
    requires ValidGroups(g)
  {
    ListingOfGroups(g);
    EncodeList(OptionList(g), 0)
  }

  class Options {
    var options: Groups

    constructor ()
      ensures options == map[]
    {
      options := map[];
    }

    ghost predicate Valid()
      reads this
    {
      ValidGroups(options)
    }

    method AddOption(o: TypedOption)
      requires Valid()
      modifies this
      ensures Valid() && options == AddTo(old(options), o)
    {
      if o.number !in options {
        options := options[o.number := []];
      }
      options := options[o.number := options[o.number] + [o]];
      assert options == AddTo(old(options), o);
    }

    method Decode(rawdata: bytes) returns (result: Decoded)
      requires Valid()
      modifies this
      ensures Valid() && (options, result) == DecodeAll(rawdata, 0, old(options))
    {
      var raw := rawdata;
      var number: nat := 0;
      while raw != []
        invariant Valid()
        invariant DecodeAll(raw, number, options) == DecodeAll(rawdata, 0, old(options))
        decreases |raw|
      {
        if raw[0] == PAYLOAD_MARKER {
          return Rest(raw[1..]);
        }
        var head := DecodeOption(raw, number);
        match head {
          case MalformedHead => return MalformedOption;
          case Head(o, rest) =>
            AddOption(o);
            number := o.number;
            raw := rest;
        }
      }
      result := Rest([]);
    }

    method ListOptions() returns (list: seq<TypedOption>)
      requires Valid()
      ensures list == OptionList(options)
    {
      hide ValidGroups;
      var rest := options;
      list := [];
      while rest.Keys != {}
        invariant list + OptionList(rest) == OptionList(options)
        decreases |rest.Keys|
      {
        var k := Smallest(rest.Keys);
        list := list + rest[k];
        assert |(rest - {k}).Keys| < |rest.Keys| by { assert (rest - {k}).Keys == rest.Keys - {k}; }
        rest := rest - {k};
      }
    }

    method Encode() returns (data: Result<bytes>)
      requires Valid()
      ensures data == EncodeGroups(options)
    {
      hide EncodeOption, OptionList, Sorted, Ascending, ValidGroups, Prepend;
      var list := ListOptions();
      ListingOfGroups(options);
      var out: bytes := [];
      var currentNumber: nat := 0;
      assert list[0..] == list;
      SortedIsAscending(list);
      PrependEmpty(EncodeList(list, 0));
      for i := 0 to |list|
        invariant Ascending(list[i..], currentNumber)
        invariant EncodeList(list, 0) == Prepend(out, EncodeList(list[i..], currentNumber))
      {
        assert list[i..][0] == list[i] && list[i..][1..] == list[i + 1..];
        TailIsAscending(list[i..], currentNumber);
        var written := EncodeOption(list[i], currentNumber);
        if written.Raised? {
          PrependRaised(out);
          return Raised;
        }
        PrependTwice(out, written.value, EncodeList(list[i + 1..], list[i].number));
        out := out + written.value;
        currentNumber := list[i].number;
      }
      assert list[|list|..] == [];
      PrependLast(out);
      data := Ok(out);
    }
  }

  // ------------------------------------------------------------- round trip

  /** The value is what the number's format decodes to. */
  predicate HasFormat(o: TypedOption) {
    match FormatOf(o.number)
    case OpaqueFormat => o.value.Octets?
    case UintFormat => o.value.Uint?
    case BlockFormat => o.value.Blockwise? && o.value.szx < 8
    case StringFormat => o.value.Chars?
  }

  lemma {:induction false} WordsPadded(n: nat, k: nat)
    requires k > 0 && n < Pow256(k - 1)
    ensures Words(n, k) == [0] + Words(n, k - 1)
  {
    if k > 1 {
      WordsPadded(n / 256, k - 1);
    }
  }

  lemma {:induction false} StrippedWords(n: nat, k: nat)
    requires n < Pow256(k)
    ensures StripZeros(Words(n, k)) == Words(n, ByteLen(n))
  {
    ByteLenIsLeast(n, k);
    if ByteLen(n) == k {
      PackedInteger(n);
    } else {
      ByteLenIsLeast(n, k - 1);
      WordsPadded(n, k);
      StrippedWords(n, k - 1);
      assert Words(n, k)[1..] == Words(n, k - 1);
    }
  }

  lemma EncodedInteger(n: nat)
    requires n < Pow256(4)
    ensures Fold(StripZeros(Words(n, 4))) == n
  {
    StrippedWords(n, 4);
    PackedInteger(n);
  }

  lemma BlockIntegerParts(num: nat, more: bool, szx: nat)
    requires szx < 8
    ensures var n := BlockInteger(num, more, szx);
            n / 16 == num && (n / 8 % 2 == 1 <==> more) && n % 8 == szx
  {
  }

  lemma DecodeEncodedValue(o: TypedOption)
    requires HasFormat(o) && EncodeValue(o.value).Ok?
    ensures DecodeValue(o.number, EncodeValue(o.value).value) == Some(o.value)
  {
    hide StripZeros, Fold, Words, Pow256, BlockInteger, DecodeUtf8, EncodeUtf8;
    match o.value
    case Uint(n) => EncodedInteger(n);
    case Blockwise(num, more, szx) =>
      BlockIntegerParts(num, more, szx);
      EncodedInteger(BlockInteger(num, more, szx));
    case Octets(_) =>
    case Chars(s) => Utf8RoundTrip(s);
  }

  lemma ReadWritten(v: nat, tail: bytes)
    requires WriteExtended(v).Some?
    ensures var (nibble, ext) := WriteExtended(v).value;
            && nibble <= 14 && nibble == Nibble(v).value && ext == Extended(v)
            && ReadExtended(nibble, ext + tail) == Some((v, tail))
  {
    ReadPrintedField(v, tail);
  }

  /** Decoding one encoded option gives it back and stops right behind it; its header is no marker. */
  lemma DecodeEncodedOption(o: TypedOption, last: nat, tail: bytes)
    requires last <= o.number && HasFormat(o) && EncodeOption(o, last).Ok?
    ensures var b := EncodeOption(o, last).value;
            b != [] && b[0] != PAYLOAD_MARKER && DecodeOption(b + tail, last) == Head(o, tail)
  {
    hide EncodeValue, DecodeValue, WriteExtended, ReadExtended, HasFormat, Nibble, Extended;
    var b, data := EncodeOption(o, last).value, EncodeValue(o.value).value;
    var delta, length := WriteExtended(o.number - last).value, WriteExtended(|data|).value;
    ReadWritten(o.number - last, length.1 + (data + tail));
    ReadWritten(|data|, data + tail);
    assert (b + tail)[1..] == delta.1 + (length.1 + (data + tail));
    assert (data + tail)[..|data|] == data && (data + tail)[|data|..] == tail;
    DecodeEncodedValue(o);
  }

  lemma {:induction false} AddAllFront(g: Groups, os: seq<TypedOption>)
    requires os != []
    ensures AddAll(g, os) == AddAll(AddTo(g, os[0]), os[1..])
  {
    if |os| > 1 {
      AddAllFront(g, os[..|os| - 1]);
      assert os[..|os| - 1][1..] == os[1..][..|os| - 2];
    }
  }

  lemma {:induction false} DecodeEncodedList(os: seq<TypedOption>, last: nat, tail: bytes, g: Groups)
    requires Ascending(os, last) && EncodeList(os, last).Ok?
    requires forall i :: 0 <= i < |os| ==> HasFormat(os[i])
    ensures DecodeAll(EncodeList(os, last).value + tail, last, g)
         == DecodeAll(tail, if os == [] then last else os[|os| - 1].number, AddAll(g, os))
  {
    hide EncodeOption, DecodeOption, AddTo, HasFormat;
    if os == [] {
      assert [] + tail == tail;
    } else {
      var first := EncodeOption(os[0], last).value;
      var rest := EncodeList(os[1..], os[0].number).value + tail;
      assert EncodeList(os, last).value + tail == first + rest;
      DecodeEncodedOption(os[0], last, rest);
      DecodeEncodedList(os[1..], os[0].number, tail, AddTo(g, os[0]));
      AddAllFront(g, os);
    }
  }

  predicate AllFormatted(g: Groups) {
    forall n :: n in g ==> forall o :: o in g[n] ==> HasFormat(o)
  }

  lemma GroupsWithTail(g: Groups, tail: bytes)
    requires ValidGroups(g) && AllFormatted(g) && EncodeGroups(g).Ok?
    requires tail == [] || tail[0] == PAYLOAD_MARKER
    ensures DecodeAll(EncodeGroups(g).value + tail, 0, map[]) == (g, Rest(if tail == [] then [] else tail[1..]))
  {
    hide OptionList, EncodeList, AddAll, HasFormat, ValidGroups, DecodeOption;
    ListingOfGroups(g);
    GroupsFromListing(g);
    DecodeEncodedList(OptionList(g), 0, tail, map[]);
  }

  /** decode undoes encode: the same groups in order, and exactly the payload behind the marker. */
  lemma GroupsRoundTrip(g: Groups, payload: bytes)
    requires ValidGroups(g) && AllFormatted(g) && EncodeGroups(g).Ok?
    ensures DecodeAll(EncodeGroups(g).value + [PAYLOAD_MARKER] + payload, 0, map[]) == (g, Rest(payload))
    ensures DecodeAll(EncodeGroups(g).value, 0, map[]) == (g, Rest([]))
  {
    hide OptionList, EncodeList, AddAll, HasFormat, ValidGroups, DecodeOption, DecodeAll;
    var section := [PAYLOAD_MARKER] + payload;
    GroupsWithTail(g, section);
    GroupsWithTail(g, []);
    var encoded := EncodeGroups(g).value;
    assert encoded + [PAYLOAD_MARKER] + payload == encoded + section;
    assert encoded + [] == encoded;
  }

  // ---------------------------------------------------- agreement of the codecs

  /** The typed form of an option of the first codec. */
  function TypedOf(o: StoredOption): TypedOption {
    CoapOption(o.number,
      match o.value
      case Int(n) => if FormatOf(o.number).BlockFormat? then Blockwise(n / 16, n / 8 % 2 == 1, n % 8) else Uint(n)
      case Str(s) => Chars(s)
      case Raw(b) => Octets(b))
  }

  function TypedAll(os: seq<StoredOption>): (r: seq<TypedOption>)
    ensures |r| == |os|
    ensures forall i :: 0 <= i < |os| ==> r[i] == TypedOf(os[i])
  {
    seq(|os|, i requires 0 <= i < |os| => TypedOf(os[i]))
  }

  /** Inside what the second codec can write: a 32-bit word, and no field of exactly 65804. */
  predicate Small(o: StoredOption) {
    (o.value.Int? ==> o.value.n < 0x1_0000_0000) && Length(o.value) < MAX_FIELD
  }

  predicate AllSmall(os: seq<StoredOption>) {
    forall i :: 0 <= i < |os| ==> Small(os[i])
  }

  lemma Pow256Of4()
    ensures Pow256(4) == 0x1_0000_0000
  {
    assert Pow256(4) == 256 * Pow256(3) == 256 * (256 * Pow256(2)) == 256 * (256 * (256 * Pow256(1)));
  }

  lemma BlockIntegerWhole(n: nat)
    ensures BlockInteger(n / 16, n / 8 % 2 == 1, n % 8) == n
  {
  }

  lemma SameValueBytes(o: StoredOption)
    requires WellTyped(o) && TablesAgree(o.number)
    ensures EncodeValue(TypedOf(o).value) ==
            if o.value.Int? && o.value.n >= 0x1_0000_0000 then Raised else Ok(ValueBytes(o.value))
    ensures HasFormat(TypedOf(o))
  {
    hide EncodeUtf8, BlockInteger, StripZeros, Words, Pow256;
    Pow256Of4();
    if o.value.Int? {
      var n := o.value.n;
      BlockIntegerWhole(n);
      if n < 0x1_0000_0000 {
        StrippedWords(n, 4);
      }
    }
  }

  lemma SameOptionBytes(o: StoredOption, last: nat)
    requires WellTyped(o) && TablesAgree(o.number) && FieldsFit(o, last) && Plain(o.value)
    ensures EncodeOption(TypedOf(o), last) == if Small(o) then Ok(PrintOption(o, last)) else Raised
  {
    hide EncodeValue, WriteExtended, TypedOf, ValueBytes, Extended, Nibble, Length, Lookup, FormatOf, TablesAgree,
      WellTyped, Plain;
    assert TypedOf(o).number == o.number by { TypedNumber(o); }
    SameValueBytes(o);
    PlainLength(o.value);
    RegisteredBelow(o);
    WritableBelowMax(o.number - last);
    WritableBelowMax(Length(o.value));
  }

  lemma TypedNumber(o: StoredOption)
    ensures TypedOf(o).number == o.number
  {
  }

  lemma RegisteredBelow(o: StoredOption)
    requires WellTyped(o)
    ensures o.number < MAX_FIELD
  {
    RegisteredBelow2To16(o.number);
  }

  lemma WritableBelowMax(v: nat)
    requires v <= MAX_FIELD
    ensures WriteExtended(v) == if v < MAX_FIELD then Some((Nibble(v).value, Extended(v))) else None
    ensures Nibble(v).Some? && Nibble(v).value < 16
  {
  }

  lemma {:induction false} SameListBytes(os: seq<StoredOption>, last: nat)
    requires Ascending(TypedAll(os), last)
    requires AllFit(os, last)
    requires forall i :: 0 <= i < |os| ==> WellTyped(os[i]) && TablesAgree(os[i].number) && Plain(os[i].value)
    ensures EncodeList(TypedAll(os), last) == if AllSmall(os) then Ok(PrintOptions(os, last)) else Raised
  {
    hide EncodeOption, PrintOption, Small, FieldsFit, WellTyped, TablesAgree, Plain;
    if os != [] {
      assert TypedAll(os)[1..] == TypedAll(os[1..]);
      SameOptionBytes(os[0], last);
      SameListBytes(os[1..], os[0].number);
      assert AllSmall(os) <==> Small(os[0]) && AllSmall(os[1..]) by {
        assert AllSmall(os[1..]) && Small(os[0]) ==> forall i :: 0 <= i < |os| ==> Small(os[i]) by {
          assert forall i :: 1 <= i < |os| ==> os[i] == os[1..][i - 1];
        }
        assert forall i :: 0 <= i < |os[1..]| ==> os[1..][i] == os[i + 1];
      }
    }
  }

  lemma {:induction false} InsertTyped(os: seq<StoredOption>, o: StoredOption)
    ensures Insert(TypedAll(os), TypedOf(o)) == TypedAll(Insert(os, o))
  {
    if os == [] || os[|os| - 1].number <= o.number {
    } else {
      InsertTyped(os[..|os| - 1], o);
      assert TypedAll(os)[..|os| - 1] == TypedAll(os[..|os| - 1]);
    }
  }

  lemma {:induction false} SortTyped(os: seq<StoredOption>)
    ensures SortByNumber(TypedAll(os)) == TypedAll(SortByNumber(os))
  {
    if os != [] {
      SortTyped(os[..|os| - 1]);
      assert TypedAll(os)[..|os| - 1] == TypedAll(os[..|os| - 1]);
      InsertTyped(SortByNumber(os[..|os| - 1]), os[|os| - 1]);
    }
  }

  lemma TypedIsAscending(os: seq<StoredOption>)
    requires Sorted(os)
    ensures Ascending(TypedAll(os), 0)
  {
  }

  lemma SortKeepsSmall(os: seq<StoredOption>)
    ensures AllSmall(SortByNumber(os)) <==> AllSmall(os)
  {
    hide SortByNumber, Small;
    SortIsStable(os);
    var r := SortByNumber(os);
    forall i | 0 <= i < |r| ensures r[i] in os {
      assert r[i] in multiset(os);
    }
    forall i | 0 <= i < |os| ensures os[i] in r {
      assert os[i] in multiset(r);
    }
  }

  /** Behind the same delta, different lengths never give the same octets. */
  lemma LengthsDiffer(delta: nat, a: nat, b: nat, s: bytes, t: bytes)
    requires delta <= MAX_FIELD && a <= MAX_FIELD && b <= MAX_FIELD && a != b
    ensures [Nibble(delta).value * 16 + Nibble(a).value] + (Extended(delta) + (Extended(a) + s))
         != [Nibble(delta).value * 16 + Nibble(b).value] + (Extended(delta) + (Extended(b) + t))
  {
    var u := [Nibble(delta).value * 16 + Nibble(a).value] + (Extended(delta) + (Extended(a) + s));
    var v := [Nibble(delta).value * 16 + Nibble(b).value] + (Extended(delta) + (Extended(b) + t));
    if u == v {
      assert u[0] == v[0] && Nibble(a) == Nibble(b);
      assert u[1 + |Extended(delta)|..] == Extended(a) + s && v[1 + |Extended(delta)|..] == Extended(b) + t;
      ReadPrintedField(a, s);
      ReadPrintedField(b, t);
    }
  }

  /** An option with a text outside ASCII: the second codec announces its octets, the first its characters. */
  lemma LongTextBytes(o: StoredOption, last: nat, s: bytes, t: bytes)
    requires WellTyped(o) && TablesAgree(o.number) && FieldsFit(o, last) && !Plain(o.value)
    ensures var e := EncodeOption(TypedOf(o), last);
            e.Ok? ==> e.value + s != PrintOption(o, last) + t
  {
    hide EncodeValue, TypedOf, ValueBytes, Extended, Nibble, Length, Lookup, FormatOf, TablesAgree, WellTyped, Plain,
      WriteExtended;
    assert TypedOf(o).number == o.number by { TypedNumber(o); }
    SameValueBytes(o);
    PlainLength(o.value);
    RegisteredBelow(o);
    var delta, length, data := o.number - last, Length(o.value), ValueBytes(o.value);
    WritableBelowMax(delta);
    WritableBelowMax(length);
    var e := EncodeOption(TypedOf(o), last);
    if e.Ok? {
      assert |data| < MAX_FIELD by { WritableIsBelowMax(|data|); }
      WritableBelowMax(|data|);
      LengthsDiffer(delta, |data|, length, data + s, data + t);
      assert e.value + s
          == [Nibble(delta).value * 16 + Nibble(|data|).value] + (Extended(delta) + (Extended(|data|) + (data + s)));
      assert PrintOption(o, last) + t
          == [Nibble(delta).value * 16 + Nibble(length).value] + (Extended(delta) + (Extended(length) + (data + t)));
    }
  }

  lemma WritableIsBelowMax(v: nat)
    ensures WriteExtended(v).Some? ==> v < MAX_FIELD
  {
  }

  /** The codecs part at the first text outside ASCII. */
  lemma {:induction false} LongTextList(os: seq<StoredOption>, last: nat, i: nat)
    requires Ascending(TypedAll(os), last) && AllFit(os, last)
    requires i < |os| && !Plain(os[i].value) && AllPlain(os[..i])
    requires forall j :: 0 <= j < |os| ==> WellTyped(os[j]) && TablesAgree(os[j].number)
    ensures EncodeList(TypedAll(os), last) != Ok(PrintOptions(os, last))
  {
    hide EncodeOption, PrintOption, FieldsFit, WellTyped, TablesAgree, Plain, TypedOf;
    var o, e := os[0], EncodeOption(TypedOf(os[0]), last);
    assert TypedAll(os)[1..] == TypedAll(os[1..]) && TypedOf(o).number == o.number by { TypedNumber(o); }
    var rest := EncodeList(TypedAll(os[1..]), o.number);
    if e.Ok? && rest.Ok? {
      if i == 0 {
        LongTextBytes(o, last, rest.value, PrintOptions(os[1..], o.number));
      } else {
        assert Plain(o.value) by { assert os[..i][0] == o; }
        SameOptionBytes(o, last);
        assert os[1..][..i - 1] == os[..i][1..];
        LongTextList(os[1..], o.number, i - 1);
        SamePrefix(e.value, rest.value, PrintOptions(os[1..], o.number));
      }
    }
  }

  lemma SamePrefix(a: bytes, s: bytes, t: bytes)
    ensures a + s == a + t ==> s == t
  {
    assert (a + s)[|a|..] == s && (a + t)[|a|..] == t;
  }

  /**
    Adding the typed options to an empty container and encoding it gives the bytes that the
    serializer writes for the same options, in whatever order they were given, if every text is
    ASCII; it raises exactly when some integer needs more than 32 bits or some value is exactly
    65804 octets long. With any other text the two never write the same.
   */
  lemma CodecAgreement(os: seq<StoredOption>)
    requires forall i :: 0 <= i < |os| ==>
      WellTyped(os[i]) && TablesAgree(os[i].number) && Length(os[i].value) <= MAX_FIELD
    ensures PrintBody(os, None).Ok?
    ensures var g := AddAll(map[], TypedAll(os));
            && ValidGroups(g)
            && (AllPlain(os) ==> EncodeGroups(g) == if AllSmall(os) then PrintBody(os, None) else Raised)
            && (!AllPlain(os) ==> EncodeGroups(g) != PrintBody(os, None))
  {
    hide SortByNumber, WellTyped, TablesAgree, AddAll, OptionList, EncodeList, PrintOptions, AllFit, AllSmall, Length,
      Sorted, TypedAll, Ascending, ValidGroups, Plain;
    var sorted := SortByNumber(os);
    SortIsStable(os);
    forall i | 0 <= i < |sorted| ensures sorted[i] in os {
      assert sorted[i] in multiset(os);
    }
    SortedOptionsFit(sorted, 0);
    GroupsOfList(TypedAll(os));
    GroupOrderIsStableSort(TypedAll(os));
    SortTyped(os);
    TypedIsAscending(sorted);
    SortKeepsPlain(os);
    assert PrintOptions(sorted, 0) + [] == PrintOptions(sorted, 0);
    if AllPlain(os) {
      SameListBytes(sorted, 0);
      SortKeepsSmall(os);
    } else {
      var i := FirstLongText(sorted);
      LongTextList(sorted, 0, i);
    }
  }
}
