/** Messages of the block layer as datagrams: written as options, parsed and read back by the getters. */
module MessageWire {

  import opened Wrappers
  import opened Bytes
  import opened OptionRegistry
  import opened OptionWire
  import opened OptionOrder
  import opened BodyCodec
  import UdpSerializer
  import opened BlockOption
  import opened Messages

  // ------------------------------------------------- messages as option lists

  function IntOption(number: nat, v: Option<nat>): seq<StoredOption> {
    if v.None? then [] else [CoapOption(number, Int(v.value))]
  }

  function Packed(b: Option<Block>): Option<nat> {
    if b.None? then None else Some(PackBlock(b.value))
  }

  /** The options that the block layer knows; an absent content type is not written. */
  function OwnOptions(m: Msg): seq<StoredOption> {
    IntOption(12, if m.contentType == 0 then None else Some(m.contentType))
    + IntOption(23, Packed(m.block2)) + IntOption(27, Packed(m.block1))
    + IntOption(28, m.size2) + IntOption(60, m.size1)
  }

  function OptionsOf(m: Msg): seq<StoredOption> { m.others + OwnOptions(m) }

  predicate IsOwn(number: nat) { number in {12, 23, 27, 28, 60} }

  /** The other options of a list. */
  function OthersOf(os: seq<StoredOption>): seq<StoredOption> {
    if os == [] then []
    else
      var front, last := OthersOf(os[..|os| - 1]), os[|os| - 1];
      if IsOwn(last.number) then front else front + [last]
  }

  /** The last option with a number, as the getters find it. */
  function Find(os: seq<StoredOption>, number: nat): Option<nat> {
    var found := WithNumber(os, number);
    if found != [] && found[|found| - 1].value.Int? then Some(found[|found| - 1].value.n) else None
  }

  /** The block getter; an option that cannot be parsed raises. */
  function FindBlock(os: seq<StoredOption>, number: nat): Result<Option<Block>>
    requires number == 23 || number == 27
  {
    match Find(os, number)
    case None => Ok(None)
    case Some(stored) =>
      match GetBlock(number, stored)
      case Raised => Raised
      case Ok(b) => Ok(Some(b))
  }

  /** What the message layer and the environment add on the way: type, id and a random token. */
  datatype AnyTag = Tag(typ: nat, mid: nat, drawn: bytes)

  type Tag = t: AnyTag | t.typ < 4 && t.mid < 0x1_0000 && |t.drawn| == 8 witness Tag(0, 0, [0, 0, 0, 0, 0, 0, 0, 0])

  function ToPacket(m: Msg, tag: Tag): UdpSerializer.Packet
    requires m.token.Some?
  {
    UdpSerializer.Packet(tag.typ, m.code, tag.mid, m.token.value, OptionsOf(m), m.payload)
  }

  /** The parsed packet as the layers read it; type and id stay with the message layer. */
  function FromPacket(p: UdpSerializer.Packet, m: Msg): Option<Msg> {
    var block1, block2 := FindBlock(p.options, 27), FindBlock(p.options, 23);
    if block1.Raised? || block2.Raised? then None
    else
      var ct := Find(p.options, 12);
      Some(m.(token := Some(p.token), code := p.code, payload := p.payload,
              block1 := block1.value, block2 := block2.value,
              size1 := Find(p.options, 60), size2 := Find(p.options, 28),
              contentType := if ct.None? then 0 else ct.value,
              others := OthersOf(p.options)))
  }

  /** A message after its passage as a datagram; None when it is lost. */
  function Cross(m: Msg, tag: Tag): Option<Msg> {
    if m.token.None? || !UdpSerializer.Representable(ToPacket(m, tag)) then None
    else
      match UdpSerializer.PrintDatagram(ToPacket(m, tag))
      case Raised => None
      case Ok(d) =>
        match UdpSerializer.ParseDatagram(d, tag.drawn)
        case Malformed(_) => None
        case Message(p) => FromPacket(p, m)
  }

  // ------------------------------------------------------------ what survives

  predicate BlockFits(b: Option<Block>) {
    b.None? || (b.value.num < 0x10_0000 && NamedSize(b.value.size) && b.value != Block(0, false, 16))
  }

  predicate NumberFits(v: Option<nat>) { v.None? || ByteLen(v.value) <= MAX_FIELD }

  /** The other options are in order, well formed, of no number of the block layer, and no empty or long texts. */
  predicate OthersFit(os: seq<StoredOption>) {
    && Sorted(os) && WellFormed(os) && AllPlain(os) && !UdpSerializer.HasEmptyString(os)
    && forall i :: 0 <= i < |os| ==> !IsOwn(os[i].number)
  }

  /** The serializer accepts the message, and its token and code are ones that the parser keeps. */
  predicate Writable(m: Msg) {
    && m.token.Some? && 0 < |m.token.value| < 16 && OthersFit(m.others)
    && m.code.Some? && KnownCode(m.code.value) && (IsRequest(m.code.value) || IsResponse(m.code.value))
    && NumberFits(Packed(m.block1)) && NumberFits(Packed(m.block2))
    && NumberFits(m.size1) && NumberFits(m.size2) && NumberFits(Some(m.contentType))
  }

  predicate Fits(m: Msg) {
    && m.token.Some? && 0 < |m.token.value| < 16 && OthersFit(m.others)
    && m.code.Some? && KnownCode(m.code.value) && (IsRequest(m.code.value) || IsResponse(m.code.value))
    && BlockFits(m.block1) && BlockFits(m.block2)
    && NumberFits(m.size1) && NumberFits(m.size2) && NumberFits(Some(m.contentType))
  }

  lemma FitsIsWritable(m: Msg)
    ensures Fits(m) <==> Writable(m) && BlockFits(m.block1) && BlockFits(m.block2)
  {
    hide BlockFits, NumberFits;
    if BlockFits(m.block1) { PackedFits(m.block1); }
    if BlockFits(m.block2) { PackedFits(m.block2); }
  }

  /** An empty payload is not written, so it arrives as none. */
  function Normal(m: Msg): Msg { if m.payload == Some([]) then m.(payload := None) else m }

  lemma FindInConcat(a: seq<StoredOption>, number: nat, v: Option<nat>, n: nat)
    ensures Find(a + IntOption(number, v), n) == if number == n && v.Some? then v else Find(a, n)
  {
    if v.None? {
      assert a + [] == a;
    } else {
      WithNumberSnoc(a, CoapOption(number, Int(v.value)), n);
    }
  }

  lemma {:induction false} NoneWithNumber(os: seq<StoredOption>, n: nat)
    requires forall i :: 0 <= i < |os| ==> os[i].number != n
    ensures WithNumber(os, n) == []
  {
    if os != [] {
      NoneWithNumber(os[..|os| - 1], n);
    }
  }

  lemma FoundOptions(m: Msg)
    requires forall i :: 0 <= i < |m.others| ==> !IsOwn(m.others[i].number)
    ensures var os := OptionsOf(m);
            && Find(os, 12) == (if m.contentType == 0 then None else Some(m.contentType))
            && Find(os, 23) == Packed(m.block2) && Find(os, 27) == Packed(m.block1)
            && Find(os, 28) == m.size2 && Find(os, 60) == m.size1
  {
    var ct := if m.contentType == 0 then None else Some(m.contentType);
    forall n: nat | IsOwn(n) ensures Find(m.others, n) == None {
      NoneWithNumber(m.others, n);
    }
    hide Find, IntOption, Packed;
    var a := m.others + IntOption(12, ct);
    var b := a + IntOption(23, Packed(m.block2));
    var c := b + IntOption(27, Packed(m.block1));
    var d := c + IntOption(28, m.size2);
    assert OptionsOf(m) == d + IntOption(60, m.size1);
    forall n: nat ensures
      && Find(a, n) == (if 12 == n && ct.Some? then ct else Find(m.others, n))
      && Find(b, n) == (if 23 == n && Packed(m.block2).Some? then Packed(m.block2) else Find(a, n))
      && Find(c, n) == (if 27 == n && Packed(m.block1).Some? then Packed(m.block1) else Find(b, n))
      && Find(d, n) == (if 28 == n && m.size2.Some? then m.size2 else Find(c, n))
      && Find(OptionsOf(m), n) == (if 60 == n && m.size1.Some? then m.size1 else Find(d, n))
    {
      FindInConcat(m.others, 12, ct, n);
      FindInConcat(a, 23, Packed(m.block2), n);
      FindInConcat(b, 27, Packed(m.block1), n);
      FindInConcat(c, 28, m.size2, n);
      FindInConcat(d, 60, m.size1, n);
    }
  }

  lemma {:induction false} OthersWithNumber(os: seq<StoredOption>, n: nat)
    ensures WithNumber(OthersOf(os), n) == if IsOwn(n) then [] else WithNumber(os, n)
  {
    if os != [] {
      var front, last := os[..|os| - 1], os[|os| - 1];
      OthersWithNumber(front, n);
      WithNumberSnoc(OthersOf(front), last, n);
    }
  }

  lemma {:induction false} OthersAreAmong(os: seq<StoredOption>)
    ensures forall o :: o in OthersOf(os) ==> o in os
  {
    if os != [] {
      OthersAreAmong(os[..|os| - 1]);
    }
  }

  lemma {:induction false} OthersStaySorted(os: seq<StoredOption>)
    requires Sorted(os)
    ensures Sorted(OthersOf(os))
  {
    if os != [] {
      var front, last := os[..|os| - 1], os[|os| - 1];
      OthersStaySorted(front);
      OthersAreAmong(front);
      forall i | 0 <= i < |OthersOf(front)| ensures OthersOf(front)[i].number <= last.number {
        assert OthersOf(front)[i] in front;
      }
    }
  }

  lemma {:induction false} ConcatWithNumber(a: seq<StoredOption>, b: seq<StoredOption>, n: nat)
    ensures WithNumber(a + b, n) == WithNumber(a, n) + WithNumber(b, n)
  {
    if b == [] {
      assert a + b == a;
    } else {
      assert a + b == a + b[..|b| - 1] + [b[|b| - 1]];
      ConcatWithNumber(a, b[..|b| - 1], n);
      WithNumberSnoc(a + b[..|b| - 1], b[|b| - 1], n);
    }
  }

  /** Sorted on the way, the options give back the others and whatever the getters look for. */
  lemma OthersArrive(m: Msg)
    requires OthersFit(m.others)
    ensures OthersOf(SortByNumber(OptionsOf(m))) == m.others
    ensures forall n: nat :: Find(SortByNumber(OptionsOf(m)), n) == Find(OptionsOf(m), n)
  {
    hide SortByNumber, OwnOptions, WellFormed, AllPlain, UdpSerializer.HasEmptyString;
    var os := SortByNumber(OptionsOf(m));
    SortIsStable(OptionsOf(m));
    OthersStaySorted(os);
    forall n: nat ensures WithNumber(OthersOf(os), n) == WithNumber(m.others, n) {
      OthersWithNumber(os, n);
      ConcatWithNumber(m.others, OwnOptions(m), n);
      if IsOwn(n) {
        NoneWithNumber(m.others, n);
      } else {
        OwnNumbers(m);
        NoneWithNumber(OwnOptions(m), n);
      }
    }
    StableOrderIsUnique(OthersOf(os), m.others);
  }

  lemma OwnNumbers(m: Msg)
    ensures forall i :: 0 <= i < |OwnOptions(m)| ==> IsOwn(OwnOptions(m)[i].number)
  {
  }

  /** One more option with a larger number keeps a list well formed and in order. */
  lemma AppendedOption(os: seq<StoredOption>, number: nat, v: Option<nat>, bound: nat)
    requires Consistent(os, bound) && bound < number && NumberFits(v) && !UdpSerializer.HasEmptyString(os)
    requires Lookup(number).Some? && Lookup(number).value.kind == Integer
    ensures Consistent(os + IntOption(number, v), number) && !UdpSerializer.HasEmptyString(os + IntOption(number, v))
    ensures AllPlain(os) ==> AllPlain(os + IntOption(number, v))
  {
    if v.None? {
      assert os + [] == os;
    } else {
      ConsistentSnoc(os, CoapOption(number, Int(v.value)), bound);
    }
  }

  lemma PackedFits(b: Option<Block>)
    requires BlockFits(b)
    ensures NumberFits(Packed(b))
  {
    if b.Some? {
      assert PackBlock(b.value) < 0x100_0000;
      ByteLenIsLeast(PackBlock(b.value), 3);
      assert Pow256(3) == 256 * Pow256(2) == 256 * (256 * Pow256(1));
    }
  }

  lemma OwnAreWellFormed(m: Msg)
    requires Writable(m)
    ensures WellFormed(OwnOptions(m)) && AllPlain(OwnOptions(m)) && !UdpSerializer.HasEmptyString(OwnOptions(m))
  {
    hide IntOption, Packed, WellFormed, Sorted, UdpSerializer.HasEmptyString, AllPlain;
    var ct := if m.contentType == 0 then None else Some(m.contentType);
    EmptyIsConsistent();
    assert !UdpSerializer.HasEmptyString([]) && AllPlain([]) by { NothingEmpty(); }
    AppendedOption([], 12, ct, 0);
    assert [] + IntOption(12, ct) == IntOption(12, ct);
    var a := IntOption(12, ct);
    AppendedOption(a, 23, Packed(m.block2), 12);
    var b := a + IntOption(23, Packed(m.block2));
    AppendedOption(b, 27, Packed(m.block1), 23);
    var c := b + IntOption(27, Packed(m.block1));
    AppendedOption(c, 28, m.size2, 27);
    AppendedOption(c + IntOption(28, m.size2), 60, m.size1, 28);
  }

  lemma OptionsAreWellFormed(m: Msg)
    requires Writable(m)
    ensures var os := OptionsOf(m);
            WellFormed(os) && AllPlain(os) && !UdpSerializer.HasEmptyString(os)
  {
    OwnAreWellFormed(m);
    OwnNumbers(m);
    hide OwnOptions, IsOwn, WellTyped, Plain, Lookup;
    var a, b, os := m.others, OwnOptions(m), OptionsOf(m);
    assert forall i, j :: 0 <= i < |a| && 0 <= j < |b| ==> IsOwn(b[j].number) && a[i].number != b[j].number;
    forall i, j | 0 <= i < j < |os| && os[i].number == os[j].number
      ensures Lookup(os[i].number).Some? && Lookup(os[i].number).value.repeatable
    {
      if j < |a| {
        assert a[i].number == a[j].number;
      } else {
        assert os[j] == b[j - |a|];
        if i >= |a| {
          assert b[i - |a|].number == b[j - |a|].number;
        }
      }
    }
  }

  lemma NothingEmpty()
    ensures !UdpSerializer.HasEmptyString([]) && AllPlain([])
  {
  }

  lemma BlockIsFound(os: seq<StoredOption>, number: nat, b: Option<Block>)
    requires number == 23 || number == 27
    requires Find(os, number) == Packed(b)
    ensures FindBlock(os, number) == Ok(b) <==> BlockFits(b)
    ensures FindBlock(os, number) == Raised <==> WrittenAsZero(b)
  {
    hide Find;
    if b.Some? {
      BlockOverTheWire(number, b.value);
      NoValueNoBlock();
    }
  }

  /** Block (0, false) of size 16, or of a smaller size that is written as 16. */
  predicate WrittenAsZero(b: Option<Block>) { b.Some? && b.value.num == 0 && !b.value.more && b.value.size <= 16 }

  /**
    A message that can be written arrives as it was sent exactly when its blocks fit their options;
    with a block that is written as zero it does not arrive at all.
   */
  lemma MessageSurvives(m: Msg, tag: Tag)
    requires Writable(m)
    ensures Cross(m, tag) == Some(Normal(m)) <==> Fits(m)
    ensures Cross(m, tag) == None <==> WrittenAsZero(m.block1) || WrittenAsZero(m.block2)
  {
    hide UdpSerializer.PrintDatagram, UdpSerializer.ParseDatagram, UdpSerializer.HasEmptyString, OptionsOf, Find,
      FindBlock, WellFormed, KnownCode, Fits, SortByNumber, RereadAll, AllPlain, Sorted, IsRequest, IsResponse,
      BlockFits, NumberFits;
    FitsIsWritable(m);
    OptionsAreWellFormed(m);
    var p := ToPacket(m, tag);
    UdpSerializer.DatagramRoundTrip(p, tag.drawn);
    UdpSerializer.RereadUnchanged(SortByNumber(p.options));
    UdpSerializer.SortKeepsEmptyStrings(p.options);
    FoundOptions(m);
    OthersArrive(m);
    BlockIsFound(SortByNumber(p.options), 27, m.block1);
    BlockIsFound(SortByNumber(p.options), 23, m.block2);
  }

  lemma FittingMessageSurvives(m: Msg, tag: Tag)
    requires Fits(m)
    ensures Cross(m, tag) == Some(Normal(m))
  {
    hide Cross, Fits, Writable, Normal;
    FitsIsWritable(m);
    MessageSurvives(m, tag);
  }
}
