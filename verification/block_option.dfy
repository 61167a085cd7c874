/** The Block1 and Block2 options: message setters, getters and parse_blockwise. */
module BlockOption {

  import opened Wrappers
  import opened Bytes
  import opened OptionRegistry
  import opened OptionWire

  datatype Block = Block(num: nat, more: bool, size: nat)

  /** The size exponent that the setters choose. */
  function SizeExponent(size: nat): (szx: nat)
    ensures szx < 8
  {
    if size > 512 then 6
    else if 256 < size <= 512 then 5
    else if 128 < size <= 256 then 4
    else if 64 < size <= 128 then 3
    else if 32 < size <= 64 then 2
    else if 16 < size <= 32 then 1
    else 0
  }

  function SizeOf(szx: nat): nat {
    if szx == 0 then 16 else 2 * SizeOf(szx - 1)
  }

  /** The integer that the setter stores in the option. */
  function PackBlock(b: Block): nat {
    b.num * 16 + (if b.more then 8 else 0) + SizeExponent(b.size)
  }

  /** parse_blockwise; None is what Option.value makes of a stored zero. */
  function ParseBlockwise(value: Option<nat>): Result<Block> {
    if value.None? then Raised
    else
      var v := value.value;
      var length := ByteLen(v);
      var num := if length == 1 then v / 16 % 0x10
                 else if length == 2 then v / 16 % 0x1000
                 else v / 16 % 0x10_0000;
      Ok(Block(num, v / 8 % 2 == 1, SizeOf(v % 8)))
  }

  /** Option.value of an integer option: a stored zero reads as the registered default. */
  function OptionValue(number: nat, stored: nat): Option<nat>
    requires Lookup(number).Some?
  {
    if ByteLen(stored) > 0 then Some(stored) else Lookup(number).value.default
  }

  function GetBlock(number: nat, stored: nat): Result<Block>
    requires number == 23 || number == 27
  {
    ParseBlockwise(OptionValue(number, stored))
  }

  predicate NamedSize(size: nat) { size in {16, 32, 64, 128, 256, 512, 1024} }

  lemma SizesInSteps()
    ensures SizeOf(0) == 16 && SizeOf(1) == 32 && SizeOf(2) == 64 && SizeOf(3) == 128
    ensures SizeOf(4) == 256 && SizeOf(5) == 512 && SizeOf(6) == 1024 && SizeOf(7) == 2048
  {
    assert SizeOf(3) == 2 * SizeOf(2) && SizeOf(2) == 2 * SizeOf(1);
    assert SizeOf(5) == 2 * SizeOf(4) && SizeOf(4) == 2 * SizeOf(3);
    assert SizeOf(7) == 2 * SizeOf(6) && SizeOf(6) == 2 * SizeOf(5);
  }

  lemma PackedParts(b: Block)
    ensures var v := PackBlock(b);
            v / 16 == b.num && (v / 8 % 2 == 1 <==> b.more) && v % 8 == SizeExponent(b.size)
  {
  }

  lemma WidthOf(v: nat)
    ensures ByteLen(v) == 1 ==> v / 16 < 0x10
    ensures ByteLen(v) == 2 ==> v / 16 < 0x1000
  {
    ByteLenIsLeast(v, 1);
    ByteLenIsLeast(v, 2);
    assert Pow256(2) == 256 * Pow256(1) == 256 * (256 * Pow256(0));
  }

  lemma ParsePackedBlock(b: Block)
    requires PackBlock(b) != 0
    ensures ParseBlockwise(Some(PackBlock(b)))
         == Ok(Block(b.num % 0x10_0000, b.more, SizeOf(SizeExponent(b.size))))
  {
    hide PackBlock, ByteLen, SizeOf, SizeExponent;
    PackedParts(b);
    WidthOf(PackBlock(b));
  }

  lemma SizeSurvives(size: nat)
    ensures SizeOf(SizeExponent(size)) == size <==> NamedSize(size)
  {
    hide SizeOf;
    SizesInSteps();
  }

  /** The setters round a size up to the next one that the option can name, and down to 1024 above that. */
  lemma SizesAreRounded(size: nat)
    ensures var s := SizeOf(SizeExponent(size));
            && NamedSize(s)
            && (size <= 1024 ==> size <= s && (s == 16 || s < 2 * size))
            && (size > 1024 ==> s == 1024)
  {
    hide SizeOf;
    SizesInSteps();
  }

  /** What any stored integer of up to three octets is read as. */
  lemma StoredTriple(v: nat)
    requires 0 < v < 0x100_0000
    ensures ParseBlockwise(Some(v)).Ok?
    ensures var b := ParseBlockwise(Some(v)).value;
            && b.num == v / 16 && (b.more <==> v % 16 >= 8)
            && b.size == (match v % 8 case 0 => 16 case 1 => 32 case 2 => 64 case 3 => 128 case 4 => 256 case 5 => 512
                          case 6 => 1024 case _ => 2048)
  {
    hide SizeOf, ByteLen;
    WidthOf(v);
    SizesInSteps();
  }

  /**
    A block triple set on a message, written as an option value, read back and parsed is the
    same triple exactly when the number has 20 bits, the size is one that the option can name,
    and the triple is not (0, 0, 16), whose zero reads as a missing value.
   */
  lemma BlockOverTheWire(number: nat, b: Block)
    requires number == 23 || number == 27
    ensures var stored := PackBlock(b);
            var arrived := ParseValue(Integer, Length(Int(stored)), ValueBytes(Int(stored)));
            && arrived == Some(Int(stored))
            && (GetBlock(number, arrived.value.n) == Ok(b)
                <==> b.num < 0x10_0000 && NamedSize(b.size) && b != Block(0, false, 16))
  {
    hide ParseBlockwise, SizeOf;
    var stored := PackBlock(b);
    ParsePrintedValue(Integer, Int(stored));
    SizeSurvives(b.size);
    if stored != 0 {
      ParsePackedBlock(b);
    } else {
      NoValueNoBlock();
    }
  }

  lemma NoValueNoBlock()
    ensures ParseBlockwise(None) == Raised
  {
  }
}
