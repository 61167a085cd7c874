/** Octets, big-endian integers and the integer width helpers. */
module Bytes {

  import opened Wrappers

  type byte = b: int | 0 <= b < 256
  type bytes = seq<byte>

  function Pow256(n: nat): (p: nat)
    ensures p > 0
  {
    if n == 0 then 1 else 256 * Pow256(n - 1)
  }

  /** The order in which a machine packs the two octets of a native short. */
  datatype ByteOrder = Big | Little

  /** The integer that a big-endian octet string denotes. */
  function Fold(bs: bytes): nat {
    if bs == [] then 0 else Fold(bs[..|bs| - 1]) * 256 + bs[|bs| - 1]
  }

  /** The low n octets of v, most significant first. */
  function Words(v: nat, n: nat): (ws: bytes)
    ensures |ws| == n
  {
    if n == 0 then [] else Words(v / 256, n - 1) + [v % 256]
  }

  /** The number of octets needed to write v. */
  function ByteLen(v: nat): nat {
    if v == 0 then 0 else 1 + ByteLen(v / 256)
  }

  /** The number of binary digits of v. */
  function BitLen(v: nat): nat {
    if v == 0 then 0 else 1 + BitLen(v / 2)
  }

  function BitOr(a: nat, b: nat): nat {
    if a == 0 then b else if b == 0 then a
    else 2 * BitOr(a / 2, b / 2) + (if a % 2 == 1 || b % 2 == 1 then 1 else 0)
  }

  lemma BitOrOfNibbles(a: nat, b: nat)
    requires a < 16 && b < 16
    ensures BitOr(a, b) < 16
  {
    assert BitOr(a / 2 / 2 / 2, b / 2 / 2 / 2) <= 1;
    assert BitOr(a / 2 / 2, b / 2 / 2) <= 3;
    assert BitOr(a / 2, b / 2) <= 7;
  }

  lemma {:induction false} FoldOfWords(v: nat, n: nat)
    requires v < Pow256(n)
    ensures Fold(Words(v, n)) == v
  {
    if n > 0 {
      FoldOfWords(v / 256, n - 1);
      assert Words(v, n)[..n - 1] == Words(v / 256, n - 1);
    }
  }

  lemma {:induction false} WordsOfFold(bs: bytes)
    ensures Fold(bs) < Pow256(|bs|)
    ensures Words(Fold(bs), |bs|) == bs
  {
    if bs != [] {
      WordsOfFold(bs[..|bs| - 1]);
    }
  }

  /** ByteLen(v) is the least width that can hold v. */
  lemma {:induction false} ByteLenIsLeast(v: nat, n: nat)
    ensures v < Pow256(n) <==> ByteLen(v) <= n
  {
    if v > 0 && n > 0 {
      ByteLenIsLeast(v / 256, n - 1);
    }
  }

  /** Written at its own width an integer has no leading zero octet and reads back. */
  lemma {:induction false} PackedInteger(v: nat)
    ensures Fold(Words(v, ByteLen(v))) == v
    ensures v > 0 ==> Words(v, ByteLen(v))[0] != 0
  {
    ByteLenIsLeast(v, ByteLen(v));
    FoldOfWords(v, ByteLen(v));
    if v >= 256 {
      PackedInteger(v / 256);
    }
  }

  lemma BitLenBy2(v: nat)
    ensures v >= 4 ==> BitLen(v) == 2 + BitLen(v / 4)
    ensures 0 < v < 4 ==> 1 <= BitLen(v) <= 2
  {
    assert v >= 2 ==> BitLen(v / 2) == 1 + BitLen(v / 2 / 2);
  }

  lemma BitLenBy8(v: nat)
    ensures v >= 256 ==> BitLen(v) == 8 + BitLen(v / 256)
    ensures 0 < v < 256 ==> 1 <= BitLen(v) <= 8
  {
    hide BitLen;
    BitLenBy2(v);
    BitLenBy2(v / 4);
    BitLenBy2(v / 16);
    BitLenBy2(v / 64);
  }

  lemma {:induction false} ByteLenFromBits(v: nat)
    ensures ByteLen(v) == (BitLen(v) + 7) / 8
  {
    BitLenBy8(v);
    if v >= 256 {
      ByteLenFromBits(v / 256);
    }
  }

  /** Count binary digits by shifting, then round up to whole octets. */
  method CountOctets(intType: nat) returns (length: nat)
    ensures length == ByteLen(intType)
  {
    var rest := intType;
    length := 0;
    while rest != 0
      invariant length + BitLen(rest) == BitLen(intType)
    {
      rest := rest / 2;
      length := length + 1;
    }
    ByteLenFromBits(intType);
    if length > 0 {
      if length % 8 != 0 {
        length := length / 8 + 1;
      } else {
        length := length / 8;
      }
    }
  }

  /** Split an integer into numWords octets; an integer that does not fit raises. */
  method IntToWords(intVal: int, numWords: nat) returns (words: Result<bytes>)
    ensures words.Ok? <==> 0 <= intVal && ByteLen(intVal) <= numWords
    ensures words.Ok? ==> words.value == Words(intVal, numWords) && Fold(words.value) == intVal
  {
    if intVal < 0 {
      return Raised;
    }
    ByteLenIsLeast(intVal, numWords);
    if !(intVal <= Pow256(numWords) - 1) {
      return Raised;
    }
    var rest: nat := intVal;
    var reversed: bytes := [];
    for i := 0 to numWords
      invariant |reversed| == i
      invariant Words(rest, numWords - i) + Backwards(reversed) == Words(intVal, numWords)
    {
      reversed := reversed + [rest % 256];
      assert Words(rest, numWords - i) == Words(rest / 256, numWords - i - 1) + [rest % 256];
      rest := rest / 256;
    }
    FoldOfWords(intVal, numWords);
    words := Ok(Backwards(reversed));
  }

  function Backwards(bs: bytes): (r: bytes)
    ensures |r| == |bs|
  {
    if bs == [] then [] else [bs[|bs| - 1]] + Backwards(bs[..|bs| - 1])
  }

  /** Accumulate octets from the left, shifting by eight. */
  method FoldOctets(tmp: bytes) returns (value: nat)
    ensures value == Fold(tmp)
  {
    value := 0;
    for i := 0 to |tmp|
      invariant value == Fold(tmp[..i])
    {
      assert tmp[..i + 1][..i] == tmp[..i];
      value := value * 256 + tmp[i];
    }
    assert tmp[..|tmp|] == tmp;
  }
}
