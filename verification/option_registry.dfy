/** The two independent option tables, and the known message codes. */
module OptionRegistry {

  import opened Wrappers

  datatype Kind = Integer | Text | Opaque

  datatype OptionItem = OptionItem(kind: Kind, repeatable: bool, default: Option<nat>)

  /** defines.OptionRegistry.LIST; numbers absent from it are unknown options. */
  function Lookup(number: nat): Option<OptionItem> {
    if number == 0 then Some(OptionItem(Opaque, true, None))
    else if number == 1 then Some(OptionItem(Opaque, true, None))
    else if number == 2 then Some(OptionItem(Integer, false, Some(1152)))
    else if number == 3 then Some(OptionItem(Text, true, None))
    else if number == 4 then Some(OptionItem(Opaque, true, None))
    else if number == 5 then Some(OptionItem(Opaque, false, None))
    else if number == 6 then Some(OptionItem(Integer, false, Some(0)))
    else if number == 7 then Some(OptionItem(Integer, false, Some(5683)))
    else if number == 8 then Some(OptionItem(Text, true, None))
    else if number == 11 then Some(OptionItem(Text, true, None))
    else if number == 12 then Some(OptionItem(Integer, false, Some(0)))
    else if number == 14 then Some(OptionItem(Integer, false, Some(60)))
    else if number == 15 then Some(OptionItem(Text, true, None))
    else if number == 17 then Some(OptionItem(Integer, false, Some(0)))
    else if number == 20 then Some(OptionItem(Text, true, None))
    else if number == 23 then Some(OptionItem(Integer, false, None))
    else if number == 27 then Some(OptionItem(Integer, false, None))
    else if number == 28 then Some(OptionItem(Integer, false, Some(0)))
    else if number == 35 then Some(OptionItem(Text, false, None))
    else if number == 39 then Some(OptionItem(Text, false, None))
    else if number == 60 then Some(OptionItem(Integer, false, None))
    else if number == 258 then Some(OptionItem(Integer, false, None))
    else if number == 2049 then Some(OptionItem(Integer, false, None))
    else if number == 2053 then Some(OptionItem(Integer, false, None))
    else if number == 65524 then Some(OptionItem(Opaque, false, None))
    else None
  }

  /** Which options are registered, which of them may repeat, and what their values are. */
  lemma RegisteredOptions(n: nat)
    ensures Lookup(n).Some? <==> n in {0, 1, 2, 3, 4, 5, 6, 7, 8, 11, 12, 14, 15, 17, 20, 23, 27, 28, 35, 39, 60, 258,
                                       2049, 2053, 65524}
    ensures Lookup(n).Some? ==>
              var item := Lookup(n).value;
              && (item.repeatable <==> n in {0, 1, 3, 4, 8, 11, 15, 20})
              && (item.kind == Text <==> n in {3, 8, 11, 15, 20, 35, 39})
              && (item.kind == Opaque <==> n in {0, 1, 4, 5, 65524})
              && item.default == (if n == 2 then Some(1152) else if n == 7 then Some(5683) else if n == 14 then Some(60)
                                  else if n in {6, 12, 17, 28} then Some(0) else None)
  {
  }

  datatype Format = OpaqueFormat | StringFormat | UintFormat | BlockFormat

  /** OptionNumber.format; every number without a format of its own is opaque. */
  function FormatOf(number: nat): Format {
    if number in {3, 8, 11, 15, 20, 35, 39} then StringFormat
    else if number in {6, 7, 12, 14, 17, 28, 60, 258, 2049, 2053} then UintFormat
    else if number in {23, 27} then BlockFormat
    else OpaqueFormat
  }

  /** The two tables give an option the same kind of value. */
  predicate TablesAgree(number: nat) {
    match Lookup(number)
    case None => false
    case Some(item) =>
      match FormatOf(number)
      case OpaqueFormat => item.kind == Opaque
      case StringFormat => item.kind == Text
      case UintFormat => item.kind == Integer
      case BlockFormat => item.kind == Integer
  }

  /** Every registered option means the same in both tables, except Max-Message-Size. */
  lemma TablesAgreeExceptMaxMessageSize(number: nat)
    ensures TablesAgree(number) <==> Lookup(number).Some? && number != 2
  {
  }

  predicate IsRequest(code: nat) { 1 <= code <= 31 }

  predicate IsResponse(code: nat) { 64 <= code <= 191 }

  /** defines.Codes.LIST. */
  predicate KnownCode(code: nat) {
    code in {0, 1, 2, 3, 4, 65, 66, 67, 68, 69, 95, 128, 131, 132, 133, 134, 136, 140, 141, 143,
             160, 161, 162, 163, 164, 165, 225, 226, 227, 228, 229}
  }
}
