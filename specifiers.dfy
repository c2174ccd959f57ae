/**
 * The vocabulary of a printf conversion: flag characters, the size prefix
 * (`FSize`), the conversion family named by the type character (`FType`), and
 * the fixed-width wire type (`SizedType`) each argument is lowered to, with
 * the table that resolves a (family, size) pair to a wire type or refuses it.
 */
module Specifiers {
  import opened Wrappers

  /** The flag characters of a conversion. */
  const FlagChars: string := "-+0 #"

  /** The type characters of the signed, unsigned and floating-point families. */
  const SignedTypeChars: string := "di"
  const UnsignedTypeChars: string := "uoxX"
  const FloatTypeChars: string := "fFeEgGaA"

  /** The type characters the scanner accepts. */
  const TypeChars: string := SignedTypeChars + UnsignedTypeChars + FloatTypeChars + "csp"

  /** `is_flag`. */
  predicate IsFlag(c: char)
    ensures IsFlag(c) <==> c in FlagChars
  {
    c == '-' || c == '+' || c == '0' || c == ' ' || c == '#'
  }

  /** `char::is_ascii_digit`, used for the width and precision digits. */
  predicate IsAsciiDigit(c: char) {
    '0' <= c <= '9'
  }

  datatype FSize = Short | Long | LongLong

  datatype FType = Integer(signed: bool) | Float | Char | Pointer | Str

  datatype SizedType = I16 | I32 | I64 | U16 | U32 | U64 | Double | VoidPtr | StrPtr {

    predicate IsInteger() {
      I16? || I32? || I64? || U16? || U32? || U64?
    }

    predicate IsSigned() {
      I16? || I32? || I64?
    }

    /** Width in bits of an integer wire type. */
    function Bits(): nat
      requires IsInteger()
    {
      match this
      case I16 | U16 => 16
      case I32 | U32 => 32
      case _ => 64
    }
  }

  /** The width in bits that a C size prefix gives an integer conversion on the device. */
  function SizeBits(size: Option<FSize>): nat {
    match size
    case None => 32
    case Some(Short) => 16
    case Some(_) => 64
  }

  /** `type_char`: the conversion family a type character names, None for any other character. */
  function TypeChar(c: char): (r: Option<FType>)
    ensures r.Some? <==> c in TypeChars
    ensures r == Some(Integer(true)) <==> c in SignedTypeChars
    ensures r == Some(Integer(false)) <==> c in UnsignedTypeChars
    ensures r == Some(Float) <==> c in FloatTypeChars
  {
    match c
    case 'd' | 'i' => Some(Integer(true))
    case 'u' | 'o' | 'x' | 'X' => Some(Integer(false))
    case 'f' | 'F' | 'e' | 'E' | 'g' | 'G' | 'a' | 'A' => Some(Float)
    case 'c' => Some(Char)
    case 's' => Some(Str)
    case 'p' => Some(Pointer)
    case _ => None
  }

  const ShortIntUnimplemented: string := "short int is unimplemented"
  const LongIntUnsupported: string := "long int is not supported"
  const LongUnsignedUnimplemented: string := "long unsigned int is unimplemented"

  /** How the "size not allowed" messages name each non-integer family. */
  function FamilyName(t: FType): string
    requires !t.Integer?
  {
    match t
    case Float => "floating-point"
    case Char => "char"
    case Str => "str"
    case Pointer => "pointer"
  }

  /** The message refusing a size prefix on a family that takes none. */
  function SizeRefusal(family: string): string {
    "Size specifiers are not allowed for " + family + " arguments"
  }

  /**
   * The resolution match of `FormatParser::next`: a wire type for the pair, or
   * the message of the error the scanner reports for it. The integer wire type
   * keeps the conversion's signedness and has the width the size prefix names;
   * signed short and plain long are refused; every non-integer family resolves
   * without a size prefix and is refused with one.
   */
  function Resolve(t: FType, size: Option<FSize>): (r: Result<SizedType, string>)
    ensures size.None? ==> r.Ok?
    ensures t.Integer? ==>
      (r.Ok? <==> size != Some(Long) && (t.signed ==> size != Some(Short)))
    ensures t.Integer? && r.Ok? ==>
      r.value.IsInteger() && r.value.IsSigned() == t.signed && r.value.Bits() == SizeBits(size)
    ensures !t.Integer? ==> (r.Ok? <==> size.None?)
    ensures r.Ok? && t == Float ==> r.value == Double
    ensures r.Ok? && t == Char ==> r.value == U32
    ensures r.Ok? && t == Str ==> r.value == StrPtr
    ensures r.Ok? && t == Pointer ==> r.value == VoidPtr
  {
    match (t, size)
    case (Integer(true), None) => Ok(I32)
    case (Integer(true), Some(Short)) => Err(ShortIntUnimplemented)
    case (Integer(true), Some(Long)) => Err(LongIntUnsupported)
    case (Integer(true), Some(LongLong)) => Ok(I64)
    case (Integer(false), None) => Ok(U32)
    case (Integer(false), Some(Short)) => Ok(U16)
    case (Integer(false), Some(Long)) => Err(LongUnsignedUnimplemented)
    case (Integer(false), Some(LongLong)) => Ok(U64)
    case (Float, None) => Ok(Double)
    case (Float, Some(_)) => Err(SizeRefusal("floating-point"))
    case (Char, None) => Ok(U32)
    case (Char, Some(_)) => Err(SizeRefusal("char"))
    case (Str, None) => Ok(StrPtr)
    case (Str, Some(_)) => Err(SizeRefusal("str"))
    case (Pointer, None) => Ok(VoidPtr)
    case (Pointer, Some(_)) => Err(SizeRefusal("pointer"))
  }

  /** A size prefix on a non-integer conversion is refused with a message naming its family. */
  lemma ResolveSizeRefusal(t: FType, size: FSize)
    requires !t.Integer?
    ensures Resolve(t, Some(size)) == Err(SizeRefusal(FamilyName(t)))
  {
  }

  /** The three integer refusals carry their own messages. */
  lemma ResolveIntegerErrors(signed: bool, size: Option<FSize>)
    requires Resolve(Integer(signed), size).Err?
    ensures Resolve(Integer(signed), size).error ==
      if signed && size == Some(Short) then ShortIntUnimplemented
      else if signed then LongIntUnsupported
      else LongUnsignedUnimplemented
  {
  }
}
