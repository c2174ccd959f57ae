/** Concrete format strings, scanned and expanded. */
module Scenarios {
  import opened Wrappers
  import opened StrIndices
  import opened Specifiers
  import opened Scanner
  import opened ScanProperties
  import opened VPrintfCall

  /** On ASCII text `char_indices` numbers the chars 0, 1, 2, ... */
  lemma AsciiIndices(s: string)
    requires AllAscii(s)
    ensures CharIndices(s) == seq(|s|, k requires 0 <= k < |s| => (k, s[k]))
  {
    forall k | 0 <= k < |s| ensures CharIndices(s)[k] == (k, s[k]) {
      CharIndicesAscii(s, k);
    }
  }

  lemma HalfUnsigned()
    ensures Scan("%hu") == Ok([U16])
  {
    var ci := CharIndices("%hu");
    AsciiIndices("%hu");
    assert ci == [(0, '%'), (1, 'h'), (2, 'u')];
    assert SkipWhile(ci, 1, IsFlag) == 1 && SkipWhile(ci, 1, IsAsciiDigit) == 1;
    assert Step(ci, 0) == Yield(Ok(U16), 3);
    assert CollectFrom(ci, 3) == Ok([]);
    assert [U16] + [] == [U16];
  }

  lemma LongIsTypeChar()
    ensures Scan("%ld") == Err(ScanError(InvalidType, 0, Some(1)))
  {
    AsciiIndices("%ld");
  }

  lemma DoubleHIsTypeChar()
    ensures Scan("%hhd") == Err(ScanError(InvalidType, 0, Some(2)))
  {
    AsciiIndices("%hhd");
    DoubleHRun(CharIndices("%hhd"));
  }

  lemma DoubleHRun(ci: Chars)
    requires |ci| == 4 && ci[0] == (0, '%') && ci[1] == (1, 'h') && ci[2] == (2, 'h') && ci[3] == (3, 'd')
    ensures CollectFrom(ci, 0) == Err(ScanError(InvalidType, 0, Some(2)))
  {
    assert SkipWhile(ci, 1, IsFlag) == 1 && SkipWhile(ci, 1, IsAsciiDigit) == 1;
  }

  lemma SignedShortRefused()
    ensures Scan("%hd") == Err(ScanError(ShortIntUnimplemented, 0, Some(2)))
  {
    var ci := CharIndices("%hd");
    AsciiIndices("%hd");
    assert ci == [(0, '%'), (1, 'h'), (2, 'd')];
    assert SkipWhile(ci, 1, IsFlag) == 1 && SkipWhile(ci, 1, IsAsciiDigit) == 1;
  }

  lemma SizedFloatRefused()
    ensures Scan("%hf") == Err(ScanError(SizeRefusal("floating-point"), 0, Some(2)))
  {
    var ci := CharIndices("%hf");
    AsciiIndices("%hf");
    assert ci == [(0, '%'), (1, 'h'), (2, 'f')];
    assert SkipWhile(ci, 1, IsFlag) == 1 && SkipWhile(ci, 1, IsAsciiDigit) == 1;
  }

  lemma StarWidthRefused()
    ensures Scan("%*d") == Err(ScanError(VariableWidth, 0, Some(1)))
  {
    AsciiIndices("%*d");
  }

  lemma StarPrecisionRefused()
    ensures Scan("%.*f") == Err(ScanError(VariablePrecision, 0, Some(2)))
  {
    var ci := CharIndices("%.*f");
    AsciiIndices("%.*f");
    assert ci == [(0, '%'), (1, '.'), (2, '*'), (3, 'f')];
    assert SkipWhile(ci, 1, IsFlag) == 1 && SkipWhile(ci, 1, IsAsciiDigit) == 1;
  }

  lemma PrecisionEndsEarly()
    ensures Scan("%5.") == Err(ScanError(EndedEarly, 0, None))
  {
    var ci := CharIndices("%5.");
    AsciiIndices("%5.");
    assert ci == [(0, '%'), (1, '5'), (2, '.')];
    assert SkipWhile(ci, 1, IsFlag) == 1 && SkipWhile(ci, 1, IsAsciiDigit) == 2;
    assert SkipWhile(ci, 3, IsAsciiDigit) == 3;
  }

  /** The char indices of "%-+ #08.3x", one by one. */
  predicate AllPartsIndices(ci: Chars) {
    |ci| == 10
    && ci[0] == (0, '%') && ci[1] == (1, '-') && ci[2] == (2, '+') && ci[3] == (3, ' ')
    && ci[4] == (4, '#') && ci[5] == (5, '0') && ci[6] == (6, '8') && ci[7] == (7, '.')
    && ci[8] == (8, '3') && ci[9] == (9, 'x')
  }

  lemma AllPartsUnsigned()
    ensures Scan("%-+ #08.3x") == Ok([U32])
  {
    AsciiIndices("%-+ #08.3x");
    AllPartsRun(CharIndices("%-+ #08.3x"));
  }

  lemma AllPartsFlags(ci: Chars)
    requires AllPartsIndices(ci)
    ensures SkipWhile(ci, 1, IsFlag) == 6
  {
    assert SkipWhile(ci, 6, IsFlag) == 6;
    assert SkipWhile(ci, 5, IsFlag) == 6;
    assert SkipWhile(ci, 4, IsFlag) == 6;
    assert SkipWhile(ci, 3, IsFlag) == 6;
    assert SkipWhile(ci, 2, IsFlag) == 6;
  }

  lemma AllPartsRun(ci: Chars)
    requires AllPartsIndices(ci)
    ensures CollectFrom(ci, 0) == Ok([U32])
  {
    AllPartsFlags(ci);
    assert SkipWhile(ci, 6, IsAsciiDigit) == 7;
    assert SkipWhile(ci, 8, IsAsciiDigit) == 9;
    assert SizeAndType(ci, 0, 9) == Yield(Ok(U32), 10);
    assert Precision(ci, 0, 7) == Yield(Ok(U32), 10);
    assert Step(ci, 0) == Yield(Ok(U32), 10);
    assert CollectFrom(ci, 10) == Ok([]);
    assert [U32] + [] == [U32];
  }

  /** A "%%" between two runs of text without '%' scans to no wire types. */
  lemma EscapedPercentOnly(u: string, v: string)
    requires forall k :: 0 <= k < |u| ==> u[k] != '%'
    requires forall k :: 0 <= k < |v| ==> v[k] != '%'
    ensures Scan(u + "%%" + v) == Ok([])
    ensures Expand<int>(u + "%%" + v, []).expansion == Call([])
  {
    NoPercentLiteral(u);
    NoPercentLiteral(v);
    LiteralConcat("%%", v);
    LiteralConcat(u, "%%" + v);
    assert u + ("%%" + v) == u + "%%" + v;
    LiteralScansEmpty(u + "%%" + v);
    ExpandCall<int>(u + "%%" + v, []);
  }

  /** A '%' directly followed by a type character converts with no size. */
  lemma PlainConversion(ci: Chars, p: nat)
    requires p + 1 < |ci| && ci[p].1 == '%' && TypeChar(ci[p + 1].1).Some?
    ensures Step(ci, p) == Yield(Ok(Resolve(TypeChar(ci[p + 1].1).value, None).value), p + 2)
  {
    var c := ci[p + 1].1;
    assert c in TypeChars;
    assert !IsFlag(c) && !IsAsciiDigit(c) && c != '*' && c != '.' && c != 'h' && c != '%';
  }

  /** Pulling one value off the front of `collect`. */
  lemma CollectCons(ci: Chars, p: nat, w: SizedType, rest: nat, ws: seq<SizedType>)
    requires p <= |ci| && Step(ci, p) == Yield(Ok(w), rest) && CollectFrom(ci, rest) == Ok(ws)
    ensures CollectFrom(ci, p) == Ok([w] + ws)
  {
  }

  /** Skipping one character of literal text before a conversion. */
  lemma SkipOne(ci: Chars, p: nat)
    requires p < |ci| && ci[p].1 != '%'
    ensures Step(ci, p) == Step(ci, p + 1)
    ensures CollectFrom(ci, p) == CollectFrom(ci, p + 1)
  {
  }

  /** The wire type of a type character used with no size prefix. */
  function PlainType(c: char): Option<SizedType> {
    match c
    case 'd' => Some(I32)
    case 'u' => Some(U32)
    case 'f' => Some(Double)
    case 'c' => Some(U32)
    case 's' => Some(StrPtr)
    case 'p' => Some(VoidPtr)
    case _ => None
  }

  /** `collect` meeting one plain conversion and then ws. */
  lemma CollectPlain(ci: Chars, p: nat, w: SizedType, ws: seq<SizedType>)
    requires p + 2 <= |ci| && ci[p].1 == '%' && PlainType(ci[p + 1].1) == Some(w)
    requires CollectFrom(ci, p + 2) == Ok(ws)
    ensures CollectFrom(ci, p) == Ok([w] + ws)
  {
    var c := ci[p + 1].1;
    assert TypeChar(c).Some? && Resolve(TypeChar(c).value, None) == Ok(w);
    PlainConversion(ci, p);
  }

  /** One conversion of each family the wire types can carry. */
  const Supported: string := "%d %u %f %c %s %p"

  /** The char indices of `Supported`. */
  predicate SupportedIndices(ci: Chars) {
    |ci| == 17 && forall k :: 0 <= k < 17 ==> ci[k] == (k, Supported[k])
  }

  lemma SupportedTypes()
    ensures Scan("%d %u %f %c %s %p") == Ok([I32, U32, Double, U32, StrPtr, VoidPtr])
  {
    AsciiIndices(Supported);
    SupportedRun(CharIndices(Supported));
  }

  lemma SupportedFrom14(ci: Chars)
    requires SupportedIndices(ci)
    ensures CollectFrom(ci, 14) == Ok([VoidPtr])
  {
    assert CollectFrom(ci, 17) == Ok([]);
    CollectPlain(ci, 15, VoidPtr, []);
    assert [VoidPtr] + [] == [VoidPtr];
    SkipOne(ci, 14);
  }

  lemma SupportedFrom11(ci: Chars)
    requires SupportedIndices(ci)
    ensures CollectFrom(ci, 11) == Ok([StrPtr, VoidPtr])
  {
    SupportedFrom14(ci);
    CollectPlain(ci, 12, StrPtr, [VoidPtr]);
    assert [StrPtr] + [VoidPtr] == [StrPtr, VoidPtr];
    SkipOne(ci, 11);
  }

  lemma SupportedFrom8(ci: Chars)
    requires SupportedIndices(ci)
    ensures CollectFrom(ci, 8) == Ok([U32, StrPtr, VoidPtr])
  {
    SupportedFrom11(ci);
    CollectPlain(ci, 9, U32, [StrPtr, VoidPtr]);
    assert [U32] + [StrPtr, VoidPtr] == [U32, StrPtr, VoidPtr];
    SkipOne(ci, 8);
  }

  lemma SupportedFrom5(ci: Chars)
    requires SupportedIndices(ci)
    ensures CollectFrom(ci, 5) == Ok([Double, U32, StrPtr, VoidPtr])
  {
    SupportedFrom8(ci);
    CollectPlain(ci, 6, Double, [U32, StrPtr, VoidPtr]);
    assert [Double] + [U32, StrPtr, VoidPtr] == [Double, U32, StrPtr, VoidPtr];
    SkipOne(ci, 5);
  }

  lemma SupportedFrom2(ci: Chars)
    requires SupportedIndices(ci)
    ensures CollectFrom(ci, 2) == Ok([U32, Double, U32, StrPtr, VoidPtr])
  {
    SupportedFrom5(ci);
    CollectPlain(ci, 3, U32, [Double, U32, StrPtr, VoidPtr]);
    assert [U32] + [Double, U32, StrPtr, VoidPtr] == [U32, Double, U32, StrPtr, VoidPtr];
    SkipOne(ci, 2);
  }

  lemma SupportedRun(ci: Chars)
    requires SupportedIndices(ci)
    ensures CollectFrom(ci, 0) == Ok([I32, U32, Double, U32, StrPtr, VoidPtr])
  {
    SupportedFrom2(ci);
    CollectPlain(ci, 0, I32, [U32, Double, U32, StrPtr, VoidPtr]);
    assert [I32] + [U32, Double, U32, StrPtr, VoidPtr] == [I32, U32, Double, U32, StrPtr, VoidPtr];
  }

  /**
   * A format string that uses long long: the scanner reads the first 'l' as
   * the type character, and what follows is never examined.
   */
  lemma LongLongLineRefused()
    ensures Scan("%d %u %lld %llu %f %c %s %p") == Err(ScanError(InvalidType, 6, Some(7)))
  {
    var fmt := "%d %u %lld %llu %f %c %s %p";
    var u := fmt[..8];
    AsciiIndices(u);
    LongLongPrefix(CharIndices(u));
    ErrorIgnoresSuffix(u, fmt[8..]);
    assert u + fmt[8..] == fmt;
  }

  lemma LongLongPrefix(ci: Chars)
    requires ci == [(0, '%'), (1, 'd'), (2, ' '), (3, '%'), (4, 'u'), (5, ' '), (6, '%'), (7, 'l')]
    ensures CollectFrom(ci, 0) == Err(ScanError(InvalidType, 6, Some(7)))
  {
    LongLongSteps(ci);
  }

  lemma LongLongSteps(ci: Chars)
    requires |ci| == 8 && ci[0] == (0, '%') && ci[1] == (1, 'd') && ci[2] == (2, ' ') && ci[3] == (3, '%')
    requires ci[4] == (4, 'u') && ci[5] == (5, ' ') && ci[6] == (6, '%') && ci[7] == (7, 'l')
    ensures CollectFrom(ci, 0) == Err(ScanError(InvalidType, 6, Some(7)))
  {
    assert SkipWhile(ci, 7, IsFlag) == 7 && SkipWhile(ci, 7, IsAsciiDigit) == 7;
    assert Step(ci, 6) == Yield(Err(ScanError(InvalidType, 6, Some(7))), 8);
    SkipOne(ci, 5);
    PlainConversion(ci, 3);
    SkipOne(ci, 2);
    PlainConversion(ci, 0);
  }

  /** Two conversions and one argument: the expansion asserts and panics. */
  lemma TooFewArguments()
    ensures Expand<int>("%d %d", [7]).expansion == Panicked(ArityMismatch(2, 1))
  {
    var fmt := "%d %d";
    AsciiIndices(fmt);
    TwoIntegers(CharIndices(fmt));
  }

  lemma TwoIntegers(ci: Chars)
    requires ci == [(0, '%'), (1, 'd'), (2, ' '), (3, '%'), (4, 'd')]
    ensures CollectFrom(ci, 0) == Ok([I32, I32])
  {
    assert Step(ci, 5) == Done;
    PlainConversion(ci, 3);
    CollectCons(ci, 3, I32, 5, []);
    assert [I32] + [] == [I32];
    SkipOne(ci, 2);
    PlainConversion(ci, 0);
    CollectCons(ci, 0, I32, 2, [I32]);
    assert [I32] + [I32] == [I32, I32];
  }

  /**
   * A '%' in the type position is read as the type char, not as an escape:
   * after the flags and the width, "%-03%" is refused at its second '%'.
   */
  lemma PercentAsTypeRefused()
    ensures Scan("%-03%") == Err(ScanError(InvalidType, 0, Some(4)))
  {
    AsciiIndices("%-03%");
    PercentAsTypeRun(CharIndices("%-03%"));
  }

  lemma PercentAsTypeRun(ci: Chars)
    requires |ci| == 5 && ci[0] == (0, '%') && ci[1] == (1, '-') && ci[2] == (2, '0')
    requires ci[3] == (3, '3') && ci[4] == (4, '%')
    ensures CollectFrom(ci, 0) == Err(ScanError(InvalidType, 0, Some(4)))
  {
  }
}
