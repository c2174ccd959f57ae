# nvptx-vprintf format-string scanner, modelled in Dafny

The `printf!` macro of nvptx-vprintf lowers a CUDA `printf(fmt, args...)` to
a `vprintf` call. To do that it scans the format string with `FormatParser`.
This is a cursor over the string's `char_indices` with one char of
lookahead. Each conversion `%[flags][width][.precision][size]type` becomes a
fixed-width wire type (`SizedType`): `i32`, `u16`, `u32`, `f64`, `*const u8`, and
so on. Otherwise the scan stops with an error `(message, start, end)`. The
macro then collects the wire types. The first error becomes a compile error
whose text quotes the offending conversion; as the slice at parser.rs:232 is
written, it panics instead when the offending char takes more than one byte
(see "## Findings"). On success it checks that the
arguments are as many as the wire types and builds a `#[repr(C)]` record
from them.

The model follows the source's structure:

- `Specifiers` (`specifiers.dfy`) holds the vocabulary: `is_flag`,
  `type_char`, the `FSize`, `FType` and `SizedType` enums, and the
  resolution table from a (family, size) pair to a wire type or an error
  message.
- `StrIndices` (`str_indices.dfy`) gives Rust's view of a string. Offsets are
  UTF-8 byte offsets (`CharIndices`), and slicing by byte range fails off a
  char boundary (`Slice`). The scanner therefore reports the same offsets the
  macro does, for any input, not only ASCII.
- `Scanner` (`scanner.dfy`) is the pure specification of the iterator.
  `Step` is one call of `next`, split into the stages of the source:
  `Conversion` (flags), `Width`, `Precision` and `SizeAndType`. `CollectFrom` is
  `collect::<Result<Vec<_>, _>>()`, and `Scan` runs it over a whole string.
- `Parser` (`format_parser.dfy`) is the imperative `FormatParser`: a class
  with the char indices and a cursor position. Its methods (`consume_if`,
  `consume_while`, `next`, ..., and the `collect` loop) each carry in
  their contract the same result and new position as the pure
  specification.
- `ScanProperties` (`scan_properties.dfy`) proves what the scanner promises.
  Literal text and `%%` contribute nothing. Error spans point at the `%` and
  at the offending char. `collect` returns the first error; an error that has an end is decided
  by the text up to that end and by nothing after it. The scanner never produces a 64-bit
  or 16-bit signed wire type.
- `VPrintfCall` (`vprintf_call.dfy`) is `to_tokens`: the diagnostic text, the
  arity assertion, the record fields and the more-than-32-arguments warning
  flag.
- `Scenarios` (`scenarios.dfy`) works concrete format strings through the
  model.

The size prefix is modelled as the code is written. parser.rs:132-142 tests
for `h`, then tests for `h` a second time; the comment above it reads
`h|l|ll`, and no test for `l` is made. The first test has already consumed any `h`, so the second
can never succeed, and `Parser.FormatParser.DecodeSizeAndType` proves that
branch dead with `assert false`. So only a single `h` is ever taken as a size.
`l`, `ll` and a second `h` are read as the type character, and
"Invalid type specifier" is reported there. The doc comment at
nvptx-vprintf/src/lib.rs:18-23 promises `%ll[di]` → `i64` and `%ll[uoxX]` →
`u64`. The code does not produce them, and the model follows the code
(`Scenarios.LongLongLineRefused`, `ScanProperties.ScanNeverWide`). The
resolution table (`Specifiers.Resolve`) stays total over all sizes, as the
source's match is.
The same goes for `%ld`: the source's "long int is not supported" arm is
never reached, and `%ld` is refused as an invalid type character instead.

## Model

| member | source | states |
|---|---|---|
| Specifiers.IsFlag | nvptx-vprintf/src/parser.rs:10-12 | a char is a flag exactly when it is one of `-+0 #` |
| Specifiers.IsAsciiDigit | nvptx-vprintf/src/parser.rs:116 | `char::is_ascii_digit`, the test of the width and, at parser.rs:127, the precision digits; no contract of its own, and `Scanner.SkipWhile` states the skip it drives |
| Specifiers.TypeChar | nvptx-vprintf/src/parser.rs:58-71 | a char has a family exactly when it is in `diuoxXfFeEgGaAcsp`; `di` are exactly the signed integers, `uoxX` exactly the unsigned ones, `fFeEgGaA` exactly the floating-point ones |
| Specifiers.Resolve | nvptx-vprintf/src/parser.rs:157-196 | with no size every family resolves; an integer resolves exactly when the size is not `l`, and not `h` for a signed one, and keeps its signedness with 16 bits for `h`, 32 for none and 64 for `ll`; a non-integer resolves only with no size, floating-point to `f64`, char to `u32`, str to `*const u8`, pointer to `*const c_void` |
| Specifiers.ResolveSizeRefusal | nvptx-vprintf/src/parser.rs:172-195 | any size on a float, char, str or pointer is refused with "Size specifiers are not allowed for <family> arguments", the family named floating-point, char, str or pointer |
| Specifiers.ResolveIntegerErrors | nvptx-vprintf/src/parser.rs:158-171 | the integer refusals carry exactly the messages "short int is unimplemented", "long int is not supported" and "long unsigned int is unimplemented" |
| StrIndices.Utf8Len | nvptx-vprintf/src/parser.rs:226 | a char takes one to four bytes, and one exactly when it is ASCII |
| StrIndices.ByteLen | nvptx-vprintf/src/parser.rs:232 | `str::len`, the end of `&fmt[start..]`; no contract of its own: `ByteLenBounds`, `ByteLenAppend`, `ByteLenAscii` and `ByteLenPrefixStep` state it |
| StrIndices.ByteLenBounds | nvptx-vprintf/src/parser.rs:232 | a string takes at least one and at most four bytes per char |
| StrIndices.ByteLenAppend | nvptx-vprintf/src/parser.rs:226 | the byte length of a concatenation is the sum of the byte lengths |
| StrIndices.ByteLenAscii | nvptx-vprintf/src/parser.rs:226 | the byte length of ASCII text is its char count |
| StrIndices.ByteLenPrefixStep | nvptx-vprintf/src/parser.rs:226 | extending a prefix by one char adds that char's UTF-8 length |
| StrIndices.CharIndices | nvptx-vprintf/src/parser.rs:226 | `char_indices` yields one pair per char |
| StrIndices.CharIndicesStep | nvptx-vprintf/src/parser.rs:226 | consecutive offsets differ by the UTF-8 length of the earlier char |
| StrIndices.CharIndicesAscii | nvptx-vprintf/src/parser.rs:226 | on ASCII text the k-th pair is `(k, s[k])` |
| StrIndices.BoundaryIndex | nvptx-vprintf/src/parser.rs:232 | a byte offset found as a char boundary is the byte length of the prefix before that char |
| StrIndices.BoundaryIndexOf | nvptx-vprintf/src/parser.rs:232 | the byte length of every prefix is found as a boundary, at that prefix |
| StrIndices.Slice | nvptx-vprintf/src/parser.rs:232 | a byte-range slice that succeeds has exactly the range's byte length |
| StrIndices.SliceChars | nvptx-vprintf/src/parser.rs:232 | slicing between the byte offsets of chars i and j gives exactly chars i..j |
| StrIndices.ByteLenMonotone | nvptx-vprintf/src/parser.rs:232 | byte offsets grow with the char index, and strictly past the end of a char |
| StrIndices.InsideCharNotBoundary | nvptx-vprintf/src/parser.rs:232 | a byte offset strictly inside a multi-byte char is not a char boundary |
| Scanner.SkipWhile | nvptx-vprintf/src/parser.rs:86-88 | the position reached is the first at or after the start whose char fails the test (or the end), and every char skipped passes it |
| Scanner.Peek | nvptx-vprintf/src/parser.rs:109 | the char `next_if` inspects at the cursor, or None at the end; no contract of its own, and `Parser.FormatParser.NextIf` proves the cursor's `next_if` agrees with it |
| Scanner.Step | nvptx-vprintf/src/parser.rs:98-105 | an item is yielded only after consuming at least one char, and the cursor stays within the string |
| Scanner.Conversion | nvptx-vprintf/src/parser.rs:106-107 | always yields an item; yielding without consuming anything means "ended early" with no end |
| Scanner.Width | nvptx-vprintf/src/parser.rs:108-117 | as for Conversion, from the width on |
| Scanner.Precision | nvptx-vprintf/src/parser.rs:118-129 | as for Conversion, from the precision on |
| Scanner.SizeAndType | nvptx-vprintf/src/parser.rs:130-156 | as for Conversion, from the size prefix on |
| Scanner.Items | nvptx-vprintf/src/parser.rs:98-105 | the items `next` yields from a position until it returns None, at most one per remaining char; `CollectAllOk` and `CollectFirstError` relate them to `collect` |
| Scanner.CollectFrom | nvptx-vprintf/src/parser.rs:228 | `collect::<Result<Vec<_>, _>>()` from a position: on success at most one wire type per remaining char; `CollectAllOk`, `CollectFirstError`, `CollectErrorStep` and `CollectDecidedByPrefix` state what it returns, and `Parser.FormatParser.Collect` computes it |
| Scanner.Scan | nvptx-vprintf/src/parser.rs:224-228 | the collected wire types of a whole format string, at most one per char, or its first error; `ScanErrorSpan`, `ScanNeverWide`, `LiteralScansEmpty` and `ErrorIgnoresSuffix` state its behaviour |
| Scanner.CollectEnd | nvptx-vprintf/src/parser.rs:225-228 | after a successful `collect` the cursor is at the end of the string |
| Parser.FormatParser.constructor | nvptx-vprintf/src/parser.rs:225-227 | the cursor starts at the first of the string's char indices |
| Parser.FormatParser.NextChar | nvptx-vprintf/src/parser.rs:100 | `next` returns the pair under the cursor and advances, or None at the end without moving |
| Parser.FormatParser.NextIf | nvptx-vprintf/src/parser.rs:109 | `next_if` consumes and returns the pair exactly when the predicate accepts its char, and otherwise leaves the cursor |
| Parser.FormatParser.ConsumeIf | nvptx-vprintf/src/parser.rs:78-80 | true exactly when the next char passes the test, and then it is consumed |
| Parser.FormatParser.ConsumeIfEq | nvptx-vprintf/src/parser.rs:82-84 | true exactly when the next char is the given one, and then it is consumed |
| Parser.FormatParser.ConsumeWhile | nvptx-vprintf/src/parser.rs:86-88 | the loop stops at the position `SkipWhile` specifies |
| Parser.FormatParser.ConsumeWhileEq | nvptx-vprintf/src/parser.rs:90-92 | the loop stops at the position `SkipWhile` specifies for the test `c == chr`: every char consumed equals the given one, and the next char does not |
| Parser.FormatParser.Next | nvptx-vprintf/src/parser.rs:98-105 | the loop returns what `Step` specifies and leaves the cursor where `Step` does; None only at the end of the string |
| Parser.FormatParser.DecodeConversion | nvptx-vprintf/src/parser.rs:106-117 | flags and width decode to what `Conversion` specifies |
| Parser.FormatParser.DecodePrecision | nvptx-vprintf/src/parser.rs:118-129 | the precision decodes to what `Precision` specifies |
| Parser.FormatParser.DecodeSizeAndType | nvptx-vprintf/src/parser.rs:130-196 | the size prefix and type char decode to what `SizeAndType` specifies; the second 'h' test is dead |
| Parser.FormatParser.Collect | nvptx-vprintf/src/parser.rs:225-228 | the collect loop returns `CollectFrom` from the starting cursor and stops where `CollectEnd` says |
| ScanProperties.NoPercentLiteral | nvptx-vprintf/src/parser.rs:100-105 | text without '%' is literal |
| ScanProperties.LiteralConcat | nvptx-vprintf/src/parser.rs:100-105 | literal text concatenated with literal text is literal |
| ScanProperties.LiteralSkipped | nvptx-vprintf/src/parser.rs:99-105 | `next` passes over a stretch of literal text and `%%` pairs as if it were absent |
| ScanProperties.LiteralContributesNothing | nvptx-vprintf/src/parser.rs:100-105 | literal text and `%%` pairs add nothing to the collected result |
| ScanProperties.LiteralScansEmpty | nvptx-vprintf/src/parser.rs:100-105 | a string whose only '%' are in `%%` pairs scans to an empty list |
| ScanProperties.StepIsConversion | nvptx-vprintf/src/parser.rs:99-107 | every item comes from the first unescaped '%', with only literal text before it, decoded from the char after it |
| ScanProperties.StepIsConversionOf | nvptx-vprintf/src/parser.rs:99-107 | conversely, literal text followed by an unescaped '%' yields that conversion |
| ScanProperties.ResolveMessageDistinct | nvptx-vprintf/src/parser.rs:109-196 | no resolution message equals a scanner message, so an error's message tells which check failed |
| ScanProperties.SizeAndTypeErrorSpan | nvptx-vprintf/src/parser.rs:145-196 | an error at the type char has no end exactly when it ended early, and otherwise ends at the type char's offset, with the type char not in the table for "Invalid type specifier" |
| ScanProperties.PrecisionErrorSpan | nvptx-vprintf/src/parser.rs:118-129 | a precision '*' error ends at the offset of that '*', and the char before it is the '.' |
| ScanProperties.ConversionErrorSpan | nvptx-vprintf/src/parser.rs:106-129 | a width or precision '*' error ends at the offset of that '*', a precision one straight after the '.'; other errors are those of the later stages |
| ScanProperties.StepErrorSpan | nvptx-vprintf/src/parser.rs:98-196 | an error item starts at the byte offset of its '%' and, when it has an end, ends at the offending char after it (the '*' for the width and precision errors, a char outside the table for "Invalid type specifier"); it has no end exactly when it ended early, and then the whole string was consumed |
| ScanProperties.CollectAllOk | nvptx-vprintf/src/parser.rs:228 | `collect` succeeds exactly when every item is Ok, and then returns the items' values in order |
| ScanProperties.CollectFirstError | nvptx-vprintf/src/parser.rs:228 | a failed `collect` returns the first error item, and all items before it are Ok |
| ScanProperties.CollectErrorStep | nvptx-vprintf/src/parser.rs:228 | the error returned is the one `next` yields from some cursor position |
| ScanProperties.SkipWhileAgree | nvptx-vprintf/src/parser.rs:86-88 | when skipping stops at a char inside the prefix on which two inputs agree, it stops at the same position in both |
| ScanProperties.SizeAndTypeAgree | nvptx-vprintf/src/parser.rs:130-156 | when its item is not "ended early", the size and type stage gives the same item and cursor on any input that agrees on the chars it consumes |
| ScanProperties.PrecisionAgree | nvptx-vprintf/src/parser.rs:118-129 | when its item is not "ended early", the precision stage gives the same item and cursor on any input that agrees on the chars it consumes |
| ScanProperties.ConversionAgree | nvptx-vprintf/src/parser.rs:106-117 | when its item is not "ended early", decoding a conversion gives the same item and cursor on any input that agrees on the chars it consumes |
| ScanProperties.StepAgree | nvptx-vprintf/src/parser.rs:98-105 | when its item is not "ended early", `next` gives the same item and cursor on any input that agrees on the chars it consumes |
| ScanProperties.CollectDecidedByPrefix | nvptx-vprintf/src/parser.rs:225-228 | a failed `collect` whose error has an end gives the same result on any input that agrees up to that end: nothing after the first error is examined |
| ScanProperties.SizeAndTypeNeverWide | nvptx-vprintf/src/parser.rs:130-142 | the size and type stage never gives `i16`, `i64` or `u64` |
| ScanProperties.ConversionNeverWide | nvptx-vprintf/src/parser.rs:130-142 | a conversion never gives `i16`, `i64` or `u64` |
| ScanProperties.CollectNeverWide | nvptx-vprintf/src/parser.rs:130-142 | no collected wire type is `i16`, `i64` or `u64` |
| ScanProperties.ScanNeverWide | nvptx-vprintf/src/parser.rs:130-142 | no format string yields `i16`, `i64` or `u64` |
| ScanProperties.CharIndicesPrefix | nvptx-vprintf/src/parser.rs:226 | a string's char indices begin with those of each of its prefixes |
| ScanProperties.ErrorIgnoresSuffix | nvptx-vprintf/src/parser.rs:225-228 | appending text after a string whose scan fails at a char leaves the result unchanged |
| ScanProperties.ScanErrorSpan | nvptx-vprintf/src/parser.rs:225-232 | a failed scan's start is the byte offset of a '%' in the string and its end, if any, the byte offset of a later char |
| ScanProperties.TrailingPercentEndsEarly | nvptx-vprintf/src/parser.rs:145-149 | literal text followed by a lone '%' scans to "ended early" starting at that '%', with no end |
| VPrintfCall.Fields | nvptx-vprintf/src/parser.rs:238-245 | the record has one field per argument, the j-th wire type with the j-th argument |
| VPrintfCall.Quote | nvptx-vprintf/src/parser.rs:233 | `format!("{}: \"{}\"", msg, substr)`; no contract of its own, and `DiagnosticOfScanError` states the quoted text |
| VPrintfCall.DiagnosticAsWritten | nvptx-vprintf/src/parser.rs:231-233 | the diagnostic with the source's `&fmt[start..=end]` / `&fmt[start..]` slice, None where the slice panics; no contract of its own: `DiagnosticAsWrittenPanics`, `DiagnosticAsciiAgrees` and `WideTypeCharPanics` state it |
| VPrintfCall.Diagnostic | nvptx-vprintf/src/parser.rs:231-233 | the diagnostic with the intended slice through the whole offending char; no contract of its own: `DiagnosticOfScanError` states it |
| VPrintfCall.Expand | nvptx-vprintf/src/parser.rs:219-248 | `to_tokens` as written; no contract of its own: `ExpandCall`, `ExpandScanError` and `ExpandAsciiAgrees` state it, and `ToTokens` computes it |
| VPrintfCall.ExpandIntended | nvptx-vprintf/src/parser.rs:219-248 | `to_tokens` with the intended diagnostic slice; no contract of its own: `ExpandIntendedScanError` and `ExpandAsciiAgrees` state it |
| VPrintfCall.ToTokens | nvptx-vprintf/src/parser.rs:219-238 | running the cursor gives exactly the expansion `Expand` specifies, with the diagnostic sliced as parser.rs:232 is written |
| VPrintfCall.DiagnosticOfScanError | nvptx-vprintf/src/parser.rs:229-233 | a scan error's diagnostic is `msg: "…"` quoting the text from its '%' through the offending char, or to the end of the string without an end |
| VPrintfCall.DiagnosticAsWrittenPanics | nvptx-vprintf/src/parser.rs:232 | the as-written slice agrees with the intended one when there is no end or the char at the end is ASCII, and panics otherwise |
| VPrintfCall.DiagnosticAsciiAgrees | nvptx-vprintf/src/parser.rs:232 | on ASCII format strings the as-written and the intended diagnostic are the same |
| VPrintfCall.WideTypeCharPanics | nvptx-vprintf/src/parser.rs:232 | `%é` fails as an invalid type at byte 0 to 1; the as-written slice and so the expansion panic, while the intended diagnostic and expansion quote `%é` |
| VPrintfCall.ExpandScanError | nvptx-vprintf/src/parser.rs:229-236 | as written, a failed scan expands to a compile error whose message quotes the conversion from its '%' when it has no end or ends at an ASCII char, and otherwise to the slice panic; never to a call |
| VPrintfCall.ExpandIntendedScanError | nvptx-vprintf/src/parser.rs:229-236 | with the intended slice, a failed scan always expands to a compile error quoting the conversion from its '%' through the offending char, never to a panic |
| VPrintfCall.ExpandAsciiAgrees | nvptx-vprintf/src/parser.rs:229-236 | on ASCII format strings the as-written and the intended expansion are the same |
| VPrintfCall.ExpandCall | nvptx-vprintf/src/parser.rs:221-238 | the expansion is a call exactly when the scan succeeds with as many wire types as arguments, with the fields paired in order; a count mismatch is the `assert_eq!` panic; the warning is raised exactly above 32 arguments |
| Scenarios.HalfUnsigned | nvptx-vprintf/src/parser.rs:132-133 | `%hu` is `u16` |
| Scenarios.SignedShortRefused | nvptx-vprintf/src/parser.rs:159-161 | `%hd` is refused with "short int is unimplemented" at the `d` |
| Scenarios.SizedFloatRefused | nvptx-vprintf/src/parser.rs:173-177 | `%hf` is refused because floating-point takes no size |
| Scenarios.LongIsTypeChar | nvptx-vprintf/src/parser.rs:132-156 | `%ld` is refused as an invalid type char at the `l` |
| Scenarios.DoubleHIsTypeChar | nvptx-vprintf/src/parser.rs:132-156 | `%hhd` is refused as an invalid type char at the second `h` |
| Scenarios.PercentAsTypeRefused | nvptx-vprintf/src/parser.rs:106-156 | `%-03%` is refused as an invalid type at its second `%`: flags and width are skipped, and a `%` in the type position is not an escape |
| Scenarios.StarWidthRefused | nvptx-vprintf/src/parser.rs:109-114 | `%*d` is refused at the `*` |
| Scenarios.StarPrecisionRefused | nvptx-vprintf/src/parser.rs:119-125 | `%.*f` is refused at the `*` |
| Scenarios.PrecisionEndsEarly | nvptx-vprintf/src/parser.rs:145-149 | `%5.` ended early, with no end |
| Scenarios.AllPartsUnsigned | nvptx-vprintf/src/parser.rs:106-166 | `%-+ #08.3x` with all its flags, width and precision is `u32` |
| Scenarios.EscapedPercentOnly | nvptx-vprintf/src/parser.rs:100-105 | text, `%%` and text without '%' (such as `hello %% world`) scans to no wire types and expands to a call with no fields |
| Scenarios.PlainConversion | nvptx-vprintf/src/parser.rs:98-196 | a '%' directly followed by a type char yields the unsized wire type of that family |
| Scenarios.SupportedTypes | nvptx-vprintf/src/parser.rs:157-196 | `%d %u %f %c %s %p` is `i32, u32, f64, u32, *const u8, *const c_void` in order |
| Scenarios.LongLongLineRefused | nvptx-vprintf/src/parser.rs:132-156 | `%d %u %lld %llu %f %c %s %p` is refused at byte 7, the first `l` |
| Scenarios.TooFewArguments | nvptx-vprintf/src/parser.rs:238 | `%d %d` with one argument is the arity panic, 2 against 1 |

## Left out

- The `syn` parsing of the macro input (parser.rs:207-216) and the `quote!` emission of the record and the `vprintf` call (parser.rs:42-56, 239-247) are foreign library code. The emitted record is represented by its list of (wire type, argument) fields, and the arguments by opaque values.
- The text and the stream of the `eprintln!` warning (parser.rs:221-223) are I/O. Only whether it is printed is kept, as `Tokens.warning`.
- The compile error's span (`new_spanned(format, …)`) is a token-tree position and is left out. Only the message is kept.
- `FSize::Long` and `FSize::LongLong` are never produced by the scanner as written. `Specifiers.Resolve` still covers them, but no scan reaches those arms.
- nvptx-vprintf/src/lib.rs is proc-macro registration glue and is not part of this model. Its doc comment is used only to contrast with the code, above.
- The crate's runtime files (floating-point helpers, intrinsics bindings, panic handler, allocator) are FFI and GPU concurrency and are not part of this model.

## Findings

| source | as written | input that shows it | evidently intended | confidence | as-written member | corrected member |
|---|---|---|---|---|---|---|
| nvptx-vprintf/src/parser.rs:232 | `&fmt[start..=end]` slices to one byte past the start of the offending char | `%é`: "Invalid type specifier" at start 0, end 1; `é` takes bytes 1-2, so `0..=1` is not on a char boundary and the slice panics instead of reporting the error | the diagnostic quotes the conversion through the whole offending char, `%é` | not executed | `VPrintfCall.DiagnosticAsWritten` / `VPrintfCall.Expand` / `VPrintfCall.WideTypeCharPanics` / `VPrintfCall.ExpandScanError` | `VPrintfCall.Diagnostic` / `VPrintfCall.ExpandIntended` / `VPrintfCall.DiagnosticOfScanError` / `VPrintfCall.ExpandIntendedScanError` |
