/**
 * The scanner `FormatParser` as functions over the cursor's input: the
 * `(byte offset, char)` pairs of `char_indices`. `Step` is one call of
 * `Iterator::next`, `CollectFrom` is `collect::<Result<Vec<_>, _>>()` over the
 * calls that follow, and `Scan` runs it over a whole format string.
 */
module Scanner {
  import opened Wrappers
  import opened StrIndices
  import opened Specifiers

  const VariableWidth: string := "variable width arguments are not yet supported"
  const VariablePrecision: string := "cuda does not support variable precision arguments"
  const EndedEarly: string := "ended early"
  const InvalidType: string := "Invalid type specifier"

  /**
   * The error tuple `(msg, start, end)`: start is the byte offset of the '%'
   * opening the conversion, end that of the offending char; end is absent
   * when the string ran out first.
   */
  datatype ScanError = ScanError(msg: string, start: nat, end: Option<nat>)

  type Item = Result<SizedType, ScanError>

  /** The cursor's input: what `char_indices` yields. */
  type Chars = seq<(nat, char)>

  /**
   * One call of `next`: either the iterator is exhausted (`Done`), or it
   * yields an item and leaves the cursor at index `rest`.
   */
  datatype Next = Done | Yield(item: Item, rest: nat)

  /** The char a `next_if` at index q would test, if any. */
  function Peek(ci: Chars, q: nat): Option<char> {
    if q < |ci| then Some(ci[q].1) else None
  }

  /** The chars of the cursor's input, without their offsets. */
  function Text(ci: Chars): string {
    seq(|ci|, k requires 0 <= k < |ci| => ci[k].1)
  }

  /** The test `c == chr` that `consume_if_eq` and `consume_while_eq` apply. */
  function EqualTo(chr: char): char -> bool {
    c => c == chr
  }

  /**
   * `consume_while(f)` started at index q: the index of the first char from q
   * on that f rejects, or the end of the input.
   */
  function SkipWhile(ci: Chars, q: nat, f: char -> bool): (r: nat)
    requires q <= |ci|
    ensures q <= r <= |ci|
    ensures forall k :: q <= k < r ==> f(ci[k].1)
    ensures r < |ci| ==> !f(ci[r].1)
    decreases |ci| - q
  {
    if q < |ci| && f(ci[q].1) then SkipWhile(ci, q + 1, f) else q
  }

  /**
   * `next`: skip literal text and "%%" pairs; at any other '%' decode one
   * conversion.
   */
  function Step(ci: Chars, p: nat): (r: Next)
    requires p <= |ci|
    ensures r.Yield? ==> p < r.rest <= |ci|
    decreases |ci| - p
  {
    if p == |ci| then Done
    else if ci[p].1 != '%' then Step(ci, p + 1)
    else if Peek(ci, p + 1) == Some('%') then Step(ci, p + 2)
    else Conversion(ci, ci[p].0, p + 1)
  }

  /**
   * The conversion whose '%' sits at byte offset start, from index q (just
   * after the '%'): first the flags.
   */
  function Conversion(ci: Chars, start: nat, q: nat): (r: Next)
    requires q <= |ci|
    ensures r.Yield? && q <= r.rest <= |ci|
    ensures r.rest == q ==> r.item == Err(ScanError(EndedEarly, start, None))
  {
    Width(ci, start, SkipWhile(ci, q, IsFlag))
  }

  /** The width, from index q: a '*' is refused, otherwise digits are skipped. */
  function Width(ci: Chars, start: nat, q: nat): (r: Next)
    requires q <= |ci|
    ensures r.Yield? && q <= r.rest <= |ci|
    ensures r.rest == q ==> r.item == Err(ScanError(EndedEarly, start, None))
  {
    if Peek(ci, q) == Some('*') then
      Yield(Err(ScanError(VariableWidth, start, Some(ci[q].0))), q + 1)
    else
      Precision(ci, start, SkipWhile(ci, q, IsAsciiDigit))
  }

  /**
   * The optional precision, from index q: a '.' followed by a '*' is refused,
   * a '.' followed by digits is skipped.
   */
  function Precision(ci: Chars, start: nat, q: nat): (r: Next)
    requires q <= |ci|
    ensures r.Yield? && q <= r.rest <= |ci|
    ensures r.rest == q ==> r.item == Err(ScanError(EndedEarly, start, None))
  {
    if Peek(ci, q) != Some('.') then
      SizeAndType(ci, start, q)
    else if Peek(ci, q + 1) == Some('*') then
      Yield(Err(ScanError(VariablePrecision, start, Some(ci[q + 1].0))), q + 2)
    else
      SizeAndType(ci, start, SkipWhile(ci, q + 1, IsAsciiDigit))
  }

  /**
   * The size prefix and the type character, from index q. The source tests
   * for 'h' a second time and never for 'l'; the first test has
   * already consumed any 'h', so only a single 'h' (Short) or no prefix ever
   * reaches the resolution, and an 'l' is read as the type character.
   */
  function SizeAndType(ci: Chars, start: nat, q: nat): (r: Next)
    requires q <= |ci|
    ensures r.Yield? && q <= r.rest <= |ci|
    ensures r.rest == q ==> r.item == Err(ScanError(EndedEarly, start, None))
  {
    var size := if Peek(ci, q) == Some('h') then Some(Short) else None;
    var t := if size.Some? then q + 1 else q;
    if t == |ci| then
      Yield(Err(ScanError(EndedEarly, start, None)), t)
    else
      match TypeChar(ci[t].1)
      case None => Yield(Err(ScanError(InvalidType, start, Some(ci[t].0))), t + 1)
      case Some(ft) =>
        match Resolve(ft, size)
        case Ok(w) => Yield(Ok(w), t + 1)
        case Err(msg) => Yield(Err(ScanError(msg, start, Some(ci[t].0))), t + 1)
  }

  /** Every item the iterator yields from index p until it is exhausted. */
  function Items(ci: Chars, p: nat): (items: seq<Item>)
    requires p <= |ci|
    ensures |items| <= |ci| - p
    decreases |ci| - p
  {
    match Step(ci, p)
    case Done => []
    case Yield(item, rest) => [item] + Items(ci, rest)
  }

  /**
   * `collect::<Result<Vec<SizedType>, _>>()` from index p: pulls items until
   * the first error, which it returns, or until the iterator is exhausted.
   */
  function CollectFrom(ci: Chars, p: nat): (r: Result<seq<SizedType>, ScanError>)
    requires p <= |ci|
    ensures r.Ok? ==> |r.value| <= |ci| - p
    decreases |ci| - p
  {
    match Step(ci, p)
    case Done => Ok([])
    case Yield(Err(e), _) => Err(e)
    case Yield(Ok(w), rest) =>
      match CollectFrom(ci, rest)
      case Ok(ws) => Ok([w] + ws)
      case Err(e) => Err(e)
  }

  /** Where the cursor stands once `collect` has returned. */
  function CollectEnd(ci: Chars, p: nat): (r: nat)
    requires p <= |ci|
    ensures p <= r <= |ci|
    ensures CollectFrom(ci, p).Ok? ==> r == |ci|
    decreases |ci| - p
  {
    match Step(ci, p)
    case Done => |ci|
    case Yield(Err(_), rest) => rest
    case Yield(Ok(_), rest) => CollectEnd(ci, rest)
  }

  /** The wire types of a whole format string, or its first error. */
  function Scan(fmt: string): (r: Result<seq<SizedType>, ScanError>)
    ensures r.Ok? ==> |r.value| <= |fmt|
  {
    CollectFrom(CharIndices(fmt), 0)
  }
}
