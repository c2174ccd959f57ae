/**
 * `FormatParser`, the cursor the macro runs over a format string: a
 * `Peekable<CharIndices>`, here the pairs `char_indices` yields and the index
 * of the next one. Each method is proved against the functions of module
 * Scanner.
 */
module Parser {
  import opened Wrappers
  import opened StrIndices
  import opened Specifiers
  import opened Scanner

  /** The result of collecting after acc has already been pulled. */
  function Prepend(acc: seq<SizedType>, r: Result<seq<SizedType>, ScanError>): Result<seq<SizedType>, ScanError> {
    match r
    case Ok(ws) => Ok(acc + ws)
    case Err(e) => Err(e)
  }

  class FormatParser {
    /** The `(byte offset, char)` pairs of the format string. */
    const input: Chars
    /** The index in input of the char the next `next` or `next_if` examines. */
    var pos: nat

    ghost predicate Valid()
      reads this
    {
      pos <= |input|
    }

    /** `FormatParser { iter: fmt.char_indices().peekable() }`. */
    constructor (fmt: string)
      ensures Valid() && input == CharIndices(fmt) && pos == 0
    {
      input := CharIndices(fmt);
      pos := 0;
    }

    /** `iter.next()`. */
    method NextChar() returns (r: Option<(nat, char)>)
      requires Valid()
      modifies this
      ensures Valid()
      ensures old(pos) < |input| ==> r == Some(input[old(pos)]) && pos == old(pos) + 1
      ensures old(pos) == |input| ==> r == None && pos == old(pos)
    {
      if pos < |input| {
        r := Some(input[pos]);
        pos := pos + 1;
      } else {
        r := None;
      }
    }

    /** `iter.next_if(|&(_, c)| f(c))`: consume the next pair only if f accepts its char. */
    method NextIf(f: char -> bool) returns (r: Option<(nat, char)>)
      requires Valid()
      modifies this
      ensures Valid()
      ensures if old(pos) < |input| && f(input[old(pos)].1)
        then r == Some(input[old(pos)]) && pos == old(pos) + 1
        else r == None && pos == old(pos)
    {
      if pos < |input| && f(input[pos].1) {
        r := Some(input[pos]);
        pos := pos + 1;
      } else {
        r := None;
      }
    }

    /** `consume_if`. */
    method ConsumeIf(f: char -> bool) returns (b: bool)
      requires Valid()
      modifies this
      ensures Valid()
      ensures b == (old(pos) < |input| && f(input[old(pos)].1))
      ensures pos == if b then old(pos) + 1 else old(pos)
    {
      var r := NextIf(f);
      b := r.Some?;
    }

    /** `consume_if_eq`. */
    method ConsumeIfEq(chr: char) returns (b: bool)
      requires Valid()
      modifies this
      ensures Valid()
      ensures b == (Peek(input, old(pos)) == Some(chr))
      ensures pos == if b then old(pos) + 1 else old(pos)
    {
      var r := NextIf(EqualTo(chr));
      b := r.Some?;
    }

    /** `consume_while`: consume chars as long as f accepts them. */
    method ConsumeWhile(f: char -> bool)
      requires Valid()
      modifies this
      ensures Valid()
      ensures pos == SkipWhile(input, old(pos), f)
    {
      var r := NextIf(f);
      while r.Some?
        invariant Valid() && old(pos) <= pos
        invariant SkipWhile(input, pos, f) == SkipWhile(input, old(pos), f)
        invariant r.None? ==> pos == SkipWhile(input, pos, f)
        decreases |input| - pos, if r.Some? then 1 else 0
      {
        r := NextIf(f);
      }
    }

    /** `consume_while_eq`: consume chars as long as they equal chr. */
    method ConsumeWhileEq(chr: char)
      requires Valid()
      modifies this
      ensures Valid() && old(pos) <= pos
      ensures forall k :: old(pos) <= k < pos ==> input[k].1 == chr
      ensures Peek(input, pos) != Some(chr)
      ensures pos == SkipWhile(input, old(pos), EqualTo(chr))
    {
      var r := NextIf(EqualTo(chr));
      while r.Some?
        invariant Valid() && old(pos) <= pos
        invariant forall k :: old(pos) <= k < pos ==> input[k].1 == chr
        invariant r.None? ==> Peek(input, pos) != Some(chr)
        invariant SkipWhile(input, pos, EqualTo(chr)) == SkipWhile(input, old(pos), EqualTo(chr))
        invariant r.None? ==> pos == SkipWhile(input, pos, EqualTo(chr))
        decreases |input| - pos, if r.Some? then 1 else 0
      {
        r := NextIf(EqualTo(chr));
      }
    }

    /**
     * `Iterator::next`: skips literal text and "%%", then decodes one
     * conversion; None once the string is exhausted.
     */
    method Next() returns (r: Option<Item>)
      requires Valid()
      modifies this
      ensures Valid()
      ensures match Step(input, old(pos))
        case Done => r == None && pos == |input|
        case Yield(item, rest) => r == Some(item) && pos == rest
    {
      while true
        invariant Valid() && old(pos) <= pos
        invariant Step(input, pos) == Step(input, old(pos))
        decreases |input| - pos
      {
        var head := NextChar();
        if head.None? {
          return None;
        }
        var (start, c) := head.value;
        if c == '%' {
          // literal %
          var escaped := ConsumeIfEq('%');
          if escaped {
            continue;
          }
          var item := DecodeConversion(start);
          return Some(item);
        }
      }
    }

    /**
     * The body of `next` after a '%' that is not doubled, whose byte offset
     * is start: flags, width and precision.
     */
    method DecodeConversion(start: nat) returns (item: Item)
      requires Valid()
      modifies this
      ensures Valid()
      ensures Conversion(input, start, old(pos)) == Yield(item, pos)
    {
      // flags
      ConsumeWhile(IsFlag);
      // width
      var star := NextIf(c => c == '*');
      if star.Some? {
        return Err(ScanError(VariableWidth, start, Some(star.value.0)));
      }
      ConsumeWhile(IsAsciiDigit);
      item := DecodePrecision(start);
    }

    /** The optional precision, then the size and the type. */
    method DecodePrecision(start: nat) returns (item: Item)
      requires Valid()
      modifies this
      ensures Valid()
      ensures Precision(input, start, old(pos)) == Yield(item, pos)
    {
      var dot := ConsumeIfEq('.');
      if dot {
        var star := NextIf(c => c == '*');
        if star.Some? {
          return Err(ScanError(VariablePrecision, start, Some(star.value.0)));
        }
        ConsumeWhile(IsAsciiDigit);
      }
      item := DecodeSizeAndType(start);
    }

    /** The rest of `next`: the size prefix, the type character and the resolution. */
    method DecodeSizeAndType(start: nat) returns (item: Item)
      requires Valid()
      modifies this
      ensures Valid()
      ensures SizeAndType(input, start, old(pos)) == Yield(item, pos)
    {
      // size: the source tests for 'h' twice and never for 'l'
      var size: Option<FSize>;
      var short := ConsumeIfEq('h');
      if short {
        size := Some(Short);
      } else {
        var long := ConsumeIfEq('h');
        if long {
          // unreachable: the test above has already consumed any 'h', so
          // the source's choice between Long and LongLong never happens
          assert false;
        }
        size := None;
      }
      // type
      var ty := NextChar();
      if ty.None? {
        return Err(ScanError(EndedEarly, start, None));
      }
      var (end, tc) := ty.value;
      var ftype := TypeChar(tc);
      if ftype.None? {
        return Err(ScanError(InvalidType, start, Some(end)));
      }
      item := match Resolve(ftype.value, size)
        case Ok(w) => Ok(w)
        case Err(msg) => Err(ScanError(msg, start, Some(end)));
    }

    /**
     * `collect::<Result<Vec<SizedType>, _>>()`: call `next` until it is
     * exhausted or yields an error.
     */
    method Collect() returns (r: Result<seq<SizedType>, ScanError>)
      requires Valid()
      modifies this
      ensures Valid()
      ensures r == CollectFrom(input, old(pos))
      ensures pos == CollectEnd(input, old(pos))
    {
      var acc: seq<SizedType> := [];
      assert CollectFrom(input, pos).Ok? ==> [] + CollectFrom(input, pos).value == CollectFrom(input, pos).value;
      while true
        invariant Valid() && old(pos) <= pos
        invariant CollectFrom(input, old(pos)) == Prepend(acc, CollectFrom(input, pos))
        invariant CollectEnd(input, pos) == CollectEnd(input, old(pos))
        decreases |input| - pos
      {
        ghost var before := pos;
        var item := Next();
        match item
        case None =>
          assert acc + [] == acc;
          return Ok(acc);
        case Some(Err(e)) =>
          return Err(e);
        case Some(Ok(w)) =>
          assert CollectFrom(input, before) == Prepend([w], CollectFrom(input, pos));
          assert CollectFrom(input, pos).Ok? ==>
            acc + ([w] + CollectFrom(input, pos).value) == (acc + [w]) + CollectFrom(input, pos).value;
          acc := acc + [w];
      }
    }
  }
}
