/** What the scanner promises, proved about the functions of module Scanner. */
module ScanProperties {
  import opened Wrappers
  import opened StrIndices
  import opened Specifiers
  import opened Scanner

  /** Text with no conversion in it: every '%' is the first of a "%%" pair. */
  predicate Literal(s: string)
    decreases |s|
  {
    if s == [] then true
    else if s[0] != '%' then Literal(s[1..])
    else |s| >= 2 && s[1] == '%' && Literal(s[2..])
  }

  /** Text without any '%' is literal. */
  lemma {:induction false} NoPercentLiteral(s: string)
    requires forall k :: 0 <= k < |s| ==> s[k] != '%'
    ensures Literal(s)
    decreases |s|
  {
    if s != [] {
      NoPercentLiteral(s[1..]);
    }
  }

  /** Literal text stays literal when concatenated. */
  lemma {:induction false} LiteralConcat(u: string, v: string)
    requires Literal(u) && Literal(v)
    ensures Literal(u + v)
    decreases |u|
  {
    if u == [] {
      assert u + v == v;
    } else if u[0] != '%' {
      LiteralConcat(u[1..], v);
      assert (u + v)[1..] == u[1..] + v;
    } else {
      LiteralConcat(u[2..], v);
      assert (u + v)[2..] == u[2..] + v;
    }
  }

  lemma TextSlice(ci: Chars, p: nat, q: nat)
    requires p < q <= |ci|
    ensures Text(ci)[p..q][0] == ci[p].1
    ensures Text(ci)[p..q][1..] == Text(ci)[p + 1..q]
  {
  }

  /** `char_indices` keeps the chars of the string, in order. */
  lemma TextOfCharIndices(s: string)
    ensures Text(CharIndices(s)) == s
  {
  }

  /** Literal text and "%%" pairs are skipped: `next` from p behaves as `next` from q. */
  lemma {:induction false} LiteralSkipped(ci: Chars, p: nat, q: nat)
    requires p <= q <= |ci|
    requires Literal(Text(ci)[p..q])
    ensures Step(ci, p) == Step(ci, q)
    decreases q - p
  {
    if p < q {
      TextSlice(ci, p, q);
      if ci[p].1 != '%' {
        LiteralSkipped(ci, p + 1, q);
      } else {
        TextSlice(ci, p + 1, q);
        assert Text(ci)[p..q][2..] == Text(ci)[p + 2..q];
        LiteralSkipped(ci, p + 2, q);
      }
    }
  }

  /** ... and so contribute nothing to the collected result. */
  lemma LiteralContributesNothing(ci: Chars, p: nat, q: nat)
    requires p <= q <= |ci|
    requires Literal(Text(ci)[p..q])
    ensures CollectFrom(ci, p) == CollectFrom(ci, q)
  {
    LiteralSkipped(ci, p, q);
  }

  /** A format string whose only '%' characters form "%%" pairs has no wire types. */
  lemma LiteralScansEmpty(fmt: string)
    requires Literal(fmt)
    ensures Scan(fmt) == Ok([])
  {
    var ci := CharIndices(fmt);
    TextOfCharIndices(fmt);
    assert Text(ci)[0..|ci|] == fmt;
    LiteralSkipped(ci, 0, |ci|);
  }

  /**
   * A `next` that yields skips a literal run and then decodes the conversion
   * opened by the first '%' not followed by another '%'.
   */
  lemma {:induction false} StepIsConversion(ci: Chars, p: nat) returns (i: nat)
    requires p <= |ci| && Step(ci, p).Yield?
    ensures p <= i < |ci| && ci[i].1 == '%' && Peek(ci, i + 1) != Some('%')
    ensures Literal(Text(ci)[p..i])
    ensures Step(ci, p) == Conversion(ci, ci[i].0, i + 1)
    decreases |ci| - p
  {
    assert p < |ci|;
    if ci[p].1 != '%' {
      i := StepIsConversion(ci, p + 1);
      TextSlice(ci, p, i);
    } else if Peek(ci, p + 1) == Some('%') {
      i := StepIsConversion(ci, p + 2);
      TextSlice(ci, p, i);
      TextSlice(ci, p + 1, i);
      assert Text(ci)[p..i][2..] == Text(ci)[p + 2..i];
    } else {
      i := p;
      assert Text(ci)[p..i] == [];
    }
  }

  /** None of the resolution messages is one of the scanner's own four. */
  lemma ResolveMessageDistinct(ft: FType, size: Option<FSize>)
    requires Resolve(ft, size).Err?
    ensures Resolve(ft, size).error !in {EndedEarly, InvalidType, VariableWidth, VariablePrecision}
  {
    var m := Resolve(ft, size).error;
    if ft.Integer? {
      ResolveIntegerErrors(ft.signed, size);
    } else {
      ResolveSizeRefusal(ft, size.value);
      assert |m| == 46 + |FamilyName(ft)|;
      assert |FamilyName(ft)| in {14, 4, 3, 7};
      if ft == Char {
        // same length as VariablePrecision: they differ before " arguments"
        assert m[|m| - 11] == 'r' && VariablePrecision[39] == 'n';
      }
    }
    assert |m| !in {|EndedEarly|, |InvalidType|, |VariableWidth|};
  }

  /** The span of an error reported at the size and type stage. */
  lemma SizeAndTypeErrorSpan(ci: Chars, start: nat, q: nat) returns (k: nat)
    requires q <= |ci| && SizeAndType(ci, start, q).item.Err?
    ensures var r := SizeAndType(ci, start, q); var e := r.item.error;
      && e.start == start
      && (e.end.None? <==> e.msg == EndedEarly)
      && (e.end.None? ==> r.rest == |ci|)
      && (e.end.Some? ==> q <= k < |ci| && e.end == Some(ci[k].0) && r.rest == k + 1)
      && e.msg != VariableWidth && e.msg != VariablePrecision
      && (e.msg == InvalidType ==> k < |ci| && TypeChar(ci[k].1).None?)
  {
    k := if Peek(ci, q) == Some('h') then q + 1 else q;
    if k < |ci| {
      match TypeChar(ci[k].1)
      case None =>
      case Some(ft) =>
        ResolveMessageDistinct(ft, if Peek(ci, q) == Some('h') then Some(Short) else None);
    }
  }

  /** The span of an error reported at the precision stage or later. */
  lemma PrecisionErrorSpan(ci: Chars, start: nat, q: nat) returns (k: nat)
    requires q <= |ci| && Precision(ci, start, q).item.Err?
    ensures var r := Precision(ci, start, q); var e := r.item.error;
      && e.start == start
      && (e.end.None? <==> e.msg == EndedEarly)
      && (e.end.None? ==> r.rest == |ci|)
      && (e.end.Some? ==> q <= k < |ci| && e.end == Some(ci[k].0) && r.rest == k + 1)
      && e.msg != VariableWidth
      && (e.msg == VariablePrecision ==> q < k < |ci| && ci[k - 1].1 == '.' && ci[k].1 == '*')
      && (e.msg == InvalidType ==> k < |ci| && TypeChar(ci[k].1).None?)
  {
    if Peek(ci, q) != Some('.') {
      k := SizeAndTypeErrorSpan(ci, start, q);
    } else if Peek(ci, q + 1) == Some('*') {
      k := q + 1;
    } else {
      k := SizeAndTypeErrorSpan(ci, start, SkipWhile(ci, q + 1, IsAsciiDigit));
    }
  }

  /**
   * The errors a conversion reports: start is the '%''s offset; end is absent
   * exactly for "ended early", which consumed the whole input; otherwise end
   * is the offset of the char that caused the error, the last one consumed: a
   * '*' for the width and precision errors, a non-type char for "Invalid type
   * specifier".
   */
  lemma ConversionErrorSpan(ci: Chars, start: nat, q: nat) returns (k: nat)
    requires q <= |ci| && Conversion(ci, start, q).item.Err?
    ensures var r := Conversion(ci, start, q); var e := r.item.error;
      && e.start == start
      && (e.end.None? <==> e.msg == EndedEarly)
      && (e.end.None? ==> r.rest == |ci|)
      && (e.end.Some? ==> q <= k < |ci| && e.end == Some(ci[k].0) && r.rest == k + 1)
      && (e.msg == VariableWidth || e.msg == VariablePrecision ==> k < |ci| && ci[k].1 == '*')
      && (e.msg == VariablePrecision ==> q < k && ci[k - 1].1 == '.')
      && (e.msg == InvalidType ==> k < |ci| && TypeChar(ci[k].1).None?)
  {
    var flags := SkipWhile(ci, q, IsFlag);
    if Peek(ci, flags) == Some('*') {
      k := flags;
    } else {
      k := PrecisionErrorSpan(ci, start, SkipWhile(ci, flags, IsAsciiDigit));
    }
  }

  /** The error (if any) a `next` from p reports carries the span ConversionErrorSpan describes. */
  lemma StepErrorSpan(ci: Chars, p: nat) returns (i: nat, k: nat)
    requires p <= |ci| && Step(ci, p).Yield? && Step(ci, p).item.Err?
    ensures var r := Step(ci, p); var e := r.item.error;
      && p <= i < |ci| && ci[i].1 == '%' && e.start == ci[i].0
      && (e.end.None? <==> e.msg == EndedEarly)
      && (e.end.None? ==> r.rest == |ci|)
      && (e.end.Some? ==> i < k < |ci| && e.end == Some(ci[k].0) && r.rest == k + 1)
      && (e.msg == VariableWidth || e.msg == VariablePrecision ==> k < |ci| && ci[k].1 == '*')
      && (e.msg == InvalidType ==> k < |ci| && TypeChar(ci[k].1).None?)
  {
    i := StepIsConversion(ci, p);
    k := ConversionErrorSpan(ci, ci[i].0, i + 1);
  }

  /** Every item of a list with a head is Ok exactly when its head and all of its tail are. */
  lemma ConsAllOk(x: Item, t: seq<Item>)
    ensures (forall j :: 0 <= j < |[x] + t| ==> ([x] + t)[j].Ok?) <==>
      x.Ok? && forall j :: 0 <= j < |t| ==> t[j].Ok?
  {
    var s := [x] + t;
    assert s[0] == x;
    assert forall j :: 0 <= j < |t| ==> s[j + 1] == t[j];
  }

  /** Prepending a value and its Ok item keeps the values in step with the items. */
  lemma ConsValues(w: SizedType, ws: seq<SizedType>, t: seq<Item>)
    requires |ws| == |t| && forall j :: 0 <= j < |t| ==> t[j].Ok? && ws[j] == t[j].value
    ensures |[w] + ws| == |[Ok(w)] + t|
    ensures forall j :: 0 <= j < |[Ok(w)] + t| ==>
      ([Ok(w)] + t)[j].Ok? && ([w] + ws)[j] == ([Ok(w)] + t)[j].value
  {
    forall j | 0 <= j < |[Ok(w)] + t|
      ensures ([Ok(w)] + t)[j].Ok? && ([w] + ws)[j] == ([Ok(w)] + t)[j].value
    {
      if j > 0 {
        assert ([w] + ws)[j] == ws[j - 1] && ([Ok(w)] + t)[j] == t[j - 1];
      }
    }
  }

  /**
   * `collect` succeeds exactly when every item the iterator yields is Ok, and
   * then returns their wire types, one per conversion, in order.
   */
  lemma {:induction false} CollectAllOk(ci: Chars, p: nat)
    requires p <= |ci|
    ensures CollectFrom(ci, p).Ok? <==> forall j :: 0 <= j < |Items(ci, p)| ==> Items(ci, p)[j].Ok?
    ensures CollectFrom(ci, p).Ok? ==>
      |CollectFrom(ci, p).value| == |Items(ci, p)| &&
      forall j :: 0 <= j < |Items(ci, p)| ==> CollectFrom(ci, p).value[j] == Items(ci, p)[j].value
    decreases |ci| - p
  {
    match Step(ci, p)
    case Done =>
    case Yield(item, rest) =>
      CollectAllOk(ci, rest);
      assert Items(ci, p) == [item] + Items(ci, rest);
      ConsAllOk(item, Items(ci, rest));
      if item.Ok? && CollectFrom(ci, rest).Ok? {
        ConsValues(item.value, CollectFrom(ci, rest).value, Items(ci, rest));
      }
  }

  /**
   * A failed `collect` returns the first Err the iterator yields; every item
   * before it was Ok.
   */
  lemma {:induction false} CollectFirstError(ci: Chars, p: nat) returns (k: nat)
    requires p <= |ci| && CollectFrom(ci, p).Err?
    ensures k < |Items(ci, p)| && Items(ci, p)[k] == Err(CollectFrom(ci, p).error)
    ensures forall j :: 0 <= j < k ==> Items(ci, p)[j].Ok?
    decreases |ci| - p
  {
    var r := Step(ci, p);
    assert r.Yield?;
    if r.item.Err? {
      k := 0;
    } else {
      var k' := CollectFirstError(ci, r.rest);
      k := k' + 1;
      assert Items(ci, p) == [r.item] + Items(ci, r.rest);
    }
  }

  /** A failed `collect` reports an error yielded by some `next` from index p on. */
  lemma {:induction false} CollectErrorStep(ci: Chars, p: nat) returns (p': nat)
    requires p <= |ci| && CollectFrom(ci, p).Err?
    ensures p <= p' <= |ci| && Step(ci, p').Yield?
    ensures Step(ci, p').item == Err(CollectFrom(ci, p).error)
    decreases |ci| - p
  {
    var r := Step(ci, p);
    assert r.Yield?;
    if r.item.Err? {
      p' := p;
    } else {
      p' := CollectErrorStep(ci, r.rest);
    }
  }

  /** Two inputs that agree on their first n pairs. */
  predicate Agree(ci: Chars, ci2: Chars, n: nat) {
    n <= |ci| && n <= |ci2| && forall k :: 0 <= k < n ==> ci2[k] == ci[k]
  }

  /** An error that has an end: anything but "ended early". */
  predicate Definite(item: Item) {
    item.Err? ==> item.error.end.Some?
  }

  lemma {:induction false} SkipWhileAgree(ci: Chars, ci2: Chars, q: nat, f: char -> bool, n: nat)
    requires q <= |ci| && SkipWhile(ci, q, f) < n && Agree(ci, ci2, n)
    ensures SkipWhile(ci2, q, f) == SkipWhile(ci, q, f)
    decreases |ci| - q
  {
    if q < |ci| && f(ci[q].1) {
      SkipWhileAgree(ci, ci2, q + 1, f, n);
    }
  }

  lemma SizeAndTypeAgree(ci: Chars, ci2: Chars, start: nat, q: nat)
    requires q <= |ci| && Definite(SizeAndType(ci, start, q).item)
    requires Agree(ci, ci2, SizeAndType(ci, start, q).rest)
    ensures q <= |ci2| && SizeAndType(ci2, start, q) == SizeAndType(ci, start, q)
  {
    var t := if Peek(ci, q) == Some('h') then q + 1 else q;
    assert t < |ci| && SizeAndType(ci, start, q).rest == t + 1;
    assert ci2[q] == ci[q] && ci2[t] == ci[t];
  }

  lemma PrecisionAgree(ci: Chars, ci2: Chars, start: nat, q: nat)
    requires q <= |ci| && Definite(Precision(ci, start, q).item)
    requires Agree(ci, ci2, Precision(ci, start, q).rest)
    ensures q <= |ci2| && Precision(ci2, start, q) == Precision(ci, start, q)
  {
    var n := Precision(ci, start, q).rest;
    if Peek(ci, q) != Some('.') {
      SizeAndTypeAgree(ci, ci2, start, q);
      assert Peek(ci2, q) == Peek(ci, q);
    } else if Peek(ci, q + 1) == Some('*') {
      assert Peek(ci2, q) == Peek(ci, q) && Peek(ci2, q + 1) == Peek(ci, q + 1);
    } else {
      var prec := SkipWhile(ci, q + 1, IsAsciiDigit);
      SizeAndTypeAgree(ci, ci2, start, prec);
      SkipWhileAgree(ci, ci2, q + 1, IsAsciiDigit, n);
      assert Peek(ci2, q) == Peek(ci, q) && Peek(ci2, q + 1) == Peek(ci, q + 1);
    }
  }

  lemma ConversionAgree(ci: Chars, ci2: Chars, start: nat, q: nat)
    requires q <= |ci| && Definite(Conversion(ci, start, q).item)
    requires Agree(ci, ci2, Conversion(ci, start, q).rest)
    ensures q <= |ci2| && Conversion(ci2, start, q) == Conversion(ci, start, q)
  {
    var n := Conversion(ci, start, q).rest;
    var flags := SkipWhile(ci, q, IsFlag);
    SkipWhileAgree(ci, ci2, q, IsFlag, n);
    assert Peek(ci2, flags) == Peek(ci, flags);
    if Peek(ci, flags) != Some('*') {
      var width := SkipWhile(ci, flags, IsAsciiDigit);
      SkipWhileAgree(ci, ci2, flags, IsAsciiDigit, n);
      PrecisionAgree(ci, ci2, start, width);
    }
  }

  /** Inputs that agree on their first n pairs have the same text before n. */
  lemma AgreeText(ci: Chars, ci2: Chars, p: nat, i: nat, n: nat)
    requires p <= i <= n && Agree(ci, ci2, n)
    ensures Text(ci2)[p..i] == Text(ci)[p..i]
  {
    forall j | p <= j < i ensures Text(ci2)[j] == Text(ci)[j] {
      assert ci2[j] == ci[j];
    }
  }

  /**
   * A `next` whose item is not "ended early" depends only on the chars up to
   * the cursor it leaves: it never looks past the last char it consumes.
   */
  lemma {:induction false} StepAgree(ci: Chars, ci2: Chars, p: nat)
    requires p <= |ci| && Step(ci, p).Yield? && Definite(Step(ci, p).item)
    requires Agree(ci, ci2, Step(ci, p).rest)
    ensures p <= |ci2| && Step(ci2, p) == Step(ci, p)
  {
    var i := StepIsConversion(ci, p);
    var c := Conversion(ci, ci[i].0, i + 1);
    var n := c.rest;
    assert i + 2 <= n;
    ConversionAgree(ci, ci2, ci[i].0, i + 1);
    AgreeText(ci, ci2, p, i, n);
    assert ci2[i] == ci[i] && ci2[i + 1] == ci[i + 1];
    StepIsConversionOf(ci2, p, i);
  }

  /** A literal run followed by an opening '%' is where `next` decodes. */
  lemma StepIsConversionOf(ci: Chars, p: nat, i: nat)
    requires p <= i < |ci| && ci[i].1 == '%' && Peek(ci, i + 1) != Some('%')
    requires Literal(Text(ci)[p..i])
    ensures Step(ci, p) == Conversion(ci, ci[i].0, i + 1)
  {
    LiteralSkipped(ci, p, i);
  }

  /**
   * "Nothing after the first error is examined": once `collect` fails with
   * an error that has an end, every input that agrees with this one up to
   * some index q (at most the whole input) collects to the same error.
   */
  lemma {:induction false} CollectDecidedByPrefix(ci: Chars, p: nat) returns (q: nat)
    requires p <= |ci| && CollectFrom(ci, p).Err? && CollectFrom(ci, p).error.end.Some?
    ensures p <= q <= |ci|
    ensures forall ci2 :: Agree(ci, ci2, q) ==> p <= |ci2| && CollectFrom(ci2, p) == CollectFrom(ci, p)
    decreases |ci| - p
  {
    var r := Step(ci, p);
    assert r.Yield?;
    if r.item.Err? {
      q := r.rest;
      forall ci2 | Agree(ci, ci2, q) ensures p <= |ci2| && CollectFrom(ci2, p) == CollectFrom(ci, p) {
        StepAgree(ci, ci2, p);
      }
    } else {
      q := CollectDecidedByPrefix(ci, r.rest);
      forall ci2 | Agree(ci, ci2, q) ensures p <= |ci2| && CollectFrom(ci2, p) == CollectFrom(ci, p) {
        assert Agree(ci, ci2, r.rest);
        StepAgree(ci, ci2, p);
      }
    }
  }

  /**
   * Only a single 'h' is ever taken as a size prefix, so the scanner never
   * yields the wire types of a signed short or of the `ll` sizes.
   */
  lemma SizeAndTypeNeverWide(ci: Chars, start: nat, q: nat)
    requires q <= |ci| && SizeAndType(ci, start, q).item.Ok?
    ensures SizeAndType(ci, start, q).item.value !in {I16, I64, U64}
  {
  }

  lemma ConversionNeverWide(ci: Chars, start: nat, q: nat)
    requires q <= |ci| && Conversion(ci, start, q).item.Ok?
    ensures Conversion(ci, start, q).item.value !in {I16, I64, U64}
  {
    var flags := SkipWhile(ci, q, IsFlag);
    var width := SkipWhile(ci, flags, IsAsciiDigit);
    if Peek(ci, width) != Some('.') {
      SizeAndTypeNeverWide(ci, start, width);
    } else {
      SizeAndTypeNeverWide(ci, start, SkipWhile(ci, width + 1, IsAsciiDigit));
    }
  }

  lemma {:induction false} CollectNeverWide(ci: Chars, p: nat)
    requires p <= |ci| && CollectFrom(ci, p).Ok?
    ensures forall j :: 0 <= j < |CollectFrom(ci, p).value| ==>
      CollectFrom(ci, p).value[j] !in {I16, I64, U64}
    decreases |ci| - p
  {
    var r := Step(ci, p);
    if r.Yield? {
      var i := StepIsConversion(ci, p);
      ConversionNeverWide(ci, ci[i].0, i + 1);
      CollectNeverWide(ci, r.rest);
    }
  }

  /** `%ll…`, `%l…` and `%hh…` never scan to a wire type: the second size letter is read as the type. */
  lemma ScanNeverWide(fmt: string)
    requires Scan(fmt).Ok?
    ensures forall j :: 0 <= j < |Scan(fmt).value| ==> Scan(fmt).value[j] !in {I16, I64, U64}
  {
    CollectNeverWide(CharIndices(fmt), 0);
  }

  /** `char_indices` of u + v starts with `char_indices` of u. */
  lemma CharIndicesPrefix(u: string, v: string)
    ensures Agree(CharIndices(u), CharIndices(u + v), |u|)
  {
    forall k | 0 <= k < |u| ensures CharIndices(u + v)[k] == CharIndices(u)[k] {
      assert (u + v)[..k] == u[..k];
    }
  }

  /**
   * Once a format string fails with an error that has an end, no text
   * appended to it changes the result: the scan stopped at that error.
   */
  lemma ErrorIgnoresSuffix(u: string, v: string)
    requires Scan(u).Err? && Scan(u).error.end.Some?
    ensures Scan(u + v) == Scan(u)
  {
    var q := CollectDecidedByPrefix(CharIndices(u), 0);
    CharIndicesPrefix(u, v);
    assert Agree(CharIndices(u), CharIndices(u + v), q);
  }

  /**
   * The span of the error a format string scans to, in chars: i is the index
   * of the opening '%', k that of the offending char; the error's offsets are
   * their byte offsets.
   */
  lemma ScanErrorSpan(fmt: string) returns (i: nat, k: nat)
    requires Scan(fmt).Err?
    ensures var e := Scan(fmt).error;
      && i < |fmt| && fmt[i] == '%' && e.start == ByteLen(fmt[..i])
      && (e.end.None? <==> e.msg == EndedEarly)
      && (e.end.Some? ==> i < k < |fmt| && e.end == Some(ByteLen(fmt[..k])))
      && (e.msg == VariableWidth || e.msg == VariablePrecision ==> k < |fmt| && fmt[k] == '*')
      && (e.msg == InvalidType ==> k < |fmt| && TypeChar(fmt[k]).None?)
  {
    var ci := CharIndices(fmt);
    var p := CollectErrorStep(ci, 0);
    i, k := StepErrorSpan(ci, p);
  }

  /** A trailing lone '%' after literal text ends the scan early, at that '%'. */
  lemma TrailingPercentEndsEarly(u: string)
    requires Literal(u)
    ensures Scan(u + "%") == Err(ScanError(EndedEarly, ByteLen(u), None))
  {
    var fmt := u + "%";
    var ci := CharIndices(fmt);
    assert Text(ci)[0..|u|] == u by {
      assert forall j :: 0 <= j < |u| ==> Text(ci)[j] == fmt[j] == u[j];
    }
    LiteralSkipped(ci, 0, |u|);
    assert fmt[..|u|] == u;
    assert ci[|u|] == (ByteLen(u), '%');
    assert SkipWhile(ci, |u| + 1, IsFlag) == |ci|;
    assert SkipWhile(ci, |ci|, IsAsciiDigit) == |ci|;
  }
}
