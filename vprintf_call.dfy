/**
 * `VPrintfCall::to_tokens`: the expansion of one `printf!(fmt, args...)`.
 * The argument expressions are opaque values of type A, and the emitted
 * `#[repr(C)]` record is the list of its fields, one wire type and one
 * argument each; the tokens `quote!` builds around it are not modelled.
 */
module VPrintfCall {
  import opened Wrappers
  import opened StrIndices
  import opened Specifiers
  import opened Scanner
  import opened ScanProperties
  import opened Parser

  /** Above this many arguments the macro prints its warning. */
  const MaxArgs: nat := 32

  /** Why the macro panics instead of producing tokens. */
  datatype Panic =
    | ArityMismatch(types: nat, args: nat)
    | NotCharBoundary

  /**
   * What the macro expands to: a compile error carrying the diagnostic, a
   * panic, or the call whose record has these fields in this order.
   */
  datatype Expansion<A> =
    | CompileError(message: string)
    | Panicked(panic: Panic)
    | Call(fields: seq<(SizedType, A)>)

  /** The expansion, and whether the more-than-32-arguments warning is printed. */
  datatype Tokens<A> = Tokens(warning: bool, expansion: Expansion<A>)

  /** `format!("{}: \"{}\"", msg, substr)`. */
  function Quote(msg: string, substr: string): string {
    msg + ": \"" + substr + "\""
  }

  /**
   * The diagnostic as the source slices it: `&fmt[start..=end]`, or
   * `&fmt[start..]` without an end. None where the slice panics: `..=end`
   * stops one byte after the start of the char at end, which splits that
   * char when it takes more than one byte.
   */
  function DiagnosticAsWritten(fmt: string, e: ScanError): Option<string> {
    var substr := match e.end
      case None => Slice(fmt, e.start, ByteLen(fmt))
      case Some(end) => Slice(fmt, e.start, end + 1);
    match substr
    case None => None
    case Some(sub) => Some(Quote(e.msg, sub))
  }

  /**
   * The diagnostic with the slice the source evidently intends: from the '%'
   * through the whole of the char at end.
   */
  function Diagnostic(fmt: string, e: ScanError): Option<string> {
    var substr := match e.end
      case None => Slice(fmt, e.start, ByteLen(fmt))
      case Some(end) =>
        match BoundaryIndex(fmt, end)
        case Some(k) => if k < |fmt| then Slice(fmt, e.start, end + Utf8Len(fmt[k])) else None
        case None => None;
    match substr
    case None => None
    case Some(sub) => Some(Quote(e.msg, sub))
  }

  /** The record's fields: each wire type with the argument in the same position. */
  function Fields<A>(ws: seq<SizedType>, args: seq<A>): (fields: seq<(SizedType, A)>)
    requires |ws| == |args|
    ensures |fields| == |args|
    ensures forall j :: 0 <= j < |args| ==> fields[j] == (ws[j], args[j])
  {
    seq(|ws|, j requires 0 <= j < |ws| => (ws[j], args[j]))
  }

  /** A compile error carrying the diagnostic, or the panic of a slice off a char boundary. */
  function Reported<A>(diagnostic: Option<string>): Expansion<A> {
    match diagnostic
    case Some(message) => CompileError(message)
    case None => Panicked(NotCharBoundary)
  }

  /** The call with wire type j and argument j paired, or the `assert_eq!` panic. */
  function Checked<A>(ws: seq<SizedType>, args: seq<A>): Expansion<A> {
    if |ws| == |args| then Call(Fields(ws, args)) else Panicked(ArityMismatch(|ws|, |args|))
  }

  /**
   * The expansion of `printf!(fmt, args...)` as the source computes it: the
   * first scan error is quoted with the source's slice, which becomes a
   * compile error or panics; otherwise the wire types must be exactly as
   * many as the arguments, and the call's record pairs them in order.
   */
  function Expand<A>(fmt: string, args: seq<A>): Tokens<A> {
    var expansion := match Scan(fmt)
      case Err(e) => Reported(DiagnosticAsWritten(fmt, e))
      case Ok(ws) => Checked(ws, args);
    Tokens(|args| > MaxArgs, expansion)
  }

  /** The expansion with the intended diagnostic slice; the rest is as in `Expand`. */
  function ExpandIntended<A>(fmt: string, args: seq<A>): Tokens<A> {
    var expansion := match Scan(fmt)
      case Err(e) => Reported(Diagnostic(fmt, e))
      case Ok(ws) => Checked(ws, args);
    Tokens(|args| > MaxArgs, expansion)
  }

  /** `to_tokens`, running the `FormatParser` cursor. */
  method ToTokens<A>(fmt: string, args: seq<A>) returns (t: Tokens<A>)
    ensures t == Expand(fmt, args)
  {
    var warning := |args| > MaxArgs;
    var parser := new FormatParser(fmt);
    var ires := parser.Collect();
    match ires
    case Err(e) =>
      var diagnostic := DiagnosticAsWritten(fmt, e);
      if diagnostic.None? {
        return Tokens(warning, Panicked(NotCharBoundary));
      }
      t := Tokens(warning, CompileError(diagnostic.value));
    case Ok(ws) =>
      if |ws| != |args| {
        return Tokens(warning, Panicked(ArityMismatch(|ws|, |args|)));
      }
      t := Tokens(warning, Call(Fields(ws, args)));
  }

  /**
   * The diagnostic of a scan error quotes the text from the opening '%'
   * (char i) through the offending char k, or to the end of the string when
   * the scan ended early.
   */
  lemma DiagnosticOfScanError(fmt: string) returns (i: nat, k: nat)
    requires Scan(fmt).Err?
    ensures var e := Scan(fmt).error;
      && i < |fmt| && fmt[i] == '%'
      && (e.end.Some? ==> i < k < |fmt| && e.end == Some(ByteLen(fmt[..k])))
      && Diagnostic(fmt, e) == Some(Quote(e.msg, if e.end.None? then fmt[i..] else fmt[i..k + 1]))
  {
    var e := Scan(fmt).error;
    i, k := ScanErrorSpan(fmt);
    BoundaryIndexOf(fmt, i);
    assert fmt[..|fmt|] == fmt;
    if e.end.None? {
      SliceChars(fmt, i, |fmt|);
    } else {
      BoundaryIndexOf(fmt, k);
      ByteLenPrefixStep(fmt, k);
      SliceChars(fmt, i, k + 1);
    }
  }

  /**
   * The source's slice agrees with the intended one except when the error's
   * end is a char of more than one byte; there the slice panics.
   */
  lemma DiagnosticAsWrittenPanics(fmt: string) returns (k: nat)
    requires Scan(fmt).Err?
    ensures var e := Scan(fmt).error;
      e.end.Some? ==> k < |fmt| && e.end == Some(ByteLen(fmt[..k]))
    ensures var e := Scan(fmt).error;
      DiagnosticAsWritten(fmt, e) ==
        if e.end.None? || IsAscii(fmt[k]) then Diagnostic(fmt, e) else None
  {
    var e := Scan(fmt).error;
    var i;
    i, k := DiagnosticOfScanError(fmt);
    if e.end.Some? {
      BoundaryIndexOf(fmt, k);
      if !IsAscii(fmt[k]) {
        InsideCharNotBoundary(fmt, k, ByteLen(fmt[..k]) + 1);
      }
    }
  }

  /** On ASCII format strings the source's diagnostic is the intended one. */
  lemma DiagnosticAsciiAgrees(fmt: string)
    requires AllAscii(fmt) && Scan(fmt).Err?
    ensures DiagnosticAsWritten(fmt, Scan(fmt).error) == Diagnostic(fmt, Scan(fmt).error)
  {
    var k := DiagnosticAsWrittenPanics(fmt);
  }

  /**
   * "%é": an invalid type char of two bytes makes the source's diagnostic
   * slice panic, where the intended expansion reports the error.
   */
  lemma WideTypeCharPanics()
    ensures Scan("%\U{E9}") == Err(ScanError(InvalidType, 0, Some(1)))
    ensures DiagnosticAsWritten("%\U{E9}", ScanError(InvalidType, 0, Some(1))) == None
    ensures Diagnostic("%\U{E9}", ScanError(InvalidType, 0, Some(1))) == Some(Quote(InvalidType, "%\U{E9}"))
    ensures Expand<int>("%\U{E9}", []).expansion == Panicked(NotCharBoundary)
    ensures ExpandIntended<int>("%\U{E9}", []).expansion == CompileError(Quote(InvalidType, "%\U{E9}"))
  {
    var fmt := "%\U{E9}";
    var ci := CharIndices(fmt);
    assert fmt[..1] == "%" && ByteLen("%") == 1;
    assert ci[0] == (0, '%') && ci[1] == (1, '\U{E9}');
    assert Step(ci, 0) == Conversion(ci, 0, 1);
    assert SkipWhile(ci, 1, IsFlag) == 1 && SkipWhile(ci, 1, IsAsciiDigit) == 1;
    assert TypeChar('\U{E9}') == None;
    assert Scan(fmt) == Err(ScanError(InvalidType, 0, Some(1)));
    var k := DiagnosticAsWrittenPanics(fmt);
    var i;
    i, k := DiagnosticOfScanError(fmt);
    assert fmt[0..2] == fmt;
  }

  /**
   * As the source is written, a scan error becomes a compile error quoting
   * the conversion from its '%' when it has no end or ends at an ASCII
   * char, and otherwise the diagnostic slice panics.
   */
  lemma ExpandScanError<A>(fmt: string, args: seq<A>) returns (i: nat, k: nat)
    requires Scan(fmt).Err?
    ensures var e := Scan(fmt).error;
      && i < |fmt| && fmt[i] == '%'
      && (e.end.Some? ==> i < k < |fmt| && e.end == Some(ByteLen(fmt[..k])))
      && Expand(fmt, args).expansion ==
           if e.end.None? || IsAscii(fmt[k])
           then CompileError(Quote(e.msg, if e.end.None? then fmt[i..] else fmt[i..k + 1]))
           else Panicked(NotCharBoundary)
  {
    var e := Scan(fmt).error;
    i, k := DiagnosticOfScanError(fmt);
    if e.end.Some? {
      BoundaryIndexOf(fmt, k);
      if !IsAscii(fmt[k]) {
        InsideCharNotBoundary(fmt, k, ByteLen(fmt[..k]) + 1);
      }
    }
  }

  /**
   * With the intended slice, a scan error always becomes a compile error
   * carrying its diagnostic, never a panic.
   */
  lemma ExpandIntendedScanError<A>(fmt: string, args: seq<A>) returns (i: nat, k: nat)
    requires Scan(fmt).Err?
    ensures var e := Scan(fmt).error;
      && i < |fmt| && fmt[i] == '%'
      && (e.end.Some? ==> i < k < |fmt| && e.end == Some(ByteLen(fmt[..k])))
      && ExpandIntended(fmt, args).expansion ==
           CompileError(Quote(e.msg, if e.end.None? then fmt[i..] else fmt[i..k + 1]))
  {
    i, k := DiagnosticOfScanError(fmt);
  }

  /** On ASCII format strings the source's expansion is the intended one. */
  lemma ExpandAsciiAgrees<A>(fmt: string, args: seq<A>)
    requires AllAscii(fmt)
    ensures Expand(fmt, args) == ExpandIntended(fmt, args)
  {
    if Scan(fmt).Err? {
      DiagnosticAsciiAgrees(fmt);
    }
  }

  /**
   * The expansion is a call exactly when the scan succeeds with as many wire
   * types as arguments; its record then holds wire type j with argument j.
   * A successful scan with any other count is the `assert_eq!` panic.
   */
  lemma ExpandCall<A>(fmt: string, args: seq<A>)
    ensures Expand(fmt, args).expansion.Call? <==> Scan(fmt).Ok? && |Scan(fmt).value| == |args|
    ensures Expand(fmt, args).expansion.Call? ==>
      var fields := Expand(fmt, args).expansion.fields;
      |fields| == |args| && forall j :: 0 <= j < |args| ==> fields[j] == (Scan(fmt).value[j], args[j])
    ensures Scan(fmt).Ok? && |Scan(fmt).value| != |args| ==>
      Expand(fmt, args).expansion == Panicked(ArityMismatch(|Scan(fmt).value|, |args|))
    ensures Expand(fmt, args).warning <==> |args| > 32
  {
  }
}
