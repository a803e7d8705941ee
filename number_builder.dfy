/**
 * Model of `NumberCellProcessorBuilder` (package org.supercsv.ext.builder) and its eight nested
 * builders, one per boxed number type: how the `@CsvNumberConverter` annotation of a field is
 * found and read, how the formatter and the bounds are derived from it, and which processor
 * chains are built for reading and for writing.
 *
 * A processor chain is the list of its steps, first step first; the processor a caller passes in
 * is a chain of its own, and the empty chain stands for null. The nested builders differ only in
 * their number type, which is the `NumberKind` parameter here.
 */
module NumberBuilder {
  import opened Wrappers

  // ---------------------------------------------------------------------------------------------
  // Numbers

  /** The boxed number type a nested builder is for. */
  datatype NumberKind = ByteKind | ShortKind | IntegerKind | LongKind | FloatKind | DoubleKind | BigDecimalKind | BigIntegerKind

  /** A `BigDecimal`: `unscaled` times ten to the power `-scale`. */
  datatype Decimal = Decimal(unscaled: int, scale: int)

  /** A boxed number; floating-point values are kept as their IEEE 754 bit patterns. */
  datatype Number =
    | ByteValue(v: int)
    | ShortValue(v: int)
    | IntValue(v: int)
    | LongValue(v: int)
    | FloatValue(floatBits: bv32)
    | DoubleValue(doubleBits: bv64)
    | BigDecimalValue(decimal: Decimal)
    | BigIntegerValue(v: int)

  const BYTE_MODULUS: int := 0x100
  const SHORT_MODULUS: int := 0x1_0000
  const INT_MODULUS: int := 0x1_0000_0000
  const LONG_MODULUS: int := 0x1_0000_0000_0000_0000

  /** Whether `x` fits a two's complement integer with `modulus` values. */
  predicate FitsSigned(x: int, modulus: int) {
    -(modulus / 2) <= x < modulus / 2
  }

  /** The number `n` has the type `kind` and, for a primitive integer type, lies in its range. */
  predicate OfKind(n: Number, kind: NumberKind) {
    match kind
    case ByteKind => n.ByteValue? && FitsSigned(n.v, BYTE_MODULUS)
    case ShortKind => n.ShortValue? && FitsSigned(n.v, SHORT_MODULUS)
    case IntegerKind => n.IntValue? && FitsSigned(n.v, INT_MODULUS)
    case LongKind => n.LongValue? && FitsSigned(n.v, LONG_MODULUS)
    case FloatKind => n.FloatValue?
    case DoubleKind => n.DoubleValue?
    case BigDecimalKind => n.BigDecimalValue?
    case BigIntegerKind => n.BigIntegerValue?
  }

  /** The simple name of the Java type, as the parse error message shows it. */
  function TypeName(kind: NumberKind): string {
    match kind
    case ByteKind => "Byte"
    case ShortKind => "Short"
    case IntegerKind => "Integer"
    case LongKind => "Long"
    case FloatKind => "Float"
    case DoubleKind => "Double"
    case BigDecimalKind => "BigDecimal"
    case BigIntegerKind => "BigInteger"
  }

  function Pow10(n: nat): (r: nat)
    ensures r >= 1
  {
    if n == 0 then 1 else 10 * Pow10(n - 1)
  }

  /** `BigDecimal.toBigInteger`: the integer part, rounding toward zero. */
  function Truncate(d: Decimal): int {
    if d.scale <= 0 then d.unscaled * Pow10(-d.scale)
    else if d.unscaled >= 0 then d.unscaled / Pow10(d.scale)
    else -((-d.unscaled) / Pow10(d.scale))
  }

  /** The decimal has no fractional part, so `toBigIntegerExact` does not throw. */
  predicate IsIntegral(d: Decimal) {
    d.scale <= 0 || d.unscaled % Pow10(d.scale) == 0
  }

  /**
   * The low-order 64, 32, 16 and 8 bits of `x` read as a two's complement integer: the value in
   * the type's range that agrees with `x` modulo the size of the range.
   */
  function WrapLong(x: int): (r: int)
    ensures FitsSigned(r, LONG_MODULUS) && (r - x) % 0x1_0000_0000_0000_0000 == 0
    ensures FitsSigned(x, LONG_MODULUS) ==> r == x
  {
    (x + 0x8000_0000_0000_0000) % 0x1_0000_0000_0000_0000 - 0x8000_0000_0000_0000
  }

  function WrapInt(x: int): (r: int)
    ensures FitsSigned(r, INT_MODULUS) && (r - x) % 0x1_0000_0000 == 0
    ensures FitsSigned(x, INT_MODULUS) ==> r == x
  {
    (x + 0x8000_0000) % 0x1_0000_0000 - 0x8000_0000
  }

  function WrapShort(x: int): (r: int)
    ensures FitsSigned(r, SHORT_MODULUS) && (r - x) % 0x1_0000 == 0
    ensures FitsSigned(x, SHORT_MODULUS) ==> r == x
  {
    (x + 0x8000) % 0x1_0000 - 0x8000
  }

  function WrapByte(x: int): (r: int)
    ensures FitsSigned(r, BYTE_MODULUS) && (r - x) % 0x100 == 0
    ensures FitsSigned(x, BYTE_MODULUS) ==> r == x
  {
    (x + 0x80) % 0x100 - 0x80
  }

  /** `BigDecimal.longValue`, `intValue`, `shortValue` and `byteValue`, which keep low-order bits. */
  function LongOf(d: Decimal): int { WrapLong(Truncate(d)) }
  function IntOf(d: Decimal): int { WrapInt(LongOf(d)) }
  function ShortOf(d: Decimal): int { WrapShort(IntOf(d)) }
  function ByteOf(d: Decimal): int { WrapByte(IntOf(d)) }

  // ---------------------------------------------------------------------------------------------
  // Decimal integer strings, as `Integer.parseInt`, `Long.parseLong` and `new BigInteger` read them

  predicate IsDigit(c: char) {
    '0' <= c <= '9'
  }

  predicate AllDigits(s: string) {
    forall i :: 0 <= i < |s| ==> IsDigit(s[i])
  }

  function DigitsValue(s: string): nat
    requires AllDigits(s)
  {
    if |s| == 0 then 0 else 10 * DigitsValue(s[..|s| - 1]) + (s[|s| - 1] as int - '0' as int)
  }

  /** An optional sign followed by one or more decimal digits; anything else is not a number. */
  function ParseDecimalInteger(s: string): (r: Option<int>)
    ensures r.Some? ==> |s| > 0
  {
    if |s| > 0 && (s[0] == '-' || s[0] == '+') then
      var digits := s[1..];
      if |digits| > 0 && AllDigits(digits) then
        var n: int := DigitsValue(digits);
        Some(if s[0] == '-' then -n else n)
      else None
    else if |s| > 0 && AllDigits(s) then Some(DigitsValue(s))
    else None
  }

  /** `Integer.toString` and the like for a non-negative value. */
  function NaturalString(n: nat): (s: string)
    ensures |s| > 0 && AllDigits(s)
  {
    if n < 10 then [('0' as int + n) as char]
    else NaturalString(n / 10) + [('0' as int + n % 10) as char]
  }

  function DecimalString(v: int): string {
    if v < 0 then "-" + NaturalString(-v) else NaturalString(v)
  }

  lemma {:induction false} NaturalStringValue(n: nat)
    ensures DigitsValue(NaturalString(n)) == n
  {
    if n >= 10 {
      var s := NaturalString(n);
      assert s[..|s| - 1] == NaturalString(n / 10);
      NaturalStringValue(n / 10);
    }
  }

  /** Reading back the decimal string of any integer gives that integer. */
  lemma DecimalStringRoundTrip(v: int)
    ensures ParseDecimalInteger(DecimalString(v)) == Some(v)
  {
    if v < 0 {
      NaturalStringValue(-v);
      assert DecimalString(v)[1..] == NaturalString(-v);
    } else {
      NaturalStringValue(v);
      assert IsDigit(NaturalString(v)[0]);
    }
  }

  // ---------------------------------------------------------------------------------------------
  // Annotation, formatter and the Java number library

  /** `@CsvNumberConverter`: attribute values as declared on the field. */
  datatype CsvNumberConverter = CsvNumberConverter(pattern: string, lenient: bool, locale: string,
                                                   currency: string, min: string, max: string)

  /** An annotation of the field: a number converter or any other annotation. */
  datatype FieldAnnotation = NumberConverter(converter: CsvNumberConverter) | OtherAnnotation(name: string)

  datatype Locale = Locale(tag: string)
  datatype Currency = Currency(code: string)

  /** A `DecimalFormat` with its settings. */
  datatype Formatter = DecimalFormat(pattern: string, symbols: Option<Locale>, currency: Option<Currency>, parseBigDecimal: bool)

  /**
   * The parts of the Java platform the builders call, as uninterpreted functions: `None` stands
   * for the exception the call throws.
   */
  datatype NumberLibrary = NumberLibrary(
    defaultLocale: Locale,                                // Locale.getDefault
    localeOf: string -> Locale,                           // Utils.getLocale
    currencyOf: string -> Option<Currency>,               // Currency.getInstance
    validPattern: string -> bool,                         // new DecimalFormat(pattern, symbols) accepts the pattern
    formatParse: (Formatter, string) -> Option<Decimal>,  // DecimalFormat.parse with BigDecimal results
    decimalOf: string -> Option<Decimal>,                 // new BigDecimal(String)
    floatOf: Decimal -> bv32,                             // BigDecimal.floatValue
    doubleOf: Decimal -> bv64,                            // BigDecimal.doubleValue
    parseFloat: string -> Option<bv32>,                   // Float.valueOf
    parseDouble: string -> Option<bv64>)                  // Double.valueOf

  /** What building can raise. */
  datatype BuildError =
    | InvalidAnnotation(message: string)  // SuperCsvInvalidAnnotationException
    | NumberFormatError(value: string)    // NumberFormatException of valueOf or a constructor
    | ArithmeticError(value: string)      // toBigIntegerExact on a value with a fraction
    | IllegalCurrency(code: string)       // Currency.getInstance on an unknown code
    | IllegalPattern(pattern: string)     // new DecimalFormat on a malformed pattern

  /** The first number converter at or after `i`. */
  function FirstConverter(annos: seq<FieldAnnotation>, i: nat): (r: Option<CsvNumberConverter>)
    ensures r.None? <==> forall k :: i <= k < |annos| ==> !annos[k].NumberConverter?
    ensures r.Some? ==> exists k :: i <= k < |annos| && annos[k] == NumberConverter(r.value)
                                    && forall j :: i <= j < k ==> !annos[j].NumberConverter?
    decreases |annos| - i
  {
    if i >= |annos| then None
    else if annos[i].NumberConverter? then Some(annos[i].converter)
    else FirstConverter(annos, i + 1)
  }

  /** `getAnnotation`: the first number converter of the field's annotations (null: `None`). */
  function GetAnnotation(annos: Option<seq<FieldAnnotation>>): (r: Option<CsvNumberConverter>)
    ensures r.None? <==> annos.None? || forall k :: 0 <= k < |annos.value| ==> !annos.value[k].NumberConverter?
    ensures r.Some? ==> annos.Some? && (exists k :: 0 <= k < |annos.value| && annos.value[k] == NumberConverter(r.value)
                                          && forall j :: 0 <= j < k ==> !annos.value[j].NumberConverter?)
  {
    if annos.None? || |annos.value| == 0 then None
    else FirstConverter(annos.value, 0)
  }

  function GetPattern(c: Option<CsvNumberConverter>): string {
    if c.None? then "" else c.value.pattern
  }

  function GetLenient(c: Option<CsvNumberConverter>): bool {
    if c.None? then false else c.value.lenient
  }

  function GetMin(c: Option<CsvNumberConverter>): string {
    if c.None? then "" else c.value.min
  }

  function GetMax(c: Option<CsvNumberConverter>): string {
    if c.None? then "" else c.value.max
  }

  function GetLocale(lib: NumberLibrary, c: Option<CsvNumberConverter>): Locale {
    if c.None? then lib.defaultLocale else lib.localeOf(c.value.locale)
  }

  /** `getCurrency`: null without an annotation or with an empty code, else the code's currency. */
  function GetCurrency(lib: NumberLibrary, c: Option<CsvNumberConverter>): (r: Result<Option<Currency>, BuildError>)
    ensures r.Success? && r.value.Some? ==> c.Some? && c.value.currency != "" && lib.currencyOf(c.value.currency) == r.value
    ensures r.Failure? <==> c.Some? && c.value.currency != "" && lib.currencyOf(c.value.currency).None?
    ensures (c.None? || c.value.currency == "") ==> r == Success(None)
  {
    if c.None? || c.value.currency == "" then Success(None)
    else match lib.currencyOf(c.value.currency)
      case None => Failure(IllegalCurrency(c.value.currency))
      case Some(cur) => Success(Some(cur))
  }

  /** Without an annotation every accessor gives its default. */
  lemma DefaultsWithoutAnnotation(lib: NumberLibrary)
    ensures GetPattern(None) == "" && !GetLenient(None) && GetMin(None) == "" && GetMax(None) == ""
    ensures GetLocale(lib, None) == lib.defaultLocale && GetCurrency(lib, None) == Success(None)
  {
  }

  /**
   * `createNumberFormat`: no formatter for an empty pattern; the constructor's exception for a
   * malformed one; else a `DecimalFormat` parsing to BigDecimal.
   */
  function CreateNumberFormat(lib: NumberLibrary, pattern: string, lenient: bool, currency: Option<Currency>,
                              symbols: Option<Locale>): (r: Result<Option<Formatter>, BuildError>)
    ensures r == Success(None) <==> pattern == ""
    ensures r.Failure? <==> pattern != "" && !lib.validPattern(pattern)
    ensures r.Failure? ==> r.error == IllegalPattern(pattern)
    ensures r.Success? && r.value.Some? ==>
      && lib.validPattern(pattern)
      && r.value.value.pattern == pattern && r.value.value.parseBigDecimal
      && r.value.value.currency == currency && r.value.value.symbols == symbols
  {
    if pattern == "" then Success(None)
    else if !lib.validPattern(pattern) then Failure(IllegalPattern(pattern))
    else Success(Some(DecimalFormat(pattern, symbols, currency, true)))
  }

  /** The formatter does not depend on `lenient`: the flag only reaches the locale-aware parser. */
  lemma CreateNumberFormatIgnoresLenient(lib: NumberLibrary, pattern: string, currency: Option<Currency>,
                                         symbols: Option<Locale>)
    ensures CreateNumberFormat(lib, pattern, true, currency, symbols) == CreateNumberFormat(lib, pattern, false, currency, symbols)
  {
  }

  // ---------------------------------------------------------------------------------------------
  // parseNumber

  function ParseFailure(value: string, kind: NumberKind): BuildError {
    InvalidAnnotation(" value '" + value + "' cannot parse to " + TypeName(kind))
  }

  /** The formatter's decimal converted to the builder's type. */
  function FromDecimal(kind: NumberKind, value: string, lib: NumberLibrary, d: Decimal): Result<Number, BuildError> {
    match kind
    case ByteKind => Success(ByteValue(ByteOf(d)))
    case ShortKind => Success(ShortValue(ShortOf(d)))
    case IntegerKind => Success(IntValue(IntOf(d)))
    case LongKind => Success(LongValue(LongOf(d)))
    case FloatKind => Success(FloatValue(lib.floatOf(d)))
    case DoubleKind => Success(DoubleValue(lib.doubleOf(d)))
    case BigDecimalKind => Success(BigDecimalValue(d))
    case BigIntegerKind => if IsIntegral(d) then Success(BigIntegerValue(Truncate(d))) else Failure(ArithmeticError(value))
  }

  /** `Byte.valueOf`, `Integer.valueOf`, `new BigDecimal(String)` and the like. */
  function ValueOf(kind: NumberKind, value: string, lib: NumberLibrary): Result<Number, BuildError> {
    match kind
    case ByteKind => FixedValueOf(value, BYTE_MODULUS, ByteValue(0))
    case ShortKind => FixedValueOf(value, SHORT_MODULUS, ShortValue(0))
    case IntegerKind => FixedValueOf(value, INT_MODULUS, IntValue(0))
    case LongKind => FixedValueOf(value, LONG_MODULUS, LongValue(0))
    case FloatKind =>
      (match lib.parseFloat(value) case None => Failure(NumberFormatError(value)) case Some(b) => Success(FloatValue(b)))
    case DoubleKind =>
      (match lib.parseDouble(value) case None => Failure(NumberFormatError(value)) case Some(b) => Success(DoubleValue(b)))
    case BigDecimalKind =>
      (match lib.decimalOf(value) case None => Failure(NumberFormatError(value)) case Some(d) => Success(BigDecimalValue(d)))
    case BigIntegerKind =>
      (match ParseDecimalInteger(value) case None => Failure(NumberFormatError(value)) case Some(v) => Success(BigIntegerValue(v)))
  }

  /** A primitive integer parse: a decimal integer in range, of the same constructor as `shape`. */
  function FixedValueOf(value: string, modulus: int, shape: Number): Result<Number, BuildError>
    requires shape.ByteValue? || shape.ShortValue? || shape.IntValue? || shape.LongValue?
  {
    match ParseDecimalInteger(value)
    case Some(v) => if FitsSigned(v, modulus) then Success(shape.(v := v)) else Failure(NumberFormatError(value))
    case None => Failure(NumberFormatError(value))
  }

  /**
   * `parseNumber`: null for an empty string; with a formatter, its parse converted to the
   * builder's type, a parse failure being an invalid annotation; without one, `valueOf`.
   */
  function ParseNumber(lib: NumberLibrary, kind: NumberKind, value: string, formatter: Option<Formatter>)
    : (r: Result<Option<Number>, BuildError>)
    ensures value == "" <==> r == Success(None)
    ensures value != "" && formatter.Some? && lib.formatParse(formatter.value, value).None? ==>
      r == Failure(ParseFailure(value, kind))
    ensures r.Failure? && r.error.InvalidAnnotation? ==> formatter.Some?
    ensures r.Success? && r.value.Some? ==> OfKind(r.value.value, kind)
  {
    if value == "" then Success(None)
    else if formatter.Some? then
      match lib.formatParse(formatter.value, value)
      case None => Failure(ParseFailure(value, kind))
      case Some(d) =>
        match FromDecimal(kind, value, lib, d)
        case Success(n) => Success(Some(n))
        case Failure(e) => Failure(e)
    else
      match ValueOf(kind, value, lib)
      case Success(n) => Success(Some(n))
      case Failure(e) => Failure(e)
  }

  /**
   * Without a formatter a primitive integer parse reads back `Integer.toString` of every value in
   * range, and fails on every value outside it.
   */
  lemma ParsePlainIntegerRoundTrip(lib: NumberLibrary, kind: NumberKind, v: int)
    requires kind in {ByteKind, ShortKind, IntegerKind, LongKind}
    ensures var modulus := match kind
      case ByteKind => BYTE_MODULUS case ShortKind => SHORT_MODULUS case IntegerKind => INT_MODULUS case _ => LONG_MODULUS;
      var r := ParseNumber(lib, kind, DecimalString(v), None);
      && (FitsSigned(v, modulus) ==> r.Success? && r.value.Some? && r.value.value.v == v)
      && (!FitsSigned(v, modulus) ==> r == Failure(NumberFormatError(DecimalString(v))))
  {
    DecimalStringRoundTrip(v);
  }

  /** Without a formatter a `BigInteger` parse reads back the decimal string of every integer. */
  lemma ParsePlainBigIntegerRoundTrip(lib: NumberLibrary, v: int)
    ensures ParseNumber(lib, BigIntegerKind, DecimalString(v), None) == Success(Some(BigIntegerValue(v)))
  {
    DecimalStringRoundTrip(v);
  }

  /** With a formatter, a primitive integer type gets the parsed decimal's `xxxValue()`. */
  lemma ParseWithFormatterNarrows(lib: NumberLibrary, value: string, f: Formatter, d: Decimal)
    requires value != "" && lib.formatParse(f, value) == Some(d)
    ensures ParseNumber(lib, ByteKind, value, Some(f)) == Success(Some(ByteValue(ByteOf(d))))
    ensures ParseNumber(lib, ShortKind, value, Some(f)) == Success(Some(ShortValue(ShortOf(d))))
    ensures ParseNumber(lib, IntegerKind, value, Some(f)) == Success(Some(IntValue(IntOf(d))))
    ensures ParseNumber(lib, LongKind, value, Some(f)) == Success(Some(LongValue(LongOf(d))))
  {
  }

  /**
   * `intValue` keeps the integer part when it fits and otherwise its low-order bits: it agrees
   * with the integer part modulo 2^32.
   */
  lemma IntOfResidue(d: Decimal)
    ensures (IntOf(d) - Truncate(d)) % 0x1_0000_0000 == 0
    ensures FitsSigned(Truncate(d), INT_MODULUS) ==> IntOf(d) == Truncate(d)
  {
    var t := Truncate(d);
    var l := LongOf(d);
    var i := IntOf(d);
    if FitsSigned(t, INT_MODULUS) {
      assert FitsSigned(t, LONG_MODULUS);
      assert l == t;
    }
    assert (i - l) % 0x1_0000_0000 == 0 && (l - t) % 0x1_0000_0000_0000_0000 == 0;
    LongResidueIsIntResidue(i - l, l - t);
    assert i - t == (i - l) + (l - t);
  }

  /** `shortValue` agrees with the integer part modulo 2^16, and equals it when it fits. */
  lemma ShortOfResidue(d: Decimal)
    ensures (ShortOf(d) - Truncate(d)) % 0x1_0000 == 0
    ensures FitsSigned(Truncate(d), SHORT_MODULUS) ==> ShortOf(d) == Truncate(d)
  {
    IntOfResidue(d);
    var t := Truncate(d);
    var i := IntOf(d);
    var n := ShortOf(d);
    if FitsSigned(t, SHORT_MODULUS) {
      assert FitsSigned(t, INT_MODULUS);
      assert i == t;
    }
    assert (n - i) % 0x1_0000 == 0;
    IntResidueIsShortResidue(n - i, i - t);
    assert n - t == (n - i) + (i - t);
  }

  /** `byteValue` agrees with the integer part modulo 2^8, and equals it when it fits. */
  lemma ByteOfResidue(d: Decimal)
    ensures (ByteOf(d) - Truncate(d)) % 0x100 == 0
    ensures FitsSigned(Truncate(d), BYTE_MODULUS) ==> ByteOf(d) == Truncate(d)
  {
    IntOfResidue(d);
    var t := Truncate(d);
    var i := IntOf(d);
    var n := ByteOf(d);
    if FitsSigned(t, BYTE_MODULUS) {
      assert FitsSigned(t, INT_MODULUS);
      assert i == t;
    }
    assert (n - i) % 0x100 == 0;
    IntResidueIsByteResidue(n - i, i - t);
    assert n - t == (n - i) + (i - t);
  }

  lemma LongResidueIsIntResidue(x: int, y: int)
    requires x % 0x1_0000_0000 == 0 && y % 0x1_0000_0000_0000_0000 == 0
    ensures (x + y) % 0x1_0000_0000 == 0
  {
    var p := y / 0x1_0000_0000_0000_0000;
    var q := x / 0x1_0000_0000;
    assert x + y == (q + p * 0x1_0000_0000) * 0x1_0000_0000;
  }

  lemma IntResidueIsShortResidue(x: int, y: int)
    requires x % 0x1_0000 == 0 && y % 0x1_0000_0000 == 0
    ensures (x + y) % 0x1_0000 == 0
  {
    var p := y / 0x1_0000_0000;
    var q := x / 0x1_0000;
    assert x + y == (q + p * 0x1_0000) * 0x1_0000;
  }

  lemma IntResidueIsByteResidue(x: int, y: int)
    requires x % 0x100 == 0 && y % 0x1_0000_0000 == 0
    ensures (x + y) % 0x100 == 0
  {
    var p := y / 0x1_0000_0000;
    var q := x / 0x100;
    assert x + y == (q + p * 0x100_0000) * 0x100;
  }

  /** With a formatter, a `BigInteger` is the exact integer the decimal denotes; a fraction throws. */
  lemma ParseBigIntegerWithFormatter(lib: NumberLibrary, value: string, f: Formatter, d: Decimal)
    requires value != "" && lib.formatParse(f, value) == Some(d)
    ensures var r := ParseNumber(lib, BigIntegerKind, value, Some(f));
      && (IsIntegral(d) ==> r == Success(Some(BigIntegerValue(Truncate(d)))))
      && (!IsIntegral(d) ==> r == Failure(ArithmeticError(value)))
  {
  }

  // ---------------------------------------------------------------------------------------------
  // Processor chains

  /** A cell processor of a chain. */
  datatype Step =
    | RangeStep(min: Number, max: Number, rangeFormatter: Option<Formatter>)
    | MinStep(min: Number, rangeFormatter: Option<Formatter>)
    | MaxStep(max: Number, rangeFormatter: Option<Formatter>)
    | FormatLocaleNumber(formatter: Formatter)
    | ParseLocaleNumber(kind: NumberKind, localeFormatter: Option<Formatter>, lenient: bool)
    | ParseByte | ParseShort | ParseInt | ParseLong | ParseFloat | ParseDouble | ParseBigDecimal | ParseBigInteger
    | CallerStep(name: string)  // a step of the processor the caller passes in

  /** A chain, first step first; the empty chain stands for null. */
  type Chain = seq<Step>

  predicate IsRangeCheck(s: Step) {
    s.RangeStep? || s.MinStep? || s.MaxStep?
  }

  predicate IsParser(s: Step) {
    s.ParseLocaleNumber? || s.ParseByte? || s.ParseShort? || s.ParseInt? || s.ParseLong? || s.ParseFloat?
    || s.ParseDouble? || s.ParseBigDecimal? || s.ParseBigInteger?
  }

  /**
   * `prependRangeProcessor`: a range check chosen by which bounds are present, placed in front of
   * the given processor, which becomes its successor.
   */
  function PrependRangeProcessor(min: Option<Number>, max: Option<Number>, formatter: Option<Formatter>, processor: Chain)
    : (r: Chain)
    ensures (min.None? && max.None?) <==> r == processor
    ensures (min.Some? || max.Some?) ==> |r| == |processor| + 1 && r[1..] == processor && IsRangeCheck(r[0])
    ensures min.Some? && max.Some? ==> r[0] == RangeStep(min.value, max.value, formatter)
    ensures min.Some? && max.None? ==> r[0] == MinStep(min.value, formatter)
    ensures min.None? && max.Some? ==> r[0] == MaxStep(max.value, formatter)
  {
    if min.Some? && max.Some? then [RangeStep(min.value, max.value, formatter)] + processor
    else if min.Some? then [MinStep(min.value, formatter)] + processor
    else if max.Some? then [MaxStep(max.value, formatter)] + processor
    else processor
  }

  /** The range check alone, which is what gets prepended to any processor. */
  lemma PrependRangeProcessorAppend(min: Option<Number>, max: Option<Number>, formatter: Option<Formatter>, processor: Chain)
    ensures PrependRangeProcessor(min, max, formatter, processor) == PrependRangeProcessor(min, max, formatter, []) + processor
  {
  }

  /** What the body of every build method derives from the annotation before building. */
  datatype Settings = Settings(lenient: bool, formatter: Option<Formatter>, min: Option<Number>, max: Option<Number>)

  /** The formatter of the annotation: the getters, the locale's symbols and `createNumberFormat`. */
  function FormatterOf(lib: NumberLibrary, c: Option<CsvNumberConverter>): (r: Result<Option<Formatter>, BuildError>)
    ensures GetCurrency(lib, c).Failure? ==> r == Failure(GetCurrency(lib, c).error)
    ensures r.Failure? <==> GetCurrency(lib, c).Failure? || (GetPattern(c) != "" && !lib.validPattern(GetPattern(c)))
    ensures r == Success(None) <==> GetCurrency(lib, c).Success? && GetPattern(c) == ""
    ensures r.Success? && r.value.Some? ==>
      r.value.value == DecimalFormat(GetPattern(c), Some(GetLocale(lib, c)), GetCurrency(lib, c).value, true)
  {
    var locale := GetLocale(lib, c);
    match GetCurrency(lib, c)
    case Failure(e) => Failure(e)
    case Success(currency) => CreateNumberFormat(lib, GetPattern(c), GetLenient(c), currency, Some(locale))
  }

  /** The formatter, then the bounds parsed with it, minimum first. */
  function SettingsOf(lib: NumberLibrary, kind: NumberKind, c: Option<CsvNumberConverter>): (r: Result<Settings, BuildError>)
    ensures r.Success? ==> FormatterOf(lib, c) == Success(r.value.formatter) && r.value.lenient == GetLenient(c)
    ensures r.Success? ==> ParseNumber(lib, kind, GetMin(c), r.value.formatter) == Success(r.value.min)
                           && ParseNumber(lib, kind, GetMax(c), r.value.formatter) == Success(r.value.max)
    ensures r.Success? ==> r.value.min.None? == (GetMin(c) == "") && r.value.max.None? == (GetMax(c) == "")
  {
    match FormatterOf(lib, c)
    case Failure(e) => Failure(e)
    case Success(formatter) =>
      match ParseNumber(lib, kind, GetMin(c), formatter)
      case Failure(e) => Failure(e)
      case Success(min) =>
        match ParseNumber(lib, kind, GetMax(c), formatter)
        case Failure(e) => Failure(e)
        case Success(max) => Success(Settings(GetLenient(c), formatter, min, max))
  }

  /** `buildOutputCellProcessor`: the format step in front of the processor, then the range check. */
  function BuildOutputCellProcessor(lib: NumberLibrary, kind: NumberKind, annos: Option<seq<FieldAnnotation>>,
                                    processor: Chain, ignoreValidationProcessor: bool): Result<Chain, BuildError>
  {
    match SettingsOf(lib, kind, GetAnnotation(annos))
    case Failure(e) => Failure(e)
    case Success(s) => Success(OutputChain(s, processor, ignoreValidationProcessor))
  }

  /** The body of `buildOutputCellProcessor` once the settings are known. */
  function OutputChain(s: Settings, processor: Chain, ignoreValidationProcessor: bool): Chain {
    var formatted := if s.formatter.Some? then [FormatLocaleNumber(s.formatter.value)] + processor else processor;
    if !ignoreValidationProcessor then PrependRangeProcessor(s.min, s.max, s.formatter, formatted) else formatted
  }

  /** The plain parser of each type, for reading without a formatter. */
  function PlainParser(kind: NumberKind): Step {
    match kind
    case ByteKind => ParseByte
    case ShortKind => ParseShort
    case IntegerKind => ParseInt
    case LongKind => ParseLong
    case FloatKind => ParseFloat
    case DoubleKind => ParseDouble
    case BigDecimalKind => ParseBigDecimal
    case BigIntegerKind => ParseBigInteger
  }

  /**
   * The first step of the reading chain. For `BigInteger` the choice is the other way round: the
   * plain parser with a formatter and the locale-aware one, with a null formatter, without.
   */
  function InputParser(kind: NumberKind, formatter: Option<Formatter>, lenient: bool): Step {
    if kind == BigIntegerKind then
      if formatter.Some? then ParseBigInteger else ParseLocaleNumber(kind, formatter, lenient)
    else if formatter.Some? then ParseLocaleNumber(kind, formatter, lenient)
    else PlainParser(kind)
  }

  /**
   * The first step of the reading chain as the other seven builders choose it, and as evidently
   * meant for `BigInteger` too: locale-aware exactly when there is a formatter.
   */
  function InputParserIntended(kind: NumberKind, formatter: Option<Formatter>, lenient: bool): (r: Step)
    ensures r.ParseLocaleNumber? <==> formatter.Some?
  {
    if formatter.Some? then ParseLocaleNumber(kind, formatter, lenient) else PlainParser(kind)
  }

  /**
   * The `BigInteger` builder's parser differs from the intended one for every formatter, and is
   * the intended one for every other type.
   */
  lemma InputParserReversedForBigInteger(kind: NumberKind, formatter: Option<Formatter>, lenient: bool)
    ensures kind != BigIntegerKind ==> InputParser(kind, formatter, lenient) == InputParserIntended(kind, formatter, lenient)
    ensures kind == BigIntegerKind ==> InputParser(kind, formatter, lenient) != InputParserIntended(kind, formatter, lenient)
    ensures kind == BigIntegerKind && formatter.Some? ==> InputParser(kind, formatter, lenient) == ParseBigInteger
  {
  }

  /** `buildInputCellProcessor`: the range check in front of the processor, then the parser. */
  function BuildInputCellProcessor(lib: NumberLibrary, kind: NumberKind, annos: Option<seq<FieldAnnotation>>,
                                   processor: Chain): Result<Chain, BuildError>
  {
    match SettingsOf(lib, kind, GetAnnotation(annos))
    case Failure(e) => Failure(e)
    case Success(s) => Success(InputChain(kind, s, processor))
  }

  /** The body of `buildInputCellProcessor` once the settings are known. */
  function InputChain(kind: NumberKind, s: Settings, processor: Chain): Chain {
    [InputParser(kind, s.formatter, s.lenient)] + PrependRangeProcessor(s.min, s.max, s.formatter, processor)
  }

  /** `getParseValue`: the default value parsed with the annotation's formatter; the bounds are not read. */
  function GetParseValue(lib: NumberLibrary, kind: NumberKind, annos: Option<seq<FieldAnnotation>>, defaultValue: string)
    : Result<Option<Number>, BuildError>
  {
    match FormatterOf(lib, GetAnnotation(annos))
    case Failure(e) => Failure(e)
    case Success(formatter) => ParseNumber(lib, kind, defaultValue, formatter)
  }

  // ---------------------------------------------------------------------------------------------
  // Properties of the chains

  /** The range check of the settings, empty when validation is skipped or there is no bound. */
  function RangePart(s: Settings, ignoreValidationProcessor: bool): Chain {
    if ignoreValidationProcessor then [] else PrependRangeProcessor(s.min, s.max, s.formatter, [])
  }

  /** The format step of the settings, present exactly when there is a formatter. */
  function FormatPart(s: Settings): Chain {
    if s.formatter.Some? then [FormatLocaleNumber(s.formatter.value)] else []
  }

  /**
   * The writing chain is the range check, then the format step, then the caller's processor. The
   * range check is absent when validation is skipped, and the format step without a pattern.
   */
  lemma {:induction false} OutputChainOrder(s: Settings, processor: Chain, ignoreValidationProcessor: bool)
    ensures var r := OutputChain(s, processor, ignoreValidationProcessor);
      && r == RangePart(s, ignoreValidationProcessor) + FormatPart(s) + processor
      && (ignoreValidationProcessor ==> forall i :: 0 <= i < |r| - |processor| ==> !IsRangeCheck(r[i]))
      && (|r| > |processor| <==> s.formatter.Some? || (!ignoreValidationProcessor && (s.min.Some? || s.max.Some?)))
  {
    var formatted := if s.formatter.Some? then [FormatLocaleNumber(s.formatter.value)] + processor else processor;
    assert formatted == FormatPart(s) + processor;
    if !ignoreValidationProcessor {
      PrependRangeProcessorAppend(s.min, s.max, s.formatter, formatted);
    }
  }

  /** Building the writing chain fails exactly when reading the annotation does. */
  lemma BuildOutputOrder(lib: NumberLibrary, kind: NumberKind, annos: Option<seq<FieldAnnotation>>,
                         processor: Chain, ignoreValidationProcessor: bool)
    ensures var r := BuildOutputCellProcessor(lib, kind, annos, processor, ignoreValidationProcessor);
      var s := SettingsOf(lib, kind, GetAnnotation(annos));
      && (r.Success? <==> s.Success?)
      && (r.Failure? ==> r.error == s.error)
      && (r.Success? ==> r.value == RangePart(s.value, ignoreValidationProcessor) + FormatPart(s.value) + processor)
  {
    var s := SettingsOf(lib, kind, GetAnnotation(annos));
    if s.Success? {
      OutputChainOrder(s.value, processor, ignoreValidationProcessor);
    }
  }

  /**
   * The reading chain is the parser, then the range check, then the caller's processor; the
   * parser is locale-aware exactly when there is a formatter, except for `BigInteger`, where it is
   * locale-aware exactly when there is none.
   */
  lemma {:induction false} InputChainOrder(kind: NumberKind, s: Settings, processor: Chain)
    ensures var r := InputChain(kind, s, processor);
      && r == [r[0]] + RangePart(s, false) + processor && IsParser(r[0])
      && (kind != BigIntegerKind ==> (r[0].ParseLocaleNumber? <==> s.formatter.Some?))
      && (kind == BigIntegerKind ==> (r[0].ParseLocaleNumber? <==> s.formatter.None?))
      && (r[0].ParseLocaleNumber? ==> r[0] == ParseLocaleNumber(kind, s.formatter, s.lenient))
  {
    PrependRangeProcessorAppend(s.min, s.max, s.formatter, processor);
    assert InputChain(kind, s, processor) == [InputParser(kind, s.formatter, s.lenient)] + (RangePart(s, false) + processor);
  }

  /** Building the reading chain fails exactly when reading the annotation does. */
  lemma BuildInputOrder(lib: NumberLibrary, kind: NumberKind, annos: Option<seq<FieldAnnotation>>, processor: Chain)
    ensures var r := BuildInputCellProcessor(lib, kind, annos, processor);
      var s := SettingsOf(lib, kind, GetAnnotation(annos));
      && (r.Success? <==> s.Success?)
      && (r.Failure? ==> r.error == s.error)
      && (r.Success? ==> r.value == InputChain(kind, s.value, processor))
  {
  }

  /**
   * Without the annotation no formatter and no bounds exist: writing passes the processor through
   * and reading puts the type's plain parser in front of it.
   */
  lemma BuildWithoutAnnotation(lib: NumberLibrary, kind: NumberKind, annos: Option<seq<FieldAnnotation>>,
                               processor: Chain, ignoreValidationProcessor: bool, defaultValue: string)
    requires GetAnnotation(annos).None?
    ensures BuildOutputCellProcessor(lib, kind, annos, processor, ignoreValidationProcessor) == Success(processor)
    ensures BuildInputCellProcessor(lib, kind, annos, processor) ==
      Success([if kind == BigIntegerKind then ParseLocaleNumber(BigIntegerKind, None, false) else PlainParser(kind)] + processor)
    ensures GetParseValue(lib, kind, annos, defaultValue) == ParseNumber(lib, kind, defaultValue, None)
  {
    assert FormatterOf(lib, None) == Success(None);
    assert SettingsOf(lib, kind, None) == Success(Settings(false, None, None, None));
  }

  /**
   * `getParseValue` parses the default value with the very formatter the chains are built with, so
   * it fails with the formatter's error whenever the chains do; it gives null exactly for an empty
   * default value.
   */
  lemma GetParseValueSpec(lib: NumberLibrary, kind: NumberKind, annos: Option<seq<FieldAnnotation>>,
                          processor: Chain, defaultValue: string)
    ensures var c := GetAnnotation(annos);
      var r := GetParseValue(lib, kind, annos, defaultValue);
      && (FormatterOf(lib, c).Failure? ==>
            && r == Failure(FormatterOf(lib, c).error)
            && BuildInputCellProcessor(lib, kind, annos, processor) == Failure(FormatterOf(lib, c).error))
      && (SettingsOf(lib, kind, c).Success? ==> r == ParseNumber(lib, kind, defaultValue, SettingsOf(lib, kind, c).value.formatter))
      && (FormatterOf(lib, c).Success? ==> (r == Success(None) <==> defaultValue == ""))
      && (r.Success? && r.value.Some? ==> OfKind(r.value.value, kind))
  {
  }

  /** `getParseValue` does not read the bounds: changing `min` and `max` does not change it. */
  lemma GetParseValueIgnoresBounds(lib: NumberLibrary, kind: NumberKind, cv: CsvNumberConverter,
                                   min: string, max: string, defaultValue: string)
    ensures GetParseValue(lib, kind, Some([NumberConverter(cv)]), defaultValue)
         == GetParseValue(lib, kind, Some([NumberConverter(cv.(min := min, max := max))]), defaultValue)
  {
    assert GetAnnotation(Some([NumberConverter(cv)])) == Some(cv);
    assert GetAnnotation(Some([NumberConverter(cv.(min := min, max := max))])) == Some(cv.(min := min, max := max));
  }

  /**
   * A malformed pattern is reported after the currency and before the bounds: writing, reading
   * and the default value all fail with it.
   */
  lemma IllegalPatternFails(lib: NumberLibrary, kind: NumberKind, annos: Option<seq<FieldAnnotation>>,
                            processor: Chain, ignoreValidationProcessor: bool, defaultValue: string)
    requires GetAnnotation(annos).Some? && GetCurrency(lib, GetAnnotation(annos)).Success?
    requires GetPattern(GetAnnotation(annos)) != "" && !lib.validPattern(GetPattern(GetAnnotation(annos)))
    ensures var e := Failure(IllegalPattern(GetAnnotation(annos).value.pattern));
      && BuildOutputCellProcessor(lib, kind, annos, processor, ignoreValidationProcessor) == e
      && BuildInputCellProcessor(lib, kind, annos, processor) == e
      && GetParseValue(lib, kind, annos, defaultValue) == Failure(IllegalPattern(GetAnnotation(annos).value.pattern))
  {
  }

  /**
   * A bad bound is reported before any chain is built: the build fails with the parse error of
   * the minimum, or of the maximum when the minimum parses.
   */
  lemma BadBoundFails(lib: NumberLibrary, kind: NumberKind, annos: Option<seq<FieldAnnotation>>, processor: Chain)
    requires FormatterOf(lib, GetAnnotation(annos)).Success?
    ensures var c := GetAnnotation(annos);
      var f := FormatterOf(lib, c).value;
      var min := ParseNumber(lib, kind, GetMin(c), f);
      var max := ParseNumber(lib, kind, GetMax(c), f);
      var r := BuildInputCellProcessor(lib, kind, annos, processor);
      && (min.Failure? ==> r == Failure(min.error))
      && (min.Success? && max.Failure? ==> r == Failure(max.error))
      && (min.Success? && max.Success? ==> r.Success?)
  {
  }
}
