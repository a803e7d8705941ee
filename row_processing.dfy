/**
 * What the annotation bean readers (`AbstractCsvAnnotationBeanReader`, `CsvAnnotationBeanReader`)
 * do with one row and with a stream of rows, as functions.
 *
 * The tokenizer is replaced by a sequence of rows, a cell processor chain by a function from a
 * cell and the reading context to an outcome, and a bean by a map from field names to values.
 * The message converter, callbacks and record validators are uninterpreted functions supplied
 * with the reader.
 */
module RowProcessing {
  import opened Wrappers

  /** A cell: null, a string read from CSV, or a value a processor produced. */
  datatype Cell = NullCell | Text(s: string) | Value(typeName: string, repr: string)

  /** `CsvContext`: line, row and column number (columns start at 1) and the row source. */
  datatype Context = Context(lineNumber: nat, rowNumber: nat, columnNumber: nat, rowSource: seq<Cell>)

  /**
   * What a processor chain does to one cell: it produces a value, raises a
   * `SuperCsvCellProcessorException`, or raises some other `SuperCsvException`.
   */
  datatype CellOutcome = Produced(value: Cell) | CellProcessorError(message: string) | OtherCsvError(message: string)

  type Processor = (Cell, Context) -> CellOutcome

  /** A column error collected in a `SuperCsvRowException`. */
  datatype ColumnError = ColumnError(column: nat, message: string)

  /** An entry of `CsvBindingErrors`. */
  datatype BindingError = FieldError(field: string, message: string) | ObjectError(message: string)

  type Bean = map<string, Cell>

  /** The exceptions reading can raise. */
  datatype ReadError =
    | ColumnSizeMismatch(actual: nat, expected: nat)                       // SuperCsvNoMatchColumnSizeException
    | HeaderMismatch(column: nat)                                          // SuperCsvNoMatchHeaderException
    | ProcessingFailure(column: nat, message: string)                      // another SuperCsvException from a processor
    | BindingFailure(errors: seq<BindingError>, processingErrors: seq<ColumnError>)  // SuperCsvBindingException
    | NotFirstLine                                                         // header fetched after the first line
    | NullPointer                                                          // a null header cell, or no header row

  /**
   * The bean mapping: the field name of each column (null for unmapped columns), the reading
   * processor of each column (null for none), the defined header, and the header flags.
   */
  datatype Mapping = Mapping(
    nameMapping: seq<Option<string>>,
    processors: seq<Option<Processor>>,
    header: seq<string>,
    hasHeader: bool,
    validateHeader: bool)

  /** Every column has a name-mapping entry and a processor entry. */
  predicate WellFormed(m: Mapping) {
    |m.nameMapping| == |m.processors|
  }

  /** The bean under construction and its binding errors. */
  datatype RecordState = RecordState(bean: Bean, errors: seq<BindingError>)

  /** A read callback or record validator, as its effect on the record. */
  type RecordHook = (RecordState, Context) -> RecordState

  /**
   * The user-supplied parts of a reader: the fresh bean, the exception converter, the message
   * formatter, the pre-read callbacks, the record validators and the post-read callbacks.
   */
  datatype Hooks = Hooks(
    initialBean: Bean,
    convertRowErrors: seq<ColumnError> -> seq<BindingError>,
    formatException: ReadError -> seq<string>,
    formatError: BindingError -> string,
    preRead: seq<RecordHook>,
    validators: seq<RecordHook>,
    postRead: seq<RecordHook>)

  // ---------------------------------------------------------------------------------------------
  // Header validation

  /** The cell a defined header label should appear as. */
  function Label(defined: seq<string>, i: nat): Cell
    requires i < |defined|
  {
    Text(defined[i])
  }

  /**
   * The check of columns `i..` of a header of the right size: the first column that is not the
   * defined label raises a null pointer when it is null and a mismatch at its column otherwise.
   */
  function FirstHeaderMismatch(source: seq<Cell>, defined: seq<string>, i: nat): (r: Option<ReadError>)
    requires |source| == |defined| && i <= |source|
    ensures r.None? <==> forall j :: i <= j < |source| ==> source[j] == Label(defined, j)
    ensures r.Some? ==>
      exists k :: && i <= k < |source| && source[k] != Label(defined, k)
                  && (forall j :: i <= j < k ==> source[j] == Label(defined, j))
                  && r.value == (if source[k].NullCell? then NullPointer else HeaderMismatch(k + 1))
    decreases |source| - i
  {
    if i == |source| then None
    else if source[i].NullCell? then Some(NullPointer)
    else if source[i] != Label(defined, i) then Some(HeaderMismatch(i + 1))
    else FirstHeaderMismatch(source, defined, i + 1)
  }

  /** `validateHeader`: the size first, then the first differing column. */
  function HeaderCheck(source: seq<Cell>, defined: seq<string>): Option<ReadError> {
    if |source| != |defined| then Some(ColumnSizeMismatch(|source|, |defined|))
    else FirstHeaderMismatch(source, defined, 0)
  }

  /**
   * Headers of different length raise a column-size error; headers of equal length raise an
   * error at the first column that differs, and nothing when every label matches.
   */
  lemma HeaderCheckSpec(source: seq<Cell>, defined: seq<string>)
    ensures |source| != |defined| ==> HeaderCheck(source, defined) == Some(ColumnSizeMismatch(|source|, |defined|))
    ensures HeaderCheck(source, defined).None? <==>
      |source| == |defined| && forall j :: 0 <= j < |source| ==> source[j] == Label(defined, j)
    ensures forall k :: && |source| == |defined| && 0 <= k < |source| && source[k] != Label(defined, k)
                        && (forall j :: 0 <= j < k ==> source[j] == Label(defined, j)) ==>
      HeaderCheck(source, defined) == Some(if source[k].NullCell? then NullPointer else HeaderMismatch(k + 1))
  {
    forall k | && |source| == |defined| && 0 <= k < |source| && source[k] != Label(defined, k)
               && (forall j :: 0 <= j < k ==> source[j] == Label(defined, j))
      ensures HeaderCheck(source, defined) == Some(if source[k].NullCell? then NullPointer else HeaderMismatch(k + 1))
    {
      FirstHeaderMismatchAt(source, defined, 0, k);
    }
  }

  /** The check from `i` reports column `k` when `k` is the first column from `i` that differs. */
  lemma {:induction false} FirstHeaderMismatchAt(source: seq<Cell>, defined: seq<string>, i: nat, k: nat)
    requires |source| == |defined| && i <= k < |source| && source[k] != Label(defined, k)
    requires forall j :: i <= j < k ==> source[j] == Label(defined, j)
    ensures FirstHeaderMismatch(source, defined, i) == Some(if source[k].NullCell? then NullPointer else HeaderMismatch(k + 1))
    decreases k - i
  {
    if i < k {
      assert source[i] == Label(defined, i);
      FirstHeaderMismatchAt(source, defined, i + 1, k);
    }
  }

  // ---------------------------------------------------------------------------------------------
  // Cell processing

  /** What column `i` of a row yields: the raw cell without a processor, else the chain's outcome. */
  function ColumnOutcome(source: seq<Cell>, processors: seq<Option<Processor>>, ctx: Context, i: nat): CellOutcome
    requires i < |source| && i < |processors|
  {
    match processors[i]
    case None => Produced(source[i])
    case Some(p) => p(source[i], ctx.(columnNumber := i + 1))
  }

  /** The value stored for a column that did not abort: the output, or the raw cell after a cell error. */
  function StoredValue(source: seq<Cell>, processors: seq<Option<Processor>>, ctx: Context, i: nat): Cell
    requires i < |source| && i < |processors|
  {
    match ColumnOutcome(source, processors, ctx, i)
    case Produced(v) => v
    case _ => source[i]
  }

  /** The outcome of `executeCellProcessor`. */
  datatype Execution =
    | SizeMismatch(actual: nat, expected: nat)               // thrown before the destination is touched
    | Aborted(column: nat, message: string, partial: seq<Cell>)  // rethrown; the destination holds `partial`
    | Completed(values: seq<Cell>, errors: seq<ColumnError>) // a row exception follows when `errors` is not empty

  /** Columns `i..` of a row, with the values and errors of the columns before. */
  function ExecuteFrom(source: seq<Cell>, processors: seq<Option<Processor>>, ctx: Context, i: nat,
                       values: seq<Cell>, errors: seq<ColumnError>): Execution
    requires |source| == |processors| && i <= |source|
    decreases |source| - i
  {
    if i == |source| then Completed(values, errors)
    else
      match ColumnOutcome(source, processors, ctx, i)
      case Produced(v) => ExecuteFrom(source, processors, ctx, i + 1, values + [v], errors)
      case CellProcessorError(msg) =>
        ExecuteFrom(source, processors, ctx, i + 1, values + [source[i]], errors + [ColumnError(i + 1, msg)])
      case OtherCsvError(msg) => Aborted(i + 1, msg, values)
  }

  function Execute(source: seq<Cell>, processors: seq<Option<Processor>>, ctx: Context): Execution {
    if |source| != |processors| then SizeMismatch(|source|, |processors|)
    else ExecuteFrom(source, processors, ctx, 0, [], [])
  }

  /** The context after the loop: its column number is that of the last column, if there is one. */
  function ExecutedContext(ctx: Context, columns: nat): Context {
    if columns == 0 then ctx else ctx.(columnNumber := columns)
  }

  /** No column from `i` to `k` (excluded) raises an error other than a cell-processor error. */
  predicate NoAbortBetween(source: seq<Cell>, processors: seq<Option<Processor>>, ctx: Context, i: nat, k: nat)
    requires |source| == |processors| && k <= |source|
  {
    forall j :: i <= j < k ==> !ColumnOutcome(source, processors, ctx, j).OtherCsvError?
  }

  /** Which columns get stored, and what the destination holds, on completion or abort. */
  lemma {:induction false} ExecuteFromValues(source: seq<Cell>, processors: seq<Option<Processor>>, ctx: Context, i: nat,
                                             values: seq<Cell>, errors: seq<ColumnError>)
    requires |source| == |processors| && i <= |source|
    requires |values| == i
    requires forall j :: 0 <= j < i ==> values[j] == StoredValue(source, processors, ctx, j)
    ensures var r := ExecuteFrom(source, processors, ctx, i, values, errors);
      && (r.Completed? <==> NoAbortBetween(source, processors, ctx, i, |source|))
      && (r.Completed? ==>
            && |r.values| == |source|
            && (forall j :: 0 <= j < |source| ==> r.values[j] == StoredValue(source, processors, ctx, j)))
      && (r.Aborted? ==>
            && i < r.column <= |source|
            && ColumnOutcome(source, processors, ctx, r.column - 1) == OtherCsvError(r.message)
            && NoAbortBetween(source, processors, ctx, i, r.column - 1)
            && |r.partial| == r.column - 1
            && forall j :: 0 <= j < r.column - 1 ==> r.partial[j] == StoredValue(source, processors, ctx, j))
      && !r.SizeMismatch?
    decreases |source| - i
  {
    if i < |source| {
      match ColumnOutcome(source, processors, ctx, i)
      case Produced(v) =>
        ExecuteFromValues(source, processors, ctx, i + 1, values + [v], errors);
      case CellProcessorError(msg) =>
        ExecuteFromValues(source, processors, ctx, i + 1, values + [source[i]], errors + [ColumnError(i + 1, msg)]);
      case OtherCsvError(msg) =>
    }
  }

  /** On completion the column errors are exactly the columns whose processor failed. */
  lemma {:induction false} ExecuteFromErrors(source: seq<Cell>, processors: seq<Option<Processor>>, ctx: Context, i: nat,
                                             values: seq<Cell>, errors: seq<ColumnError>)
    requires |source| == |processors| && i <= |source|
    requires forall e :: e in errors ==>
      1 <= e.column <= i && ColumnOutcome(source, processors, ctx, e.column - 1).CellProcessorError?
    requires forall j :: 0 <= j < i && ColumnOutcome(source, processors, ctx, j).CellProcessorError? ==>
      ColumnError(j + 1, ColumnOutcome(source, processors, ctx, j).message) in errors
    ensures var r := ExecuteFrom(source, processors, ctx, i, values, errors);
      r.Completed? ==>
        && (forall e :: e in r.errors ==>
              1 <= e.column <= |source| && ColumnOutcome(source, processors, ctx, e.column - 1).CellProcessorError?)
        && (forall j :: 0 <= j < |source| && ColumnOutcome(source, processors, ctx, j).CellProcessorError? ==>
              ColumnError(j + 1, ColumnOutcome(source, processors, ctx, j).message) in r.errors)
    decreases |source| - i
  {
    if i < |source| {
      match ColumnOutcome(source, processors, ctx, i)
      case Produced(v) =>
        ExecuteFromErrors(source, processors, ctx, i + 1, values + [v], errors);
      case CellProcessorError(msg) =>
        ExecuteFromErrors(source, processors, ctx, i + 1, values + [source[i]], errors + [ColumnError(i + 1, msg)]);
      case OtherCsvError(msg) =>
    }
  }

  lemma ExecuteFromFacts(source: seq<Cell>, processors: seq<Option<Processor>>, ctx: Context, i: nat,
                         values: seq<Cell>, errors: seq<ColumnError>)
    requires |source| == |processors| && i <= |source|
    requires |values| == i
    requires forall j :: 0 <= j < i ==> values[j] == StoredValue(source, processors, ctx, j)
    requires forall e :: e in errors ==>
      1 <= e.column <= i && ColumnOutcome(source, processors, ctx, e.column - 1).CellProcessorError?
    requires forall j :: 0 <= j < i && ColumnOutcome(source, processors, ctx, j).CellProcessorError? ==>
      ColumnError(j + 1, ColumnOutcome(source, processors, ctx, j).message) in errors
    ensures var r := ExecuteFrom(source, processors, ctx, i, values, errors);
      && (r.Completed? <==> NoAbortBetween(source, processors, ctx, i, |source|))
      && (r.Completed? ==>
            && |r.values| == |source|
            && (forall j :: 0 <= j < |source| ==> r.values[j] == StoredValue(source, processors, ctx, j))
            && (forall e :: e in r.errors ==>
                  1 <= e.column <= |source| && ColumnOutcome(source, processors, ctx, e.column - 1).CellProcessorError?)
            && (forall j :: 0 <= j < |source| && ColumnOutcome(source, processors, ctx, j).CellProcessorError? ==>
                  ColumnError(j + 1, ColumnOutcome(source, processors, ctx, j).message) in r.errors))
      && (r.Aborted? ==>
            && i < r.column <= |source|
            && ColumnOutcome(source, processors, ctx, r.column - 1) == OtherCsvError(r.message)
            && NoAbortBetween(source, processors, ctx, i, r.column - 1)
            && |r.partial| == r.column - 1
            && forall j :: 0 <= j < r.column - 1 ==> r.partial[j] == StoredValue(source, processors, ctx, j))
      && !r.SizeMismatch?
  {
    ExecuteFromValues(source, processors, ctx, i, values, errors);
    ExecuteFromErrors(source, processors, ctx, i, values, errors);
  }

  /**
   * `executeCellProcessor`: a size mismatch is raised first. Otherwise, unless some column raises
   * an error other than a cell-processor error (the first such one aborts the row, the columns
   * before it stored), every column is stored, as the processor's output or as the raw cell when
   * there is no processor or it failed, and the column errors are exactly the failing columns.
   */
  lemma ExecuteSpec(source: seq<Cell>, processors: seq<Option<Processor>>, ctx: Context)
    ensures Execute(source, processors, ctx).SizeMismatch? <==> |source| != |processors|
    ensures |source| != |processors| ==> Execute(source, processors, ctx) == SizeMismatch(|source|, |processors|)
    ensures |source| == |processors| ==>
      var r := Execute(source, processors, ctx);
      && (r.Completed? <==> NoAbortBetween(source, processors, ctx, 0, |source|))
      && (r.Completed? ==>
            && |r.values| == |source|
            && (forall j :: 0 <= j < |source| ==> r.values[j] == StoredValue(source, processors, ctx, j))
            && (r.errors != [] <==> exists j :: 0 <= j < |source| && ColumnOutcome(source, processors, ctx, j).CellProcessorError?)
            && (forall e :: e in r.errors ==>
                  1 <= e.column <= |source| && ColumnOutcome(source, processors, ctx, e.column - 1).CellProcessorError?)
            && (forall j :: 0 <= j < |source| && ColumnOutcome(source, processors, ctx, j).CellProcessorError? ==>
                  ColumnError(j + 1, ColumnOutcome(source, processors, ctx, j).message) in r.errors))
      && (r.Aborted? ==>
            && 0 < r.column <= |source|
            && ColumnOutcome(source, processors, ctx, r.column - 1) == OtherCsvError(r.message)
            && NoAbortBetween(source, processors, ctx, 0, r.column - 1)
            && |r.partial| == r.column - 1
            && forall j :: 0 <= j < r.column - 1 ==> r.partial[j] == StoredValue(source, processors, ctx, j))
  {
    if |source| == |processors| {
      ExecuteFromFacts(source, processors, ctx, 0, [], []);
      var r := Execute(source, processors, ctx);
      if r.Completed? && r.errors != [] {
        var e := r.errors[0];
        assert e in r.errors;
      }
    }
  }

  // ---------------------------------------------------------------------------------------------
  // Bean population

  predicate HasFieldErrors(errors: seq<BindingError>, field: string) {
    exists i :: 0 <= i < |errors| && errors[i].FieldError? && errors[i].field == field
  }

  /** Column `i` sets field `f`: it is mapped to `f`, its value is not null and `f` has no errors. */
  predicate Sets(nameMapping: seq<Option<string>>, values: seq<Cell>, errors: seq<BindingError>, i: int, f: string) {
    && 0 <= i < |nameMapping| && i < |values|
    && nameMapping[i] == Some(f)
    && values[i] != NullCell
    && !HasFieldErrors(errors, f)
  }

  /** `populateBean` from column `i` on. */
  function PopulateFrom(nameMapping: seq<Option<string>>, values: seq<Cell>, errors: seq<BindingError>,
                        i: nat, bean: Bean): Bean
    requires |nameMapping| <= |values|
    decreases |nameMapping| - i
  {
    if i >= |nameMapping| then bean
    else
      var next := if Sets(nameMapping, values, errors, i, if nameMapping[i].Some? then nameMapping[i].value else "")
                  then bean[nameMapping[i].value := values[i]] else bean;
      PopulateFrom(nameMapping, values, errors, i + 1, next)
  }

  function Populate(nameMapping: seq<Option<string>>, values: seq<Cell>, errors: seq<BindingError>, bean: Bean): Bean
    requires |nameMapping| <= |values|
  {
    PopulateFrom(nameMapping, values, errors, 0, bean)
  }

  lemma {:induction false} PopulateFromFacts(nameMapping: seq<Option<string>>, values: seq<Cell>, errors: seq<BindingError>,
                                             i: nat, bean: Bean)
    requires |nameMapping| <= |values|
    ensures var r := PopulateFrom(nameMapping, values, errors, i, bean);
      && (forall f :: (forall k :: i <= k ==> !Sets(nameMapping, values, errors, k, f)) ==>
            (f in r <==> f in bean) && (f in bean ==> r[f] == bean[f]))
      && (forall f, k :: i <= k && Sets(nameMapping, values, errors, k, f)
                         && (forall k' :: k < k' ==> !Sets(nameMapping, values, errors, k', f)) ==>
            f in r && r[f] == values[k])
    decreases |nameMapping| - i
  {
    if i < |nameMapping| {
      var next := if Sets(nameMapping, values, errors, i, if nameMapping[i].Some? then nameMapping[i].value else "")
                  then bean[nameMapping[i].value := values[i]] else bean;
      PopulateFromFacts(nameMapping, values, errors, i + 1, next);
      var r := PopulateFrom(nameMapping, values, errors, i, bean);
      forall f, k | i <= k && Sets(nameMapping, values, errors, k, f)
                  && (forall k' :: k < k' ==> !Sets(nameMapping, values, errors, k', f))
        ensures f in r && r[f] == values[k]
      {
        if k == i {
          assert nameMapping[i] == Some(f);
          assert next == bean[f := values[i]];
          assert forall k' :: i + 1 <= k' ==> !Sets(nameMapping, values, errors, k', f);
          assert f in next;
        } else {
          assert i + 1 <= k;
        }
      }
    }
  }

  /**
   * `populateBean` leaves every field that no column sets as it was, and gives every field that a
   * column sets the value of the last such column. A column does not set anything when its field
   * name is null, its value is null, or its field already has binding errors.
   */
  lemma PopulateSpec(nameMapping: seq<Option<string>>, values: seq<Cell>, errors: seq<BindingError>, bean: Bean)
    requires |nameMapping| <= |values|
    ensures var r := Populate(nameMapping, values, errors, bean);
      && (forall f :: (forall k :: !Sets(nameMapping, values, errors, k, f)) ==>
            (f in r <==> f in bean) && (f in bean ==> r[f] == bean[f]))
      && (forall f, k :: Sets(nameMapping, values, errors, k, f)
                         && (forall k' :: k < k' ==> !Sets(nameMapping, values, errors, k', f)) ==>
            f in r && r[f] == values[k])
  {
    PopulateFromFacts(nameMapping, values, errors, 0, bean);
  }

  // ---------------------------------------------------------------------------------------------
  // One record

  /** Hooks `i..` applied in order. */
  function RunHooks(hs: seq<RecordHook>, ctx: Context, st: RecordState, i: nat): RecordState
    decreases |hs| - i
  {
    if i >= |hs| then st else RunHooks(hs, ctx, hs[i](st, ctx), i + 1)
  }

  /** The context `read()` creates for row `n`: line and row number `n`, column 1, the given row source. */
  function RowContext(n: nat, rowSource: seq<Cell>): (r: Context)
    ensures r.lineNumber == n && r.rowNumber == n && r.columnNumber == 1 && r.rowSource == rowSource
  {
    Context(n, n, 1, rowSource)
  }

  /** What reading one record leaves: its result, the new processed columns, the appended messages. */
  datatype RowOutcome = RowOutcome(result: Result<Bean, ReadError>, processed: seq<Cell>, messages: seq<string>)

  /** The binding phase of `read()` after the cells were processed without a fatal error. */
  function BindRecord(m: Mapping, h: Hooks, values: seq<Cell>, columnErrors: seq<ColumnError>, ctx: Context): RowOutcome
    requires |m.nameMapping| <= |values|
  {
    var initial := RecordState(h.initialBean, if columnErrors == [] then [] else h.convertRowErrors(columnErrors));
    var s1 := RunHooks(h.preRead, ctx, initial, 0);
    var s2 := s1.(bean := Populate(m.nameMapping, values, s1.errors, s1.bean));
    var s3 := RunHooks(h.validators, ctx, s2, 0);
    var s4 := RunHooks(h.postRead, ctx, s3, 0);
    if s4.errors == [] then RowOutcome(Success(s4.bean), values, [])
    else RowOutcome(Failure(BindingFailure(s4.errors, columnErrors)), values, FormatAll(h, s4.errors))
  }

  function FormatAll(h: Hooks, errors: seq<BindingError>): (r: seq<string>)
    ensures |r| == |errors|
    ensures forall i :: 0 <= i < |errors| ==> r[i] == h.formatError(errors[i])
  {
    if errors == [] then [] else [h.formatError(errors[0])] + FormatAll(h, errors[1..])
  }

  /** Formatting one more error appends its message. */
  lemma FormatAllAppend(h: Hooks, errors: seq<BindingError>, e: BindingError)
    ensures FormatAll(h, errors + [e]) == FormatAll(h, errors) + [h.formatError(e)]
  {
  }

  /** `read()` for a row that was read: cell processing, then the binding phase. */
  function ProcessRow(m: Mapping, h: Hooks, columns: seq<Cell>, previous: seq<Cell>, ctx: Context): RowOutcome
    requires WellFormed(m)
  {
    match Execute(columns, m.processors, ctx)
    case SizeMismatch(a, e) =>
      RowOutcome(Failure(ColumnSizeMismatch(a, e)), previous, h.formatException(ColumnSizeMismatch(a, e)))
    case Aborted(col, msg, partial) =>
      RowOutcome(Failure(ProcessingFailure(col, msg)), partial, h.formatException(ProcessingFailure(col, msg)))
    case Completed(values, errors) =>
      ExecuteSpec(columns, m.processors, ctx);
      BindRecord(m, h, values, errors, ExecutedContext(ctx, |columns|))
  }

  /**
   * The errors of one record. A column-size mismatch keeps the buffer, and an error other than a
   * cell-processor error leaves in it the columns stored before the failing one; both come with the
   * converted messages of that exception. Once every column has been processed the record either
   * succeeds with no message, or fails with a binding exception that carries the non-empty binding
   * errors and the row's column errors, and then their formatted messages are appended.
   */
  lemma ProcessRowSpec(m: Mapping, h: Hooks, columns: seq<Cell>, previous: seq<Cell>, ctx: Context)
    requires WellFormed(m)
    ensures var o := ProcessRow(m, h, columns, previous, ctx);
      && (|columns| != |m.processors| ==>
            o == RowOutcome(Failure(ColumnSizeMismatch(|columns|, |m.processors|)), previous,
                            h.formatException(ColumnSizeMismatch(|columns|, |m.processors|))))
      && (Execute(columns, m.processors, ctx).Aborted? ==>
            var e := Execute(columns, m.processors, ctx);
            o == RowOutcome(Failure(ProcessingFailure(e.column, e.message)), e.partial,
                            h.formatException(ProcessingFailure(e.column, e.message))))
      && (Execute(columns, m.processors, ctx).Completed? ==> o.result.Success? || o.result.error.BindingFailure?)
      && (o.result.Failure? && o.result.error.BindingFailure? ==>
            && o.result.error.errors != []
            && o.messages == FormatAll(h, o.result.error.errors)
            && Execute(columns, m.processors, ctx).Completed?
            && o.result.error.processingErrors == Execute(columns, m.processors, ctx).errors)
      && (o.result.Success? ==> o.messages == [] && Execute(columns, m.processors, ctx).Completed?)
      && (Execute(columns, m.processors, ctx).Completed? ==>
            o.processed == Execute(columns, m.processors, ctx).values && |o.processed| == |columns|)
      && (o.result.Failure? ==>
            o.result.error.ColumnSizeMismatch? || o.result.error.ProcessingFailure? || o.result.error.BindingFailure?)
  {
    ExecuteSpec(columns, m.processors, ctx);
  }

  // ---------------------------------------------------------------------------------------------
  // The reader's state and a stream of rows

  /** The reader's state: rows consumed, the processed-columns buffer, the error messages. */
  datatype ReaderState = ReaderState(rowNumber: nat, processed: seq<Cell>, messages: seq<string>)

  datatype Step<T> = Step(result: Result<T, ReadError>, state: ReaderState)

  /** Processing the raw cells `columns` of the next row in context `ctx`, and the state it leaves. */
  function ReadRecord(m: Mapping, h: Hooks, columns: seq<Cell>, st: ReaderState, ctx: Context): (r: Step<Option<Bean>>)
    requires WellFormed(m)
    ensures r.state.rowNumber == ctx.rowNumber && r.result != Success(None)
    ensures |st.messages| <= |r.state.messages| && r.state.messages[..|st.messages|] == st.messages
  {
    var o := ProcessRow(m, h, columns, st.processed, ctx);
    var res := match o.result { case Success(b) => Success(Some(b)) case Failure(e) => Failure(e) };
    assert (st.messages + o.messages)[..|st.messages|] == st.messages;
    Step(res, ReaderState(ctx.rowNumber, o.processed, st.messages + o.messages))
  }

  /**
   * `read()`: end of input gives null; otherwise one row is consumed and processed. The row source
   * of its context is the processed-columns buffer as it stands before the row is processed: the
   * processed columns of the previous record.
   */
  function ReadStep(rows: seq<seq<Cell>>, m: Mapping, h: Hooks, st: ReaderState): (r: Step<Option<Bean>>)
    requires WellFormed(m)
    ensures st.rowNumber < |rows| ==> r.state.rowNumber == st.rowNumber + 1
    ensures st.rowNumber >= |rows| ==> r == Step(Success(None), st)
    ensures r.result == Success(None) <==> st.rowNumber >= |rows|
    ensures |st.messages| <= |r.state.messages| && r.state.messages[..|st.messages|] == st.messages
  {
    if st.rowNumber >= |rows| then Step(Success(None), st)
    else ReadRecord(m, h, rows[st.rowNumber], st, RowContext(st.rowNumber + 1, st.processed))
  }

  /** `read()` as its row source is evidently meant: the context carries the row's own raw cells. */
  function ReadStepIntended(rows: seq<seq<Cell>>, m: Mapping, h: Hooks, st: ReaderState): (r: Step<Option<Bean>>)
    requires WellFormed(m)
    ensures st.rowNumber < |rows| ==> r.state.rowNumber == st.rowNumber + 1
    ensures st.rowNumber >= |rows| ==> r == Step(Success(None), st)
    ensures r.result == Success(None) <==> st.rowNumber >= |rows|
    ensures |st.messages| <= |r.state.messages| && r.state.messages[..|st.messages|] == st.messages
  {
    if st.rowNumber >= |rows| then Step(Success(None), st)
    else ReadRecord(m, h, rows[st.rowNumber], st, RowContext(st.rowNumber + 1, rows[st.rowNumber]))
  }

  /** A processor whose outcome does not depend on the row source of its context. */
  ghost predicate ProcessorIgnoresRowSource(p: Processor) {
    forall c, l, n, k, src :: p(c, Context(l, n, k, src)) == p(c, Context(l, n, k, []))
  }

  /** A callback or validator whose effect does not depend on the row source of its context. */
  ghost predicate HookIgnoresRowSource(hk: RecordHook) {
    forall st, l, n, k, src :: hk(st, Context(l, n, k, src)) == hk(st, Context(l, n, k, []))
  }

  /** No processor, callback or validator of the reader looks at the row source. */
  ghost predicate RowSourceUnused(m: Mapping, h: Hooks) {
    && (forall i :: 0 <= i < |m.processors| && m.processors[i].Some? ==> ProcessorIgnoresRowSource(m.processors[i].value))
    && (forall i :: 0 <= i < |h.preRead| ==> HookIgnoresRowSource(h.preRead[i]))
    && (forall i :: 0 <= i < |h.validators| ==> HookIgnoresRowSource(h.validators[i]))
    && (forall i :: 0 <= i < |h.postRead| ==> HookIgnoresRowSource(h.postRead[i]))
  }

  lemma {:induction false} ExecuteFromIgnoresRowSource(source: seq<Cell>, processors: seq<Option<Processor>>,
                                                       ctx: Context, src: seq<Cell>, i: nat,
                                                       values: seq<Cell>, errors: seq<ColumnError>)
    requires |source| == |processors| && i <= |source|
    requires forall j :: 0 <= j < |processors| && processors[j].Some? ==> ProcessorIgnoresRowSource(processors[j].value)
    ensures ExecuteFrom(source, processors, ctx, i, values, errors)
         == ExecuteFrom(source, processors, ctx.(rowSource := src), i, values, errors)
    decreases |source| - i
  {
    if i < |source| {
      var ctx' := ctx.(rowSource := src);
      if processors[i].Some? {
        var p := processors[i].value;
        assert ProcessorIgnoresRowSource(p);
        assert p(source[i], Context(ctx.lineNumber, ctx.rowNumber, i + 1, ctx.rowSource))
            == p(source[i], Context(ctx.lineNumber, ctx.rowNumber, i + 1, []));
        assert p(source[i], Context(ctx.lineNumber, ctx.rowNumber, i + 1, src))
            == p(source[i], Context(ctx.lineNumber, ctx.rowNumber, i + 1, []));
      }
      assert ColumnOutcome(source, processors, ctx, i) == ColumnOutcome(source, processors, ctx', i);
      match ColumnOutcome(source, processors, ctx, i)
      case Produced(v) =>
        ExecuteFromIgnoresRowSource(source, processors, ctx, src, i + 1, values + [v], errors);
      case CellProcessorError(msg) =>
        ExecuteFromIgnoresRowSource(source, processors, ctx, src, i + 1, values + [source[i]], errors + [ColumnError(i + 1, msg)]);
      case OtherCsvError(msg) =>
    }
  }

  lemma {:induction false} RunHooksIgnoresRowSource(hs: seq<RecordHook>, ctx: Context, src: seq<Cell>,
                                                    st: RecordState, i: nat)
    requires forall j :: 0 <= j < |hs| ==> HookIgnoresRowSource(hs[j])
    ensures RunHooks(hs, ctx, st, i) == RunHooks(hs, ctx.(rowSource := src), st, i)
    decreases |hs| - i
  {
    if i < |hs| {
      assert HookIgnoresRowSource(hs[i]);
      assert hs[i](st, Context(ctx.lineNumber, ctx.rowNumber, ctx.columnNumber, ctx.rowSource))
          == hs[i](st, Context(ctx.lineNumber, ctx.rowNumber, ctx.columnNumber, []));
      assert hs[i](st, Context(ctx.lineNumber, ctx.rowNumber, ctx.columnNumber, src))
          == hs[i](st, Context(ctx.lineNumber, ctx.rowNumber, ctx.columnNumber, []));
      RunHooksIgnoresRowSource(hs, ctx, src, hs[i](st, ctx), i + 1);
    }
  }

  lemma BindRecordIgnoresRowSource(m: Mapping, h: Hooks, values: seq<Cell>, columnErrors: seq<ColumnError>,
                                   ctx: Context, src: seq<Cell>)
    requires |m.nameMapping| <= |values| && RowSourceUnused(m, h)
    ensures BindRecord(m, h, values, columnErrors, ctx) == BindRecord(m, h, values, columnErrors, ctx.(rowSource := src))
  {
    var initial := RecordState(h.initialBean, if columnErrors == [] then [] else h.convertRowErrors(columnErrors));
    RunHooksIgnoresRowSource(h.preRead, ctx, src, initial, 0);
    var s1 := RunHooks(h.preRead, ctx, initial, 0);
    var s2 := s1.(bean := Populate(m.nameMapping, values, s1.errors, s1.bean));
    RunHooksIgnoresRowSource(h.validators, ctx, src, s2, 0);
    RunHooksIgnoresRowSource(h.postRead, ctx, src, RunHooks(h.validators, ctx, s2, 0), 0);
  }

  /** A record whose processors and hooks ignore the row source comes out the same whatever it is. */
  lemma ProcessRowIgnoresRowSource(m: Mapping, h: Hooks, columns: seq<Cell>, previous: seq<Cell>,
                                   ctx: Context, src: seq<Cell>)
    requires WellFormed(m) && RowSourceUnused(m, h)
    ensures ProcessRow(m, h, columns, previous, ctx) == ProcessRow(m, h, columns, previous, ctx.(rowSource := src))
  {
    var ctx' := ctx.(rowSource := src);
    if |columns| == |m.processors| {
      ExecuteFromIgnoresRowSource(columns, m.processors, ctx, src, 0, [], []);
      assert Execute(columns, m.processors, ctx) == Execute(columns, m.processors, ctx');
      ExecuteSpec(columns, m.processors, ctx);
      var after := ExecutedContext(ctx, |columns|);
      assert ExecutedContext(ctx', |columns|) == after.(rowSource := src);
      match Execute(columns, m.processors, ctx)
      case Completed(values, errors) =>
        BindRecordIgnoresRowSource(m, h, values, errors, after, src);
      case _ =>
    }
  }

  /** Where nothing reads the row source, `read()` as written and as intended agree. */
  lemma ReadStepAgreesWhenRowSourceUnused(rows: seq<seq<Cell>>, m: Mapping, h: Hooks, st: ReaderState)
    requires WellFormed(m) && RowSourceUnused(m, h)
    ensures ReadStep(rows, m, h, st) == ReadStepIntended(rows, m, h, st)
  {
    if st.rowNumber < |rows| {
      var columns := rows[st.rowNumber];
      var ctx := RowContext(st.rowNumber + 1, st.processed);
      ProcessRowIgnoresRowSource(m, h, columns, st.processed, ctx, columns);
      assert ctx.(rowSource := columns) == RowContext(st.rowNumber + 1, columns);
      assert ReadRecord(m, h, columns, st, ctx) == ReadRecord(m, h, columns, st, RowContext(st.rowNumber + 1, columns));
    }
  }

  /** A processor that raises a non-cell error when it finds no row source. */
  function NeedsRowSource(c: Cell, ctx: Context): CellOutcome {
    if ctx.rowSource == [] then OtherCsvError("no row source") else Produced(c)
  }

  /**
   * With a processor that reads the row source, the first record of a one-cell file fails as
   * written, because its row source is the empty buffer, and is read as intended.
   */
  lemma RowSourceStaleOnFirstRecord()
    ensures var m := Mapping([Some("a")], [Some(NeedsRowSource)], [], false, false);
      var h := Hooks(map[], (es: seq<ColumnError>) => [], (e: ReadError) => [], (e: BindingError) => "", [], [], []);
      var st := ReaderState(0, [], []);
      && ReadStep([[Text("1")]], m, h, st).result == Failure(ProcessingFailure(1, "no row source"))
      && ReadStepIntended([[Text("1")]], m, h, st).result == Success(Some(map["a" := Text("1")]))
  {
  }

  /** The outcome of reading every remaining row, each read from the state the previous one left. */
  function Trace(rows: seq<seq<Cell>>, m: Mapping, h: Hooks, st: ReaderState): seq<Result<Bean, ReadError>>
    requires WellFormed(m)
    decreases |rows| - st.rowNumber
  {
    if st.rowNumber >= |rows| then []
    else
      var s := ReadStep(rows, m, h, st);
      [match s.result { case Success(b) => Success(b.value) case Failure(e) => Failure(e) }] + Trace(rows, m, h, s.state)
  }

  /** The beans of the successful records, in order. */
  function Successes(rs: seq<Result<Bean, ReadError>>): (r: seq<Bean>)
    ensures |r| <= |rs|
    ensures forall b :: b in r ==> Success(b) in rs
  {
    if rs == [] then []
    else (if rs[0].Success? then [rs[0].value] else []) + Successes(rs[1..])
  }

  /** The errors `readAll(true)` skips. */
  predicate Recoverable(e: ReadError) {
    e.ColumnSizeMismatch? || e.BindingFailure?
  }

  /** The first failure of a trace that `readAll` with this flag does not skip, if any. */
  function FirstFatal(rs: seq<Result<Bean, ReadError>>, continueOnError: bool): (r: Option<ReadError>)
    ensures r.None? <==> forall i :: 0 <= i < |rs| && rs[i].Failure? ==> continueOnError && Recoverable(rs[i].error)
    ensures r.Some? ==> Failure(r.value) in rs && !(continueOnError && Recoverable(r.value))
  {
    if rs == [] then None
    else if rs[0].Failure? && !(continueOnError && Recoverable(rs[0].error)) then Some(rs[0].error)
    else
      var rest := FirstFatal(rs[1..], continueOnError);
      assert forall i :: 1 <= i < |rs| ==> rs[1..][i - 1] == rs[i];
      rest
  }

  /** The record loop of `readAll`. */
  function ReadAllFrom(rows: seq<seq<Cell>>, m: Mapping, h: Hooks, st: ReaderState, continueOnError: bool,
                       acc: seq<Bean>): Step<seq<Bean>>
    requires WellFormed(m)
    decreases |rows| - st.rowNumber
  {
    var s := ReadStep(rows, m, h, st);
    match s.result
    case Success(None) => Step(Success(acc), s.state)
    case Success(Some(b)) => ReadAllFrom(rows, m, h, s.state, continueOnError, acc + [b])
    case Failure(e) =>
      if continueOnError && Recoverable(e) then ReadAllFrom(rows, m, h, s.state, continueOnError, acc)
      else Step(Failure(e), s.state)
  }

  lemma {:induction false} ReadAllFromTrace(rows: seq<seq<Cell>>, m: Mapping, h: Hooks, st: ReaderState,
                                            continueOnError: bool, acc: seq<Bean>)
    requires WellFormed(m)
    ensures var t := Trace(rows, m, h, st);
      ReadAllFrom(rows, m, h, st, continueOnError, acc).result ==
        match FirstFatal(t, continueOnError)
        case None => Success(acc + Successes(t))
        case Some(e) => Failure(e)
    decreases |rows| - st.rowNumber
  {
    if st.rowNumber < |rows| {
      var s := ReadStep(rows, m, h, st);
      var t := Trace(rows, m, h, st);
      var rest := Trace(rows, m, h, s.state);
      assert t[1..] == rest;
      ReadAllFromTrace(rows, m, h, s.state, continueOnError,
                       if s.result.Success? then acc + [s.result.value.value] else acc);
      assert t == [t[0]] + rest;
      if s.result.Success? {
        assert Successes(t) == [s.result.value.value] + Successes(rest);
        assert acc + [s.result.value.value] + Successes(rest) == acc + Successes(t);
      } else {
        assert Successes(t) == Successes(rest);
      }
    } else {
      assert acc + [] == acc;
    }
  }

  /**
   * The record loop of `readAll` returns, in input order, the beans of the successful records
   * when no failure of the trace is fatal, and otherwise the first fatal failure: with
   * `continueOnError` only errors other than a column-size or binding error are fatal, without it
   * every error is.
   */
  lemma ReadAllFromSpec(rows: seq<seq<Cell>>, m: Mapping, h: Hooks, st: ReaderState, continueOnError: bool)
    requires WellFormed(m)
    ensures var t := Trace(rows, m, h, st);
      var r := ReadAllFrom(rows, m, h, st, continueOnError, []).result;
      && ((forall i :: 0 <= i < |t| && t[i].Failure? ==> continueOnError && Recoverable(t[i].error)) ==>
            r == Success(Successes(t)))
      && (!continueOnError && (exists i :: 0 <= i < |t| && t[i].Failure?) ==>
            r.Failure? && r.error == FirstFatal(t, false).value)
      && (r.Failure? ==> Failure(r.error) in t && !(continueOnError && Recoverable(r.error)))
  {
    ReadAllFromTrace(rows, m, h, st, continueOnError, []);
    assert [] + Successes(Trace(rows, m, h, st)) == Successes(Trace(rows, m, h, st));
  }

  /** Reading keeps the messages so far at the front: `errorMessages` only grows. */
  lemma {:induction false} ReadAllFromKeepsMessages(rows: seq<seq<Cell>>, m: Mapping, h: Hooks, st: ReaderState,
                                                    continueOnError: bool, acc: seq<Bean>)
    requires WellFormed(m)
    ensures var r := ReadAllFrom(rows, m, h, st, continueOnError, acc).state;
      |st.messages| <= |r.messages| && r.messages[..|st.messages|] == st.messages
    decreases |rows| - st.rowNumber
  {
    var s := ReadStep(rows, m, h, st);
    if (s.result.Success? && s.result.value.Some?) || (s.result.Failure? && continueOnError && Recoverable(s.result.error)) {
      ReadAllFromKeepsMessages(rows, m, h, s.state, continueOnError,
                               if s.result.Success? then acc + [s.result.value.value] else acc);
      var r := ReadAllFrom(rows, m, h, st, continueOnError, acc).state;
      assert r.messages[..|s.state.messages|][..|st.messages|] == r.messages[..|st.messages|];
    }
  }

  // ---------------------------------------------------------------------------------------------
  // Header row and readAll (CsvAnnotationBeanReader)

  /**
   * `getHeader(firstLineCheck)`: an error when a line was already read and the check is asked
   * for; otherwise the next row is consumed (null at end of input) and, when the mapping asks for
   * header validation, checked against the defined header. Column-size and header mismatches
   * append their converted messages; a null header is a null-pointer error.
   */
  function GetHeaderStep(rows: seq<seq<Cell>>, m: Mapping, h: Hooks, st: ReaderState, firstLineCheck: bool)
    : (r: Step<Option<seq<Cell>>>)
    ensures r.state.processed == st.processed
    ensures |st.messages| <= |r.state.messages| && r.state.messages[..|st.messages|] == st.messages
    ensures r.result.Failure? && (r.result.error.ColumnSizeMismatch? || r.result.error.HeaderMismatch?) ==>
      m.validateHeader && r.state.messages == st.messages + h.formatException(r.result.error)
    ensures !m.validateHeader && !(firstLineCheck && st.rowNumber != 0) ==> r.result.Success?
  {
    if firstLineCheck && st.rowNumber != 0 then Step(Failure(NotFirstLine), st)
    else
      var header := if st.rowNumber < |rows| then Some(rows[st.rowNumber]) else None;
      var st1 := if st.rowNumber < |rows| then st.(rowNumber := st.rowNumber + 1) else st;
      if !m.validateHeader then Step(Success(header), st1)
      else if header.None? then Step(Failure(NullPointer), st1)
      else
        match HeaderCheck(header.value, m.header)
        case None => Step(Success(header), st1)
        case Some(e) =>
          if e.ColumnSizeMismatch? || e.HeaderMismatch? then
            assert (st1.messages + h.formatException(e))[..|st.messages|] == st.messages;
            Step(Failure(e), st1.(messages := st1.messages + h.formatException(e)))
          else Step(Failure(e), st1)
  }

  /** `readAll(continueOnError)`: the header row when the mapping declares one, then the records. */
  function ReadAll(rows: seq<seq<Cell>>, m: Mapping, h: Hooks, st: ReaderState, continueOnError: bool): Step<seq<Bean>>
    requires WellFormed(m)
  {
    if m.hasHeader then
      var hs := GetHeaderStep(rows, m, h, st, true);
      if hs.result.Failure? && !(continueOnError && (hs.result.error.ColumnSizeMismatch? || hs.result.error.HeaderMismatch?))
      then Step(Failure(hs.result.error), hs.state)
      else ReadAllFrom(rows, m, h, hs.state, continueOnError, [])
    else ReadAllFrom(rows, m, h, st, continueOnError, [])
  }

  /**
   * The header row is consumed only when the mapping declares one. A header row of the wrong size
   * or with a wrong label stops `readAll` unless errors are to be skipped, and then reading goes on
   * after it; every other header failure (a line already read, no header row, a null header cell)
   * stops `readAll` whatever the flag.
   */
  lemma ReadAllHeaderSpec(rows: seq<seq<Cell>>, m: Mapping, h: Hooks, st: ReaderState, continueOnError: bool)
    requires WellFormed(m)
    ensures !m.hasHeader ==> ReadAll(rows, m, h, st, continueOnError) == ReadAllFrom(rows, m, h, st, continueOnError, [])
    ensures m.hasHeader && st.rowNumber == 0 && 0 < |rows| && m.validateHeader && HeaderCheck(rows[0], m.header).Some?
            && (HeaderCheck(rows[0], m.header).value.HeaderMismatch? || HeaderCheck(rows[0], m.header).value.ColumnSizeMismatch?) ==>
      var err := HeaderCheck(rows[0], m.header).value;
      var st1 := ReaderState(1, st.processed, st.messages + h.formatException(err));
      ReadAll(rows, m, h, st, continueOnError) ==
        if continueOnError then ReadAllFrom(rows, m, h, st1, true, []) else Step(Failure(err), st1)
    ensures m.hasHeader && st.rowNumber == 0 && 0 < |rows| && m.validateHeader && HeaderCheck(rows[0], m.header) == Some(NullPointer) ==>
      ReadAll(rows, m, h, st, continueOnError) == Step(Failure(NullPointer), st.(rowNumber := 1))
    ensures m.hasHeader && st.rowNumber == 0 && 0 < |rows| && (!m.validateHeader || HeaderCheck(rows[0], m.header).None?) ==>
      ReadAll(rows, m, h, st, continueOnError) == ReadAllFrom(rows, m, h, st.(rowNumber := 1), continueOnError, [])
    ensures m.hasHeader && st.rowNumber != 0 ==> ReadAll(rows, m, h, st, continueOnError) == Step(Failure(NotFirstLine), st)
    ensures m.hasHeader && st.rowNumber == 0 && |rows| == 0 && m.validateHeader ==>
      ReadAll(rows, m, h, st, continueOnError) == Step(Failure(NullPointer), st)
    ensures m.hasHeader && GetHeaderStep(rows, m, h, st, true).result.Failure?
            && !(GetHeaderStep(rows, m, h, st, true).result.error.ColumnSizeMismatch?
                 || GetHeaderStep(rows, m, h, st, true).result.error.HeaderMismatch?) ==>
      ReadAll(rows, m, h, st, continueOnError).result.Failure?
  {
  }

  /** `readAll` keeps the messages so far at the front: `errorMessages` only grows. */
  lemma ReadAllKeepsMessages(rows: seq<seq<Cell>>, m: Mapping, h: Hooks, st: ReaderState, continueOnError: bool)
    requires WellFormed(m)
    ensures var r := ReadAll(rows, m, h, st, continueOnError).state;
      |st.messages| <= |r.messages| && r.messages[..|st.messages|] == st.messages
  {
    if m.hasHeader {
      var hs := GetHeaderStep(rows, m, h, st, true);
      ReadAllFromKeepsMessages(rows, m, h, hs.state, continueOnError, []);
      var r := ReadAll(rows, m, h, st, continueOnError).state;
      assert r.messages[..|hs.state.messages|][..|st.messages|] == r.messages[..|st.messages|];
    } else {
      ReadAllFromKeepsMessages(rows, m, h, st, continueOnError, []);
    }
  }
}
