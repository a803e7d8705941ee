/**
 * Model of `AbstractCsvAnnotationBeanReader` (package com.github.mygreen.supercsv.io): a reader
 * over a sequence of rows that keeps a reusable buffer of processed columns and a growing list of
 * error messages, and the look-ahead iterator behind `lines()`.
 *
 * Every method is proved against the functions of `RowProcessing`.
 */
module AbstractBeanReader {
  import opened Wrappers
  import opened RowProcessing

  /** `CsvReadStatus`. */
  datatype ReadStatus = SUCCESS | EOF | ERROR

  class AbstractCsvAnnotationBeanReader {
    /** The rows the tokenizer yields, each a list of raw cells. */
    const rows: seq<seq<Cell>>
    const mapping: Mapping
    const hooks: Hooks

    /** The rows read so far, which is also the number of the last row read. */
    var rowNumber: nat
    var processedColumns: seq<Cell>
    var errorMessages: seq<string>

    function State(): ReaderState
      reads this
    {
      ReaderState(rowNumber, processedColumns, errorMessages)
    }

    constructor(rows: seq<seq<Cell>>, mapping: Mapping, hooks: Hooks)
      ensures this.rows == rows && this.mapping == mapping && this.hooks == hooks
      ensures State() == ReaderState(0, [], [])
    {
      this.rows := rows;
      this.mapping := mapping;
      this.hooks := hooks;
      rowNumber := 0;
      processedColumns := [];
      errorMessages := [];
    }

    /** The tokenizer's `readRow`: the next row, if any, and the row count. */
    method ReadRow() returns (columns: Option<seq<Cell>>)
      modifies this`rowNumber
      ensures old(rowNumber) < |rows| ==> columns == Some(rows[old(rowNumber)]) && rowNumber == old(rowNumber) + 1
      ensures old(rowNumber) >= |rows| ==> columns.None? && rowNumber == old(rowNumber)
    {
      if rowNumber < |rows| {
        columns := Some(rows[rowNumber]);
        rowNumber := rowNumber + 1;
      } else {
        columns := None;
      }
    }

    /** `validateHeader`: the size first, then the first column that differs. */
    method ValidateHeader(sourceHeader: seq<Cell>, definedHeader: seq<string>) returns (r: Option<ReadError>)
      ensures r == HeaderCheck(sourceHeader, definedHeader)
    {
      if |sourceHeader| != |definedHeader| {
        return Some(ColumnSizeMismatch(|sourceHeader|, |definedHeader|));
      }
      var i := 0;
      while i < |sourceHeader|
        invariant 0 <= i <= |sourceHeader|
        invariant HeaderCheck(sourceHeader, definedHeader) == FirstHeaderMismatch(sourceHeader, definedHeader, i)
      {
        if sourceHeader[i].NullCell? {
          return Some(NullPointer);
        }
        if sourceHeader[i] != Text(definedHeader[i]) {
          return Some(HeaderMismatch(i + 1));
        }
        i := i + 1;
      }
      return None;
    }

    /**
     * `executeCellProcessor`: the size check comes before the buffer is cleared; each column's
     * output, or its raw cell, is appended; the context's column number follows the loop.
     */
    method ExecuteCellProcessor(source: seq<Cell>, processors: seq<Option<Processor>>, context: Context)
      returns (r: Execution, after: Context)
      modifies this`processedColumns
      ensures r == Execute(source, processors, context)
      ensures r.SizeMismatch? ==> processedColumns == old(processedColumns)
      ensures r.Aborted? ==> processedColumns == r.partial
      ensures r.Completed? ==> processedColumns == r.values && after == ExecutedContext(context, |source|)
    {
      after := context;
      if |source| != |processors| {
        return SizeMismatch(|source|, |processors|), after;
      }
      processedColumns := [];
      var errors: seq<ColumnError> := [];
      var i := 0;
      while i < |source|
        invariant 0 <= i <= |source|
        invariant Execute(source, processors, context) == ExecuteFrom(source, processors, context, i, processedColumns, errors)
        invariant after == ExecutedContext(context, i)
      {
        after := after.(columnNumber := i + 1);
        var outcome := if processors[i].None? then Produced(source[i]) else processors[i].value(source[i], after);
        assert outcome == ColumnOutcome(source, processors, context, i);
        match outcome {
          case Produced(v) =>
            processedColumns := processedColumns + [v];
          case CellProcessorError(msg) =>
            errors := errors + [ColumnError(i + 1, msg)];
            processedColumns := processedColumns + [source[i]];
          case OtherCsvError(msg) =>
            return Aborted(i + 1, msg, processedColumns), after;
        }
        i := i + 1;
      }
      return Completed(processedColumns, errors), after;
    }

    /** `populateBean`: the bean after setting each column that may be set. */
    method PopulateBean(bean: Bean, nameMapping: seq<Option<string>>, errors: seq<BindingError>) returns (result: Bean)
      requires |nameMapping| <= |processedColumns|
      ensures result == Populate(nameMapping, processedColumns, errors, bean)
    {
      result := bean;
      var i := 0;
      while i < |nameMapping|
        invariant 0 <= i <= |nameMapping|
        invariant Populate(nameMapping, processedColumns, errors, bean) == PopulateFrom(nameMapping, processedColumns, errors, i, result)
      {
        var fieldValue := processedColumns[i];
        if nameMapping[i].Some? && fieldValue != NullCell && !HasFieldErrors(errors, nameMapping[i].value) {
          result := result[nameMapping[i].value := fieldValue];
        }
        i := i + 1;
      }
    }

    /** Callbacks or validators, run in order. */
    method RunHookList(hs: seq<RecordHook>, context: Context, st: RecordState) returns (r: RecordState)
      ensures r == RunHooks(hs, context, st, 0)
    {
      r := st;
      var i := 0;
      while i < |hs|
        invariant 0 <= i <= |hs|
        invariant RunHooks(hs, context, st, 0) == RunHooks(hs, context, r, i)
      {
        r := hs[i](r, context);
        i := i + 1;
      }
    }

    /**
     * `processErrors`: with binding errors, their formatted messages are appended and a binding
     * exception carrying them and the row's column errors is raised.
     */
    method ProcessErrors(errors: seq<BindingError>, columnErrors: seq<ColumnError>) returns (r: Option<ReadError>)
      modifies this`errorMessages
      ensures errors == [] ==> r.None? && errorMessages == old(errorMessages)
      ensures errors != [] ==>
        r == Some(BindingFailure(errors, columnErrors)) && errorMessages == old(errorMessages) + FormatAll(hooks, errors)
    {
      if errors == [] {
        return None;
      }
      var messages: seq<string> := [];
      var i := 0;
      while i < |errors|
        invariant 0 <= i <= |errors|
        invariant messages == FormatAll(hooks, errors[..i])
        invariant errorMessages == old(errorMessages)
      {
        FormatAllAppend(hooks, errors[..i], errors[i]);
        assert errors[..i + 1] == errors[..i] + [errors[i]];
        messages := messages + [hooks.formatError(errors[i])];
        i := i + 1;
      }
      assert errors[..|errors|] == errors;
      errorMessages := errorMessages + messages;
      return Some(BindingFailure(errors, columnErrors));
    }

    /** `read()`: null at end of input, else the bean of the next row or the error it raises. */
    method Read() returns (r: Result<Option<Bean>, ReadError>)
      requires WellFormed(mapping)
      modifies this
      ensures Step(r, State()) == ReadStep(rows, mapping, hooks, old(State()))
    {
      var columns := ReadRow();
      if columns.None? {
        return Success(None);
      }
      var row := columns.value;
      var context := RowContext(rowNumber, processedColumns);
      var exec, after := ExecuteCellProcessor(row, mapping.processors, context);
      ExecuteSpec(row, mapping.processors, context);
      match exec {
        case SizeMismatch(a, e) =>
          errorMessages := errorMessages + hooks.formatException(ColumnSizeMismatch(a, e));
          return Failure(ColumnSizeMismatch(a, e));
        case Aborted(col, msg, _) =>
          errorMessages := errorMessages + hooks.formatException(ProcessingFailure(col, msg));
          return Failure(ProcessingFailure(col, msg));
        case Completed(values, columnErrors) =>
          var st := RecordState(hooks.initialBean, if columnErrors == [] then [] else hooks.convertRowErrors(columnErrors));
          st := RunHookList(hooks.preRead, after, st);
          var bean := PopulateBean(st.bean, mapping.nameMapping, st.errors);
          st := st.(bean := bean);
          st := RunHookList(hooks.validators, after, st);
          st := RunHookList(hooks.postRead, after, st);
          var failure := ProcessErrors(st.errors, columnErrors);
          if failure.Some? {
            return Failure(failure.value);
          }
          return Success(Some(st.bean));
      }
    }

    /**
     * `read(successHandler, errorHandler)`: the status, the bean handed to the success handler
     * and the error handed to the error handler.
     */
    method ReadWith() returns (status: ReadStatus, delivered: Option<Bean>, reported: Option<ReadError>)
      requires WellFormed(mapping)
      modifies this
      ensures var s := ReadStep(rows, mapping, hooks, old(State()));
        && State() == s.state
        && (s.result == Success(None) ==> status == EOF && delivered.None? && reported.None?)
        && (s.result.Success? && s.result.value.Some? ==> status == SUCCESS && delivered == s.result.value && reported.None?)
        && (s.result.Failure? ==> status == ERROR && delivered.None? && reported == Some(s.result.error))
    {
      var r := Read();
      match r {
        case Success(None) =>
          return EOF, None, None;
        case Success(Some(bean)) =>
          return SUCCESS, Some(bean), None;
        case Failure(e) =>
          return ERROR, None, Some(e);
      }
    }
  }

  /** What `next()` on the `lines()` iterator can raise. */
  datatype IteratorError = NoSuchElement | ReadFailed(error: ReadError)

  /** The iterator behind `lines()`, with its one-record look-ahead. */
  class LinesIterator {
    const reader: AbstractCsvAnnotationBeanReader
    var nextLine: Option<Bean>

    constructor(reader: AbstractCsvAnnotationBeanReader)
      ensures this.reader == reader && nextLine.None?
    {
      this.reader := reader;
      nextLine := None;
    }

    /** `hasNext`: true on a cached record without reading; otherwise one record is read and cached. */
    method HasNext() returns (r: Result<bool, ReadError>)
      requires WellFormed(reader.mapping)
      modifies this, reader
      ensures old(nextLine).Some? ==>
        r == Success(true) && nextLine == old(nextLine) && reader.State() == old(reader.State())
      ensures old(nextLine).None? ==>
        var s := ReadStep(reader.rows, reader.mapping, reader.hooks, old(reader.State()));
        && reader.State() == s.state
        && (s.result.Failure? ==> r == Failure(s.result.error) && nextLine.None?)
        && (s.result.Success? ==> r == Success(s.result.value.Some?) && nextLine == s.result.value)
    {
      if nextLine.Some? {
        return Success(true);
      }
      var record := reader.Read();
      if record.Failure? {
        return Failure(record.error);
      }
      nextLine := record.value;
      return Success(nextLine.Some?);
    }

    /** `next`: the cached record, else the one `hasNext` reads; the cache is cleared. */
    method Next() returns (r: Result<Bean, IteratorError>)
      requires WellFormed(reader.mapping)
      modifies this, reader
      ensures nextLine.None?
      ensures old(nextLine).Some? ==> r == Success(old(nextLine).value) && reader.State() == old(reader.State())
      ensures old(nextLine).None? ==>
        var s := ReadStep(reader.rows, reader.mapping, reader.hooks, old(reader.State()));
        && reader.State() == s.state
        && (s.result == Success(None) ==> r == Failure(NoSuchElement))
        && (s.result.Success? && s.result.value.Some? ==> r == Success(s.result.value.value))
        && (s.result.Failure? ==> r == Failure(ReadFailed(s.result.error)))
    {
      if nextLine.Some? {
        var line := nextLine.value;
        nextLine := None;
        return Success(line);
      }
      var more := HasNext();
      if more.Failure? {
        return Failure(ReadFailed(more.error));
      }
      if !more.value {
        return Failure(NoSuchElement);
      }
      var line := nextLine.value;
      nextLine := None;
      return Success(line);
    }
  }
}
