/**
 * Model of `CsvAnnotationBeanReader` (package com.github.mygreen.supercsv.io): the reader with
 * header handling and `readAll`. Its record reading repeats that of the abstract reader; the
 * methods here are proved against the same functions of `RowProcessing`.
 */
module CsvBeanReader {
  import opened Wrappers
  import opened RowProcessing

  class CsvAnnotationBeanReader {
    /** The rows the tokenizer yields, each a list of raw cells. */
    const rows: seq<seq<Cell>>
    const mapping: Mapping
    const hooks: Hooks

    /** The rows read so far, which is also the number of the last row read. */
    var rowNumber: nat
    var processedColumns: seq<Cell>
    var errorMessages: seq<string>

    function State(): ReaderState
      reads this
    {
      ReaderState(rowNumber, processedColumns, errorMessages)
    }

    constructor(rows: seq<seq<Cell>>, mapping: Mapping, hooks: Hooks)
      ensures this.rows == rows && this.mapping == mapping && this.hooks == hooks
      ensures State() == ReaderState(0, [], [])
    {
      this.rows := rows;
      this.mapping := mapping;
      this.hooks := hooks;
      rowNumber := 0;
      processedColumns := [];
      errorMessages := [];
    }

    /** The tokenizer's `readRow`: the next row, if any, and the row count. */
    method ReadRow() returns (columns: Option<seq<Cell>>)
      modifies this`rowNumber
      ensures old(rowNumber) < |rows| ==> columns == Some(rows[old(rowNumber)]) && rowNumber == old(rowNumber) + 1
      ensures old(rowNumber) >= |rows| ==> columns.None? && rowNumber == old(rowNumber)
    {
      if rowNumber < |rows| {
        columns := Some(rows[rowNumber]);
        rowNumber := rowNumber + 1;
      } else {
        columns := None;
      }
    }

    /**
     * `getHeader(firstLineCheck)`: the header row, validated against the defined header when the
     * mapping asks for it; a size or value mismatch also appends its formatted messages.
     */
    method GetHeader(firstLineCheck: bool) returns (r: Result<Option<seq<Cell>>, ReadError>)
      modifies this
      ensures Step(r, State()) == GetHeaderStep(rows, mapping, hooks, old(State()), firstLineCheck)
    {
      if firstLineCheck && rowNumber != 0 {
        return Failure(NotFirstLine);
      }
      var header := ReadRow();
      if mapping.validateHeader {
        if header.None? {
          return Failure(NullPointer);
        }
        var mismatch := ValidateHeader(header.value, mapping.header);
        if mismatch.Some? {
          if mismatch.value.ColumnSizeMismatch? || mismatch.value.HeaderMismatch? {
            errorMessages := errorMessages + hooks.formatException(mismatch.value);
          }
          return Failure(mismatch.value);
        }
      }
      return Success(header);
    }

    /** `validateHeader`: the size first, then the first column that differs. */
    method ValidateHeader(sourceHeader: seq<Cell>, definedHeader: seq<string>) returns (r: Option<ReadError>)
      ensures r == HeaderCheck(sourceHeader, definedHeader)
    {
      if |sourceHeader| != |definedHeader| {
        return Some(ColumnSizeMismatch(|sourceHeader|, |definedHeader|));
      }
      var i := 0;
      while i < |sourceHeader|
        invariant 0 <= i <= |sourceHeader|
        invariant HeaderCheck(sourceHeader, definedHeader) == FirstHeaderMismatch(sourceHeader, definedHeader, i)
      {
        if sourceHeader[i].NullCell? {
          return Some(NullPointer);
        }
        if sourceHeader[i] != Text(definedHeader[i]) {
          return Some(HeaderMismatch(i + 1));
        }
        i := i + 1;
      }
      return None;
    }

    /** `readAll()`: `readAll(false)`. */
    method ReadAllDefault() returns (r: Result<seq<Bean>, ReadError>)
      requires WellFormed(mapping)
      modifies this
      ensures Step(r, State()) == RowProcessing.ReadAll(rows, mapping, hooks, old(State()), false)
    {
      r := ReadAll(false);
    }

    /**
     * `readAll(continueOnError)`: the header row when the mapping declares one, then every
     * record; with `continueOnError` a header mismatch and a record's column-size or binding
     * error are skipped.
     */
    method ReadAll(continueOnError: bool) returns (r: Result<seq<Bean>, ReadError>)
      requires WellFormed(mapping)
      modifies this
      ensures Step(r, State()) == RowProcessing.ReadAll(rows, mapping, hooks, old(State()), continueOnError)
    {
      if mapping.hasHeader {
        var header := GetHeader(true);
        if header.Failure? && !(continueOnError && (header.error.ColumnSizeMismatch? || header.error.HeaderMismatch?)) {
          return Failure(header.error);
        }
      }
      ghost var target := RowProcessing.ReadAll(rows, mapping, hooks, old(State()), continueOnError);
      var list: seq<Bean> := [];
      while true
        invariant ReadAllFrom(rows, mapping, hooks, State(), continueOnError, list) == target
        decreases |rows| - rowNumber
      {
        var record := Read();
        match record {
          case Success(None) =>
            return Success(list);
          case Success(Some(bean)) =>
            list := list + [bean];
          case Failure(e) =>
            if !(continueOnError && Recoverable(e)) {
              return Failure(e);
            }
        }
      }
    }

    /** `read()`: null at end of input, else the bean of the next row or the error it raises. */
    method Read() returns (r: Result<Option<Bean>, ReadError>)
      requires WellFormed(mapping)
      modifies this
      ensures Step(r, State()) == ReadStep(rows, mapping, hooks, old(State()))
    {
      var columns := ReadRow();
      if columns.None? {
        return Success(None);
      }
      var row := columns.value;
      var context := RowContext(rowNumber, processedColumns);
      var exec, after := ExecuteCellProcessor(row, mapping.processors, context);
      ExecuteSpec(row, mapping.processors, context);
      match exec {
        case SizeMismatch(a, e) =>
          errorMessages := errorMessages + hooks.formatException(ColumnSizeMismatch(a, e));
          return Failure(ColumnSizeMismatch(a, e));
        case Aborted(col, msg, _) =>
          errorMessages := errorMessages + hooks.formatException(ProcessingFailure(col, msg));
          return Failure(ProcessingFailure(col, msg));
        case Completed(values, columnErrors) =>
          var st := RecordState(hooks.initialBean, if columnErrors == [] then [] else hooks.convertRowErrors(columnErrors));
          st := RunHookList(hooks.preRead, after, st);
          var bean := PopulateBean(st.bean, mapping.nameMapping, st.errors);
          st := st.(bean := bean);
          st := RunHookList(hooks.validators, after, st);
          st := RunHookList(hooks.postRead, after, st);
          var failure := ProcessErrors(st.errors, columnErrors);
          if failure.Some? {
            return Failure(failure.value);
          }
          return Success(Some(st.bean));
      }
    }

    /** Callbacks or validators, run in order. */
    method RunHookList(hs: seq<RecordHook>, context: Context, st: RecordState) returns (r: RecordState)
      ensures r == RunHooks(hs, context, st, 0)
    {
      r := st;
      var i := 0;
      while i < |hs|
        invariant 0 <= i <= |hs|
        invariant RunHooks(hs, context, st, 0) == RunHooks(hs, context, r, i)
      {
        r := hs[i](r, context);
        i := i + 1;
      }
    }

    /**
     * `processErrors`: with binding errors, their formatted messages are appended and a binding
     * exception carrying them and the row's column errors is raised.
     */
    method ProcessErrors(errors: seq<BindingError>, columnErrors: seq<ColumnError>) returns (r: Option<ReadError>)
      modifies this`errorMessages
      ensures errors == [] ==> r.None? && errorMessages == old(errorMessages)
      ensures errors != [] ==>
        r == Some(BindingFailure(errors, columnErrors)) && errorMessages == old(errorMessages) + FormatAll(hooks, errors)
    {
      if errors == [] {
        return None;
      }
      var messages: seq<string> := [];
      var i := 0;
      while i < |errors|
        invariant 0 <= i <= |errors|
        invariant messages == FormatAll(hooks, errors[..i])
        invariant errorMessages == old(errorMessages)
      {
        FormatAllAppend(hooks, errors[..i], errors[i]);
        assert errors[..i + 1] == errors[..i] + [errors[i]];
        messages := messages + [hooks.formatError(errors[i])];
        i := i + 1;
      }
      assert errors[..|errors|] == errors;
      errorMessages := errorMessages + messages;
      return Some(BindingFailure(errors, columnErrors));
    }

    /**
     * `executeCellProcessor`: the size check comes before the buffer is cleared; each column's
     * output, or its raw cell, is appended; the context's column number follows the loop.
     */
    method ExecuteCellProcessor(source: seq<Cell>, processors: seq<Option<Processor>>, context: Context)
      returns (r: Execution, after: Context)
      modifies this`processedColumns
      ensures r == Execute(source, processors, context)
      ensures r.SizeMismatch? ==> processedColumns == old(processedColumns)
      ensures r.Aborted? ==> processedColumns == r.partial
      ensures r.Completed? ==> processedColumns == r.values && after == ExecutedContext(context, |source|)
    {
      after := context;
      if |source| != |processors| {
        return SizeMismatch(|source|, |processors|), after;
      }
      processedColumns := [];
      var errors: seq<ColumnError> := [];
      var i := 0;
      while i < |source|
        invariant 0 <= i <= |source|
        invariant Execute(source, processors, context) == ExecuteFrom(source, processors, context, i, processedColumns, errors)
        invariant after == ExecutedContext(context, i)
      {
        after := after.(columnNumber := i + 1);
        var outcome := if processors[i].None? then Produced(source[i]) else processors[i].value(source[i], after);
        assert outcome == ColumnOutcome(source, processors, context, i);
        match outcome {
          case Produced(v) =>
            processedColumns := processedColumns + [v];
          case CellProcessorError(msg) =>
            errors := errors + [ColumnError(i + 1, msg)];
            processedColumns := processedColumns + [source[i]];
          case OtherCsvError(msg) =>
            return Aborted(i + 1, msg, processedColumns), after;
        }
        i := i + 1;
      }
      return Completed(processedColumns, errors), after;
    }

    /** `populateBean`: the bean after setting each column that may be set. */
    method PopulateBean(bean: Bean, nameMapping: seq<Option<string>>, errors: seq<BindingError>) returns (result: Bean)
      requires |nameMapping| <= |processedColumns|
      ensures result == Populate(nameMapping, processedColumns, errors, bean)
    {
      result := bean;
      var i := 0;
      while i < |nameMapping|
        invariant 0 <= i <= |nameMapping|
        invariant Populate(nameMapping, processedColumns, errors, bean) == PopulateFrom(nameMapping, processedColumns, errors, i, result)
      {
        var fieldValue := processedColumns[i];
        if nameMapping[i].Some? && fieldValue != NullCell && !HasFieldErrors(errors, nameMapping[i].value) {
          result := result[nameMapping[i].value := fieldValue];
        }
        i := i + 1;
      }
    }
  }
}
