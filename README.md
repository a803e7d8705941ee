# super-csv-annotation core, modelled in Dafny

This project models four parts of the super-csv-annotation library (an annotation layer over
Super CSV that maps CSV records to Java beans):

- `AnnotationExpander` (`annotation_expander.dfy`). It flattens the annotations on a field: a
  repeated container is replaced by its elements, each tagged with its index. A composed
  annotation (one meta-annotated with `@CsvComposition`) becomes a node whose children are its
  own meta-annotations, expanded and with `@CsvOverridesAttribute` values pushed into them.
  Every list is sorted by the caller's comparator. `Collections.sort` is stable, so it is modelled
  by a stable insertion sort (`sorting.dfy`).
- `AbstractCsvAnnotationBeanReader` and `CsvAnnotationBeanReader` (`abstract_bean_reader.dfy`,
  `csv_bean_reader.dfy`). They are classes with the readers' mutable state: the row counter, the
  reusable `processedColumns` buffer and the growing `errorMessages` list. Their methods are
  proved against the functions in `row_processing.dfy`:
  - header validation;
  - cell processing, one column at a time;
  - bean population;
  - the callbacks and record validators;
  - error processing;
  - `read`, `read(handlers)`, the `lines()` iterator, `getHeader` and `readAll`.
- `NumberCellProcessorBuilder` (`number_builder.dfy`). For each of the eight number types it
  turns a `@CsvNumberConverter` annotation into a reading or writing processor chain, written as a
  sequence of steps. It also parses the annotation's `min`, `max` and default value. The
  narrowing casts (`byteValue()`, `intValue()` and so on) are written out as two's complement
  wrap-around.

Inputs the model takes as parameters instead of computing:
- The tokenizer is a sequence of rows of cells.
- A cell processor is a function from a cell and the `CsvContext` to an outcome: a value, a
  `SuperCsvCellProcessorException`, or another `SuperCsvException`.
- A bean is a map from field names to cells.
- The exception converter, message formatter, callbacks and record validators are functions
  supplied with the reader.
- `DecimalFormat`, `Locale`, `Currency` and floating-point parsing are functions of a
  `NumberLibrary` record.

## Model

| member | source | states |
|---|---|---|
| AnnotationExpander.NewAnnotationExpander | src/main/java/com/github/mygreen/supercsv/builder/AnnotationExpander.java:58-69 | a null comparator is rejected with a null-pointer error, and only a null one |
| AnnotationExpander.ExpandedOrderIsPreorder | src/main/java/com/github/mygreen/supercsv/builder/AnnotationExpander.java:61-67 | comparing expanded entries by their original annotations is a total preorder when the comparator is one |
| AnnotationExpander.IsRepeated | src/main/java/com/github/mygreen/supercsv/builder/AnnotationExpander.java:159-186 | `isRepeated`: `value()` holds a non-empty annotation array whose first element's type is `@Repeatable`; which branch of the expansion it selects is stated by `RepeatedExpansion` |
| AnnotationExpander.IsComposed | src/main/java/com/github/mygreen/supercsv/builder/AnnotationExpander.java:194-198 | `isComposed`: the type carries `@CsvComposition`; the branch it selects is stated by `ComposedExpansion` |
| AnnotationExpander.IsOverridableAnnotation | src/main/java/com/github/mygreen/supercsv/builder/AnnotationExpander.java:282-299 | `isOverridableAnnotation`: a `@CsvConstraint` or `@CsvConversion` meta-annotation, or a type in the format package (the `@CsvRequire` case of the comment is not in the code); `OverriddenOfFacts` proves that other annotations are returned unchanged |
| AnnotationExpander.ExpansionOf | src/main/java/com/github/mygreen/supercsv/builder/AnnotationExpander.java:99-150 | `expand(Annotation)` after its null check, as a function: the repeated, composed and plain branches, each result sorted; its properties are `RepeatedExpansion`, `ComposedExpansion`, `PlainExpansion` and `ExpansionFullySorted` |
| AnnotationExpander.ExpansionOfAll | src/main/java/com/github/mygreen/supercsv/builder/AnnotationExpander.java:77-89 | `expand(Annotation[])` as a function: null checks, concatenation, one sort; its properties are `ExpansionOfAllFacts` and `NullElementRejected` |
| AnnotationExpander.Expand | src/main/java/com/github/mygreen/supercsv/builder/AnnotationExpander.java:97-150 | `expand(Annotation)`: a null annotation fails with a null-pointer error; any other annotation gets exactly `ExpansionOf` |
| AnnotationExpander.ExpandAnnotation | src/main/java/com/github/mygreen/supercsv/builder/AnnotationExpander.java:99-150 | the looping body of `expand(Annotation)` after the null check, recursing on the repeated and meta annotations, returns exactly `ExpansionOf` |
| AnnotationExpander.ExpandAll | src/main/java/com/github/mygreen/supercsv/builder/AnnotationExpander.java:77-89 | the looping `expand(Annotation[])` returns exactly `ExpansionOfAll` |
| AnnotationExpander.PlainExpansion | src/main/java/com/github/mygreen/supercsv/builder/AnnotationExpander.java:141-145 | an annotation that is neither repeated nor composed expands to the single non-composed entry with index 0 |
| AnnotationExpander.RepeatedExpansion | src/main/java/com/github/mygreen/supercsv/builder/AnnotationExpander.java:101-121 | a repeated annotation fails exactly when one element's expansion fails, with the "repeated value" error; on success the result is sorted, every element's entry appears with its element's index, and nothing else appears; as a multiset it is exactly the element loop's list, so no entry is lost or duplicated |
| AnnotationExpander.ComposedExpansion | src/main/java/com/github/mygreen/supercsv/builder/AnnotationExpander.java:123-139 | a composed annotation succeeds exactly when every meta-annotation expands and every overriding succeeds; on success it gives one composed entry whose sorted children are exactly the overridden entries of its meta-annotations, and as a multiset exactly the meta-annotation loop's list |
| AnnotationExpander.ExpansionFullySorted | src/main/java/com/github/mygreen/supercsv/builder/AnnotationExpander.java:138-147 | every level of an expansion tree is sorted by the comparator |
| AnnotationExpander.ExpansionOfAllFacts | src/main/java/com/github/mygreen/supercsv/builder/AnnotationExpander.java:77-89 | a null array fails with a null pointer; otherwise the result exists exactly when every element is non-null and expands, is sorted, holds exactly the entries of the elements, and as a multiset is exactly their concatenation |
| AnnotationExpander.NullElementRejected | src/main/java/com/github/mygreen/supercsv/builder/AnnotationExpander.java:81-83 | a null element whose predecessors all expand makes the whole expansion fail with a null pointer |
| AnnotationExpander.ElementExpansionsSuccess | src/main/java/com/github/mygreen/supercsv/builder/AnnotationExpander.java:108-117 | the element loop succeeds exactly when every remaining element expands |
| AnnotationExpander.ElementExpansionsMembers | src/main/java/com/github/mygreen/supercsv/builder/AnnotationExpander.java:108-117 | the element loop holds each element's entries re-indexed with the element's position, and nothing else |
| AnnotationExpander.ChildExpansionsSuccess | src/main/java/com/github/mygreen/supercsv/builder/AnnotationExpander.java:127-136 | the meta-annotation loop succeeds exactly when every meta-annotation expands and each of its entries can be overridden |
| AnnotationExpander.ChildExpansionsMembers | src/main/java/com/github/mygreen/supercsv/builder/AnnotationExpander.java:127-136 | the meta-annotation loop holds exactly the overridden entries of the meta-annotations |
| AnnotationExpander.ConcatExpansionsSuccess | src/main/java/com/github/mygreen/supercsv/builder/AnnotationExpander.java:81-83 | concatenating the elements' expansions succeeds exactly when every element is non-null and expands |
| AnnotationExpander.ConcatExpansionsMembers | src/main/java/com/github/mygreen/supercsv/builder/AnnotationExpander.java:81-83 | an entry is in the concatenation exactly when some element's expansion holds it |
| AnnotationExpander.OverrideAllFacts | src/main/java/com/github/mygreen/supercsv/builder/AnnotationExpander.java:130-132 | mapping `overrideAttribute` over the entries succeeds exactly when each entry succeeds, and keeps their number and order |
| AnnotationExpander.OverrideAttribute | src/main/java/com/github/mygreen/supercsv/builder/AnnotationExpander.java:206-267 | the method returns exactly `OverriddenOf` |
| AnnotationExpander.OverriddenOf | src/main/java/com/github/mygreen/supercsv/builder/AnnotationExpander.java:206-267 | `overrideAttribute` as a function: the two early returns, then the attribute map answered by the proxy; its properties are `OverriddenOfFacts` and `OverriddenKeepsShape` |
| AnnotationExpander.OverriddenOfFacts | src/main/java/com/github/mygreen/supercsv/builder/AnnotationExpander.java:206-267 | a non-overridable entry is returned unchanged; otherwise the result exists exactly when the override map does, keeps the entry's type, index, children, composed flag and attribute names, and reads each overridden attribute from the map and every other attribute from the original |
| AnnotationExpander.OverriddenKeepsShape | src/main/java/com/github/mygreen/supercsv/builder/AnnotationExpander.java:262-266 | overriding keeps the composed flag, the index, the children, the annotation type and the elements |
| AnnotationExpander.BuildOverrideAttribute | src/main/java/com/github/mygreen/supercsv/builder/AnnotationExpander.java:308-414 | the method returns exactly `OverrideAttrsOf` |
| AnnotationExpander.OverrideAttrsOf | src/main/java/com/github/mygreen/supercsv/builder/AnnotationExpander.java:308-414 | `buildOverrideAttribute` as a function: the bindings of every method, then the inherited common attributes; its properties are `OverrideAttrsFacts`, `CollectBindingsResult` and `InheritCommonFacts` |
| AnnotationExpander.ApplyBinding | src/main/java/com/github/mygreen/supercsv/builder/AnnotationExpander.java:340-375 | one `@CsvOverridesAttribute`: skipped unless it applies to the target's type and index; a missing target attribute, then a missing value, fail; otherwise the value is put under the attribute name; stated by `ApplyBindingsFacts`, `MissingAttributeFails` and `MissingValueFails` |
| AnnotationExpander.OverrideAttrsFacts | src/main/java/com/github/mygreen/supercsv/builder/AnnotationExpander.java:308-414 | the override map exists exactly when every applicable binding names an attribute of the target with the method's type and the binding method has a value on the composed annotation; it holds exactly the bound and the inherited common attributes, only names the target has, the value of the last method that binds a name, and the composed annotation's own value of each inherited attribute |
| AnnotationExpander.MissingAttributeFails | src/main/java/com/github/mygreen/supercsv/builder/AnnotationExpander.java:350-360 | a binding that applies to the target and names an attribute it lacks makes the override fail |
| AnnotationExpander.MissingValueFails | src/main/java/com/github/mygreen/supercsv/builder/AnnotationExpander.java:364-369 | a binding that applies to the target through a method with no value on the composed annotation makes the override fail, as the failed reflective read does |
| AnnotationExpander.ApplyBindingsFacts | src/main/java/com/github/mygreen/supercsv/builder/AnnotationExpander.java:339-376 | one method's bindings succeed exactly when each applicable one is valid; they add exactly the names they bind, with the method's value, and leave the other entries alone |
| AnnotationExpander.CollectBindingsSuccess | src/main/java/com/github/mygreen/supercsv/builder/AnnotationExpander.java:318-378 | the method loop succeeds exactly when every method's applicable bindings are valid |
| AnnotationExpander.CollectBindingsResult | src/main/java/com/github/mygreen/supercsv/builder/AnnotationExpander.java:318-378 | the method loop binds exactly the names some method binds, the last binding method's value wins, and the bound-method names are exactly the methods that carry bindings |
| AnnotationExpander.InheritCommonFacts | src/main/java/com/github/mygreen/supercsv/builder/AnnotationExpander.java:380-411 | `message`, `groups` and `cases` are inherited exactly when none of them is bound or names a binding method, the target has it with the right type, and the composed annotation has it non-empty |
| AnnotationExpander.LevelsSortedWithIndex | src/main/java/com/github/mygreen/supercsv/builder/AnnotationExpander.java:111-113 | setting the index of an entry keeps every level of its tree sorted |
| Sorting.SortByCorrect | src/main/java/com/github/mygreen/supercsv/builder/AnnotationExpander.java:85 | the stable sort that stands in for `Collections.sort` yields a sorted permutation of its input |
| Sorting.SortByIsStable | src/main/java/com/github/mygreen/supercsv/builder/AnnotationExpander.java:85 | the sort is stable: for every key, the entries the comparator cannot tell apart from it come out in their input order |
| Sorting.InsertKeepsEquivalentOrder | src/main/java/com/github/mygreen/supercsv/builder/AnnotationExpander.java:85 | inserting an entry puts it in front of the entries equivalent to it and keeps their order |
| Sorting.SortBySortedIsIdentity | src/main/java/com/github/mygreen/supercsv/builder/AnnotationExpander.java:147 | sorting a list that is already sorted leaves it unchanged |
| RowProcessing.HeaderCheckSpec | src/main/java/com/github/mygreen/supercsv/io/CsvAnnotationBeanReader.java:185-202 | headers of different sizes give a column-size error; headers of equal size fail exactly when a column differs, at the first such column, with a null pointer when that cell is null |
| RowProcessing.HeaderCheck | src/main/java/com/github/mygreen/supercsv/io/AbstractCsvAnnotationBeanReader.java:238-255 | `validateHeader`: size first, then the first differing column; both directions are `HeaderCheckSpec` |
| RowProcessing.FirstHeaderMismatch | src/main/java/com/github/mygreen/supercsv/io/AbstractCsvAnnotationBeanReader.java:247-253 | the column check from `i` is silent exactly when every label matches, and otherwise reports the first column that differs |
| RowProcessing.ExecuteSpec | src/main/java/com/github/mygreen/supercsv/io/AbstractCsvAnnotationBeanReader.java:314-354 | the size is checked first; otherwise the row either aborts at the first column that raises a non-cell-processor error, with the earlier columns stored, or stores every column, using the processor's output or the raw cell; the column errors are then exactly the failing columns |
| RowProcessing.ExecuteFromFacts | src/main/java/com/github/mygreen/supercsv/io/AbstractCsvAnnotationBeanReader.java:327-348 | the column loop from column `i` on, both for completion and for abort |
| RowProcessing.Execute | src/main/java/com/github/mygreen/supercsv/io/AbstractCsvAnnotationBeanReader.java:314-354 | `executeCellProcessor` as a function: the size check, then the column loop; stated by `ExecuteSpec` |
| RowProcessing.PopulateSpec | src/main/java/com/github/mygreen/supercsv/io/AbstractCsvAnnotationBeanReader.java:362-385 | a field that no column sets keeps its value; a field some column sets gets the value of the last such column; a column sets nothing when its name is null, its value is null or its field already has errors |
| RowProcessing.Populate | src/main/java/com/github/mygreen/supercsv/io/AbstractCsvAnnotationBeanReader.java:362-385 | `populateBean` as a function over the buffer; last setter wins and skipped columns are `PopulateSpec` |
| RowProcessing.ProcessRowSpec | src/main/java/com/github/mygreen/supercsv/io/AbstractCsvAnnotationBeanReader.java:96-153 | one record: a size mismatch comes with its messages and keeps the buffer; a fatal processor error comes with its messages and leaves the columns stored before the failing one; once all columns are processed the record either succeeds or fails with a binding exception; a binding failure carries non-empty errors, their formatted messages and the row's column errors; a success appends no message |
| RowProcessing.ProcessRow | src/main/java/com/github/mygreen/supercsv/io/AbstractCsvAnnotationBeanReader.java:106-148 | the body of `read()` once a row is read: cell processing, callbacks, population, validators, error processing; its outcomes are `ProcessRowSpec` |
| RowProcessing.ReadStep | src/main/java/com/github/mygreen/supercsv/io/AbstractCsvAnnotationBeanReader.java:96-153 | `read()` gives null exactly at the end of input and then changes nothing; otherwise it consumes one row, processed in a context whose row source is the buffer the previous record left; messages are only appended |
| RowProcessing.FormatAll | src/main/java/com/github/mygreen/supercsv/io/AbstractCsvAnnotationBeanReader.java:266-272 | one formatted message per binding error, in order |
| RowProcessing.FormatAllAppend | src/main/java/com/github/mygreen/supercsv/io/AbstractCsvAnnotationBeanReader.java:266-272 | formatting one more error appends one message |
| RowProcessing.RowContext | src/main/java/com/github/mygreen/supercsv/io/AbstractCsvAnnotationBeanReader.java:103-104 | the context of a record: its row and line number, column 1, and the given row source |
| RowProcessing.ReadRecord | src/main/java/com/github/mygreen/supercsv/io/AbstractCsvAnnotationBeanReader.java:103-153 | processing one row leaves the context's row number as the reader's and only appends messages |
| RowProcessing.ReadStepIntended | src/main/java/com/github/mygreen/supercsv/io/AbstractCsvAnnotationBeanReader.java:96-153 | `read()` with the record's own raw cells as row source: null exactly at the end of input, otherwise one row consumed, messages only appended |
| RowProcessing.ExecuteFromIgnoresRowSource | src/main/java/com/github/mygreen/supercsv/io/AbstractCsvAnnotationBeanReader.java:327-348 | processors that do not look at the row source give the same column loop whatever it is |
| RowProcessing.RunHooksIgnoresRowSource | src/main/java/com/github/mygreen/supercsv/io/AbstractCsvAnnotationBeanReader.java:126-141 | callbacks that do not look at the row source have the same effect whatever it is |
| RowProcessing.BindRecordIgnoresRowSource | src/main/java/com/github/mygreen/supercsv/io/AbstractCsvAnnotationBeanReader.java:126-143 | the binding phase does not depend on the row source when no callback or validator reads it |
| RowProcessing.ProcessRowIgnoresRowSource | src/main/java/com/github/mygreen/supercsv/io/AbstractCsvAnnotationBeanReader.java:103-153 | a record whose processors and callbacks ignore the row source is read the same whatever it is |
| RowProcessing.ReadStepAgreesWhenRowSourceUnused | src/main/java/com/github/mygreen/supercsv/io/AbstractCsvAnnotationBeanReader.java:103-104 | when nothing reads the row source, `read()` as written and as intended agree |
| RowProcessing.RowSourceStaleOnFirstRecord | src/main/java/com/github/mygreen/supercsv/io/CsvAnnotationBeanReader.java:285-286 | with a processor that needs a row source, the first record of a one-cell file fails as written and is read as intended |
| RowProcessing.Successes | src/main/java/com/github/mygreen/supercsv/io/CsvAnnotationBeanReader.java:250-255 | the delivered beans are beans of successful records |
| RowProcessing.FirstFatal | src/main/java/com/github/mygreen/supercsv/io/CsvAnnotationBeanReader.java:257-261 | there is no fatal failure exactly when every failure is skippable under the flag; a fatal failure is in the trace and is not skippable |
| RowProcessing.ReadAllFromSpec | src/main/java/com/github/mygreen/supercsv/io/CsvAnnotationBeanReader.java:249-264 | the record loop returns the beans of the successful records in order when no failure is fatal, and otherwise the first fatal failure; without `continueOnError` every failure is fatal |
| RowProcessing.ReadAllFromTrace | src/main/java/com/github/mygreen/supercsv/io/CsvAnnotationBeanReader.java:247-264 | the record loop is determined by the trace of per-record results |
| RowProcessing.ReadAllFromKeepsMessages | src/main/java/com/github/mygreen/supercsv/io/CsvAnnotationBeanReader.java:247-264 | the record loop only appends to the error messages |
| RowProcessing.ReadAllFrom | src/main/java/com/github/mygreen/supercsv/io/CsvAnnotationBeanReader.java:249-264 | the record loop of `readAll`: stop at the end, skip a skippable failure, stop at a fatal one; stated by `ReadAllFromSpec`, `ReadAllFromTrace` and `ReadAllFromKeepsMessages` |
| RowProcessing.ReadAll | src/main/java/com/github/mygreen/supercsv/io/CsvAnnotationBeanReader.java:235-265 | `readAll(continueOnError)`: the header, then the record loop; stated by `ReadAllHeaderSpec` and `ReadAllKeepsMessages` |
| RowProcessing.GetHeaderStep | src/main/java/com/github/mygreen/supercsv/io/CsvAnnotationBeanReader.java:167-183 | `getHeader` keeps the buffer and only appends messages; a size or header mismatch appends exactly its formatted messages; without validation it fails only on the first-line check |
| RowProcessing.ReadAllHeaderSpec | src/main/java/com/github/mygreen/supercsv/io/CsvAnnotationBeanReader.java:235-246 | the header row is consumed only when the mapping declares one; a column-size mismatch or a header mismatch (both with their messages) stops `readAll` unless errors are to be skipped, and then reading goes on from row 1; every other header failure (not the first line, no header row, a null header cell) stops `readAll` whatever the flag |
| RowProcessing.ReadAllKeepsMessages | src/main/java/com/github/mygreen/supercsv/io/CsvAnnotationBeanReader.java:235-265 | `readAll` only appends to the error messages |
| AbstractBeanReader.AbstractCsvAnnotationBeanReader.constructor | src/main/java/com/github/mygreen/supercsv/io/AbstractCsvAnnotationBeanReader.java:77-83 | a new reader has read no row and has an empty buffer and no messages |
| AbstractBeanReader.AbstractCsvAnnotationBeanReader.ReadRow | src/main/java/com/github/mygreen/supercsv/io/AbstractCsvAnnotationBeanReader.java:98 | the next row and an advanced row count, or nothing at the end |
| AbstractBeanReader.AbstractCsvAnnotationBeanReader.ValidateHeader | src/main/java/com/github/mygreen/supercsv/io/AbstractCsvAnnotationBeanReader.java:238-255 | the loop reports exactly `HeaderCheck` |
| AbstractBeanReader.AbstractCsvAnnotationBeanReader.ExecuteCellProcessor | src/main/java/com/github/mygreen/supercsv/io/AbstractCsvAnnotationBeanReader.java:314-354 | the loop computes `Execute`; the buffer is kept on a size mismatch and holds the stored columns otherwise; the context ends at the last column |
| AbstractBeanReader.AbstractCsvAnnotationBeanReader.PopulateBean | src/main/java/com/github/mygreen/supercsv/io/AbstractCsvAnnotationBeanReader.java:362-385 | the loop computes `Populate` on the buffer |
| AbstractBeanReader.AbstractCsvAnnotationBeanReader.RunHookList | src/main/java/com/github/mygreen/supercsv/io/AbstractCsvAnnotationBeanReader.java:126-141 | the callbacks or validators run in order |
| AbstractBeanReader.AbstractCsvAnnotationBeanReader.ProcessErrors | src/main/java/com/github/mygreen/supercsv/io/AbstractCsvAnnotationBeanReader.java:263-276 | no errors: nothing raised and no message; errors: a binding exception with them and the column errors, and their formatted messages appended |
| AbstractBeanReader.AbstractCsvAnnotationBeanReader.Read | src/main/java/com/github/mygreen/supercsv/io/AbstractCsvAnnotationBeanReader.java:96-153 | result and new state are exactly those of `ReadStep`, whose context takes the buffer before the row is processed as row source |
| AbstractBeanReader.AbstractCsvAnnotationBeanReader.ReadWith | src/main/java/com/github/mygreen/supercsv/io/AbstractCsvAnnotationBeanReader.java:164-181 | EOF, SUCCESS with the bean to the success handler, or ERROR with the exception to the error handler, as `ReadStep` decides |
| AbstractBeanReader.LinesIterator.constructor | src/main/java/com/github/mygreen/supercsv/io/AbstractCsvAnnotationBeanReader.java:193-196 | the iterator starts with no cached record |
| AbstractBeanReader.LinesIterator.HasNext | src/main/java/com/github/mygreen/supercsv/io/AbstractCsvAnnotationBeanReader.java:198-210 | a cached record gives true without reading; otherwise one record is read and cached, and the answer is whether there was one |
| AbstractBeanReader.LinesIterator.Next | src/main/java/com/github/mygreen/supercsv/io/AbstractCsvAnnotationBeanReader.java:213-224 | the cached record or the next one read, no-such-element at the end, and the cache cleared |
| CsvBeanReader.CsvAnnotationBeanReader.constructor | src/main/java/com/github/mygreen/supercsv/io/CsvAnnotationBeanReader.java:138-145 | a new reader has read no row and has an empty buffer and no messages |
| CsvBeanReader.CsvAnnotationBeanReader.ReadRow | src/main/java/com/github/mygreen/supercsv/io/CsvAnnotationBeanReader.java:280 | the next row and an advanced row count, or nothing at the end |
| CsvBeanReader.CsvAnnotationBeanReader.GetHeader | src/main/java/com/github/mygreen/supercsv/io/CsvAnnotationBeanReader.java:167-183 | result and new state are exactly those of `GetHeaderStep` |
| CsvBeanReader.CsvAnnotationBeanReader.ValidateHeader | src/main/java/com/github/mygreen/supercsv/io/CsvAnnotationBeanReader.java:185-202 | the loop reports exactly `HeaderCheck` |
| CsvBeanReader.CsvAnnotationBeanReader.ReadAllDefault | src/main/java/com/github/mygreen/supercsv/io/CsvAnnotationBeanReader.java:216-218 | `readAll()` is `readAll(false)` |
| CsvBeanReader.CsvAnnotationBeanReader.ReadAll | src/main/java/com/github/mygreen/supercsv/io/CsvAnnotationBeanReader.java:235-265 | result and new state are exactly those of `ReadAll` |
| CsvBeanReader.CsvAnnotationBeanReader.Read | src/main/java/com/github/mygreen/supercsv/io/CsvAnnotationBeanReader.java:278-335 | result and new state are exactly those of `ReadStep`, whose context takes the buffer before the row is processed as row source |
| CsvBeanReader.CsvAnnotationBeanReader.RunHookList | src/main/java/com/github/mygreen/supercsv/io/CsvAnnotationBeanReader.java:308-323 | the callbacks or validators run in order |
| CsvBeanReader.CsvAnnotationBeanReader.ProcessErrors | src/main/java/com/github/mygreen/supercsv/io/CsvAnnotationBeanReader.java:337-350 | no errors: nothing raised and no message; errors: a binding exception with them and the column errors, and their formatted messages appended |
| CsvBeanReader.CsvAnnotationBeanReader.ExecuteCellProcessor | src/main/java/com/github/mygreen/supercsv/io/CsvAnnotationBeanReader.java:389-429 | the loop computes `Execute`; the buffer is kept on a size mismatch and holds the stored columns otherwise |
| CsvBeanReader.CsvAnnotationBeanReader.PopulateBean | src/main/java/com/github/mygreen/supercsv/io/CsvAnnotationBeanReader.java:437-460 | the loop computes `Populate` on the buffer |
| NumberBuilder.GetAnnotation | src/main/java/org/supercsv/ext/builder/NumberCellProcessorBuilder.java:49-63 | null exactly when the array is null or holds no `@CsvNumberConverter`; otherwise the first one |
| NumberBuilder.FirstConverter | src/main/java/org/supercsv/ext/builder/NumberCellProcessorBuilder.java:55-59 | the first number converter from position `i` on, or none when there is none |
| NumberBuilder.GetPattern | src/main/java/org/supercsv/ext/builder/NumberCellProcessorBuilder.java:64-70 | `getPattern`: empty without an annotation, else its pattern; see `DefaultsWithoutAnnotation` |
| NumberBuilder.GetLenient | src/main/java/org/supercsv/ext/builder/NumberCellProcessorBuilder.java:72-78 | `getLenient`: false without an annotation, else its flag; see `DefaultsWithoutAnnotation` |
| NumberBuilder.GetMin | src/main/java/org/supercsv/ext/builder/NumberCellProcessorBuilder.java:80-87 | `getMin`: empty without an annotation, else its minimum text; see `DefaultsWithoutAnnotation` |
| NumberBuilder.GetMax | src/main/java/org/supercsv/ext/builder/NumberCellProcessorBuilder.java:89-96 | `getMax`: empty without an annotation, else its maximum text; see `DefaultsWithoutAnnotation` |
| NumberBuilder.GetLocale | src/main/java/org/supercsv/ext/builder/NumberCellProcessorBuilder.java:98-104 | `getLocale`: the default locale without an annotation, else `Utils.getLocale` of its tag; see `DefaultsWithoutAnnotation` |
| NumberBuilder.DefaultsWithoutAnnotation | src/main/java/org/supercsv/ext/builder/NumberCellProcessorBuilder.java:65-116 | without an annotation: empty pattern, not lenient, no bounds, the default locale and no currency |
| NumberBuilder.GetCurrency | src/main/java/org/supercsv/ext/builder/NumberCellProcessorBuilder.java:107-116 | null without an annotation or with an empty code; otherwise the code's currency, and a failure exactly when the code is unknown |
| NumberBuilder.CreateNumberFormat | src/main/java/org/supercsv/ext/builder/NumberCellProcessorBuilder.java:176-197 | no formatter exactly when the pattern is empty; an illegal-pattern failure exactly when a non-empty pattern is malformed; otherwise that pattern, those symbols and that currency, parsing to BigDecimal |
| NumberBuilder.CreateNumberFormatIgnoresLenient | src/main/java/org/supercsv/ext/builder/NumberCellProcessorBuilder.java:176-197 | the `lenient` argument has no effect on the formatter |
| NumberBuilder.FormatterOf | src/main/java/org/supercsv/ext/builder/NumberCellProcessorBuilder.java:205-212 | the getters, then `createNumberFormat`: an unknown currency fails first, then a malformed pattern; no formatter exactly for an empty pattern; otherwise the pattern with the locale's symbols and the currency |
| NumberBuilder.PrependRangeProcessor | src/main/java/org/supercsv/ext/builder/NumberCellProcessorBuilder.java:150-174 | no bound leaves the chain unchanged; otherwise one range, min or max check, chosen by which bounds are present, is placed in front of it |
| NumberBuilder.PrependRangeProcessorAppend | src/main/java/org/supercsv/ext/builder/NumberCellProcessorBuilder.java:150-174 | the check does not depend on the rest of the chain |
| NumberBuilder.ParseNumber | src/main/java/org/supercsv/ext/builder/NumberCellProcessorBuilder.java:262-278 | null exactly for the empty string; a formatter that cannot parse gives an invalid-annotation error, which only a formatter gives; a parsed value has the builder's type and range |
| NumberBuilder.ParseWithFormatterNarrows | src/main/java/org/supercsv/ext/builder/NumberCellProcessorBuilder.java:269 | with a formatter, the byte, short, int and long parses are the formatter's decimal narrowed by `byteValue()`, `shortValue()`, `intValue()` and `longValue()` |
| NumberBuilder.ParsePlainIntegerRoundTrip | src/main/java/org/supercsv/ext/builder/NumberCellProcessorBuilder.java:277 | without a formatter, the decimal text of an integer parses back to it when it fits the type, and is a number-format error otherwise |
| NumberBuilder.ParsePlainBigIntegerRoundTrip | src/main/java/org/supercsv/ext/builder/NumberCellProcessorBuilder.java:961 | without a formatter, the decimal text of any integer parses back to it as a BigInteger |
| NumberBuilder.ParseBigIntegerWithFormatter | src/main/java/org/supercsv/ext/builder/NumberCellProcessorBuilder.java:953 | with a formatter, an integral decimal gives its value and a fractional one an arithmetic error |
| NumberBuilder.DecimalStringRoundTrip | src/main/java/org/supercsv/ext/builder/NumberCellProcessorBuilder.java:961 | the model's own decimal reader, which stands for `new BigInteger(String)` and the `valueOf` parsers, inverts its decimal printer on every integer |
| NumberBuilder.WrapLong | src/main/java/org/supercsv/ext/builder/NumberCellProcessorBuilder.java:564 | in the type's range, congruent to the input modulo 2^64, and the identity on values in range |
| NumberBuilder.WrapInt | src/main/java/org/supercsv/ext/builder/NumberCellProcessorBuilder.java:466 | in the type's range, congruent to the input modulo 2^32, and the identity on values in range |
| NumberBuilder.WrapShort | src/main/java/org/supercsv/ext/builder/NumberCellProcessorBuilder.java:368 | in the type's range, congruent to the input modulo 2^16, and the identity on values in range |
| NumberBuilder.WrapByte | src/main/java/org/supercsv/ext/builder/NumberCellProcessorBuilder.java:269 | in the type's range, congruent to the input modulo 2^8, and the identity on values in range |
| NumberBuilder.IntOfResidue | src/main/java/org/supercsv/ext/builder/NumberCellProcessorBuilder.java:466 | `intValue()` of a decimal is its truncation modulo 2^32, and the truncation itself when that fits |
| NumberBuilder.ShortOfResidue | src/main/java/org/supercsv/ext/builder/NumberCellProcessorBuilder.java:368 | `shortValue()` of a decimal is its truncation modulo 2^16, and the truncation itself when that fits |
| NumberBuilder.ByteOfResidue | src/main/java/org/supercsv/ext/builder/NumberCellProcessorBuilder.java:269 | `byteValue()` of a decimal is its truncation modulo 2^8, and the truncation itself when that fits |
| NumberBuilder.SettingsOf | src/main/java/org/supercsv/ext/builder/NumberCellProcessorBuilder.java:205-215 | the formatter from the annotation, then the minimum and maximum parsed with it; a bound is absent exactly when its text is empty |
| NumberBuilder.BuildOutputCellProcessor | src/main/java/org/supercsv/ext/builder/NumberCellProcessorBuilder.java:202-228 | `buildOutputCellProcessor`: the settings, then the writing chain; its chain and errors are `BuildOutputOrder` |
| NumberBuilder.BuildInputCellProcessor | src/main/java/org/supercsv/ext/builder/NumberCellProcessorBuilder.java:231-259 | `buildInputCellProcessor`: the settings, then the reading chain; its chain and errors are `BuildInputOrder` |
| NumberBuilder.GetParseValue | src/main/java/org/supercsv/ext/builder/NumberCellProcessorBuilder.java:281-293 | `getParseValue`: the default value parsed with the annotation's formatter; stated by `GetParseValueSpec` and `GetParseValueIgnoresBounds` |
| NumberBuilder.GetParseValueSpec | src/main/java/org/supercsv/ext/builder/NumberCellProcessorBuilder.java:281-293 | the default value is parsed with the formatter the chains are built with: a formatter error fails both; null exactly for an empty default; a value of the builder's type |
| NumberBuilder.GetParseValueIgnoresBounds | src/main/java/org/supercsv/ext/builder/NumberCellProcessorBuilder.java:281-293 | `min` and `max` do not affect the default value, although a bad bound fails the chains |
| NumberBuilder.BuildOutputOrder | src/main/java/org/supercsv/ext/builder/NumberCellProcessorBuilder.java:202-228 | `buildOutputCellProcessor` fails exactly when the settings do, with their error; otherwise the chain is the range check (left out when validation is ignored), then the format step (present only with a pattern), then the caller's processor |
| NumberBuilder.OutputChainOrder | src/main/java/org/supercsv/ext/builder/NumberCellProcessorBuilder.java:217-225 | the writing chain is range check, format step, caller's processor; it adds a step exactly when there is a formatter or a bound that is checked |
| NumberBuilder.BuildInputOrder | src/main/java/org/supercsv/ext/builder/NumberCellProcessorBuilder.java:231-259 | `buildInputCellProcessor` fails exactly when the settings do, with their error; otherwise the chain is the parser, then the range check, then the caller's processor |
| NumberBuilder.InputChainOrder | src/main/java/org/supercsv/ext/builder/NumberCellProcessorBuilder.java:934-941 | the reading chain starts with a parser; it is locale-aware exactly when there is a formatter, except for BigInteger, where it is the other way round |
| NumberBuilder.InputParser | src/main/java/org/supercsv/ext/builder/NumberCellProcessorBuilder.java:934-941 | the first reading step as written, with the `BigInteger` builder's reversal; stated by `InputChainOrder` and `InputParserReversedForBigInteger` |
| NumberBuilder.InputParserIntended | src/main/java/org/supercsv/ext/builder/NumberCellProcessorBuilder.java:249-256 | the first reading step as the other builders choose it: locale-aware exactly when there is a formatter |
| NumberBuilder.InputParserReversedForBigInteger | src/main/java/org/supercsv/ext/builder/NumberCellProcessorBuilder.java:934-941 | the parser as written is the intended one for every type but `BigInteger`, differs from it for every `BigInteger` formatter, and ignores a given formatter |
| NumberBuilder.BuildWithoutAnnotation | src/main/java/org/supercsv/ext/builder/NumberCellProcessorBuilder.java:202-293 | without an annotation the writing chain is the caller's processor, the reading chain is the plain parser in front of it (the locale-aware one with a null formatter for BigInteger), and the default value is parsed without a formatter |
| NumberBuilder.IllegalPatternFails | src/main/java/org/supercsv/ext/builder/NumberCellProcessorBuilder.java:185-187 | with a known currency, a malformed pattern fails the writing chain, the reading chain and the default value with the illegal-pattern error |
| NumberBuilder.BadBoundFails | src/main/java/org/supercsv/ext/builder/NumberCellProcessorBuilder.java:243-244 | a minimum that cannot be parsed fails the build with its error, then a maximum that cannot; with both parsed the build succeeds |

## Left out

- Reflection: annotations, their methods and their attribute values are data (`Annotation`, `AttrMethod`, `Value`). Building the proxy instance in `overrideAttribute` is modelled by the attribute map it answers with.
- The JVM's order of `getMethods()` and `getAnnotations()` is taken to be the order of the sequences in the model.
- Cyclic meta-annotations, where a composed annotation ends up inside itself, are left out: an annotation in the model is a finite tree, so the expansion always terminates.
- `Utils.hasAnnotationAttribute` and `Utils.getAnnotationAttribute` are not part of this model. They are taken to mean that the attribute exists and its value has the required type.
- The tokenizer, `Reader`, `IOException` and CSV preferences are not modelled. The line number is taken to equal the row number, which holds for rows without embedded line breaks.
- `instantiateBean` and `MethodCache` are replaced by the initial bean of `Hooks`. A bean is a value (a map from field names to cells), so the aliasing of a bean mutated by callbacks is not captured.
- The exception converter, the message formatter, the callbacks and the record validators are functions given with the reader. `addValidator`, `setExceptionConverter` and the getters are not modelled; validators are fixed at construction.
- The two reader classes repeat the same record-reading code in the source, and the model repeats it as well. Both copies are proved against the same functions, so either class's behaviour is verified.
- `lines()` is modelled by its iterator class only. The `Stream` wrapper, its laziness and its spliterator are left out.
- `DecimalFormat` parsing, the pattern check of the `DecimalFormat` constructor (`validPattern`), `Locale`, `Currency.getInstance`, `Utils.getLocale`, `DecimalFormatSymbols.getInstance`, `Float.valueOf`, `Double.valueOf` and `new BigDecimal(String)` are functions of `NumberLibrary`. Floating-point values are bit patterns the library produces.
- NumberBuilder.ParseNumber: text is read as ASCII decimal digits with an optional `-` or `+` sign. The non-ASCII digits that `Integer.parseInt` accepts are read as format errors.
- NumberBuilder.ParseNumber: a formatter's `parse` is assumed to return a `BigDecimal` (`setParseBigDecimal(true)`). The NaN and infinite `Double` values `DecimalFormat` can return are not modelled.
- The processor objects built by `NumberCellProcessorBuilder` are modelled as a sequence of steps. Their own behaviour (`Range`, `Min`, `Max`, `ParseLocaleNumber`, `FormatLocaleNumber`, `ParseInt` and so on) and the Java interface casts such as `(StringCellProcessor)` are left out. A null caller processor is the empty chain.
- The type-specific builder classes `ByteCellProcessorBuilder` through `BigIntegerCellProcessorBuilder` share one parameterised model. The only differences between them are the parser step, the number type and the BigInteger reversal, and those are what `NumberKind` selects.
- Messages of the processing exceptions (the `MessageBuilder` texts) are left out except `InvalidAnnotation`'s, which keeps the source's format string. A reflection failure (`SuperCsvReflectionException`, src/main/java/com/github/mygreen/supercsv/builder/AnnotationExpander.java:365-369) is modelled only as the `AttributeAccess` error for a binding method that has no value on the composed annotation; the JVM's access checks and exceptions thrown by the invoked method are not modelled.

## Findings

| source | as written | input that shows it | evidently intended | confidence | as-written member | corrected member |
|---|---|---|---|---|---|---|
| src/main/java/com/github/mygreen/supercsv/io/AbstractCsvAnnotationBeanReader.java:104 | the record's context gets the processed columns left by the previous record as its row source (the same at CsvAnnotationBeanReader.java:286) | the first record of a file with one cell `1`: its row source is empty instead of `[1]` | the row source is the current record's cells, as the test helper at src/test/java/com/github/mygreen/supercsv/tool/TestUtils.java:463-466 builds it | medium, not executed | RowProcessing.ReadStep, RowProcessing.RowSourceStaleOnFirstRecord | RowProcessing.ReadStepIntended, RowProcessing.ReadStepAgreesWhenRowSourceUnused |
| src/main/java/org/supercsv/ext/builder/NumberCellProcessorBuilder.java:934-941 | the `BigInteger` reading chain gets `ParseBigInteger`, which ignores the pattern, when there is a formatter, and `ParseLocaleNumber` with a null formatter when there is none: the reverse of the other seven builders (e.g. :249-256) | a `BigInteger` field with `@CsvNumberConverter(pattern="#,##0")` is read by `ParseBigInteger`, so its pattern plays no part in reading | locale-aware parsing exactly when a pattern is given, as the later builder's test src/test/java/org/supercsv/ext/builder/impl/BigIntegerCellProcessorBuilderTest.java:174-183 expects `ParseBigInteger` for the field without a pattern | low, not executed | NumberBuilder.InputParser, NumberBuilder.InputParserReversedForBigInteger | NumberBuilder.InputParserIntended |
