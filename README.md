# A verified model of the While compiler's core

While is a small imperative teaching language: functions over `int`, `bool`,
`char`, `string`, lists, records, unions and named types, with `print`, `if`,
`while` and `for`. Its Java implementation parses a token list into a
syntax tree, checks types and definite assignment, and then either runs the
tree in an interpreter or translates it into x86 assembly. This project
models that core in Dafny and proves properties of the model:

* `grammar.dfy` (Grammar) and `parsers.dfy` (Parsers): the recursive-descent
  parser. Every parse routine is a function over the tokens, the declared
  type names and a cursor. The `Parser` class keeps the tokens, the type
  names and the cursor in fields, with one method per Java routine, and each
  method is proved to agree with its function. `precedence.dfy` proves how
  operators group. `printing.dfy` proves that a printed type parses back.
* `typing.dfy` (TypeRelations) and `checker.dfy` (TypeChecker): subtyping,
  equivalence, castability and the kind test over named types; the type of
  each expression and statement; the `Checker` class with its methods.
* `assignment.dfy` (DefiniteAssignment): the definite-assignment analysis as
  functions over name sets, plus the `Checker` class that mutates a
  `NameSet`.
* `values.dfy` (Values), `execution.dfy` (Execution) and `interpreter.dfy`
  (Interpreting): the interpreter's values and their printed form, the
  meaning of every expression and statement as a function, and the
  `Interpreter` class whose methods follow the Java and are proved to agree
  with those functions.
* `layout.dfy` (Layout), `descriptor.dfy` (TypeConstants), `x86.dfy` (X86),
  `emission.dfy` (Emission), `machine.dfy` (Machine) and `semantics.dfy`
  (CodeMeaning): the x86 back end. This covers value widths, stack frames and
  field offsets; the type descriptors the runtime library reads; and the
  instructions each construct emits, with fresh labels. A small machine fixes
  the meaning of the straight-line instructions the back end emits. The
  `translate` overloads are functions that take an `Emitter` value (code,
  data, label counter) and give back the extended one. `writer.dfy`
  (Writing) holds the writer's state in place: the `FileWriter` class keeps
  the instructions, the data constants and the label counter in fields. Its
  methods for freshLabel, writeToStack, readFromStack, addTypeConstant and
  allocateStackFrame follow the Java loops and are proved to leave the state
  or give the result that the Emission and Layout functions describe.
* `javaint.dfy` (JavaInt) and `strings.dfy` (Strings): Java's 32-bit `int`
  with truncating division, string order, stable sorting and decimal text.
* `syntax.dfy`, `wrappers.dfy`: the syntax tree, `Option`, `Result` and the
  error kinds.

Errors are values. A syntax error, an internal failure or a runtime
exception becomes an `Err` of a `Result`, with the Java message kind and no
source position.

Where the Java code holds a behaviour that looks unintended, the model has
it in two forms. It can be a function of an order or mode flag
(`TypeRelations.UnionOrder`, `Execution.Mode`). Or it can be a separate
`...AsWritten` function next to the corrected one. The as-written form comes
with a lemma showing the discrepancy, and the corrected one with the
intended property. The table under "## Findings" lists them. Everything else
is modelled as written, including these quirks:

* `null == x` throws in the interpreter, because the Java code calls
  `equals` on the left operand (Execution.Equality).
* Constants are never bound in the interpreter's frames, so reading one
  gives `null` (Execution.UnboundVariable).
* A declaration without an initialiser stores the EMPTY_SET sentinel, which
  prints as `[]` (Execution.ExecDeclare, Values.EmptyForms).
* A cast is not checked at run time (Execution.CastUnchecked).
* The emitted comparison compares HDI with the right operand rather than
  `target` (CodeMeaning.ComparisonComputes).
* `parseIndexTerm` reads the token after a term without an end-of-file
  check (Precedence.IndexTermAtEnd).
* `!` binds to a term before any postfix operator (Precedence.NotStep).
* Comparisons do not chain (Precedence.ComparisonsDoNotChain).
* `-`, `+`, `*`, `/`, `%` and `++` group to the right: each level parses
  its right operand as a whole expression of the same level
  (Precedence.MulDivStep, Precedence.AddSubStep, Precedence.AppendStep;
  Precedence.RightAssociative is the `a - b - c` instance).

## Model

| member | source | states |
|---|---|---|
| Interpreting.Interpreter.Run | src/whilelang/Interpreter.java:39-55 | registers every declaration under its name, a later one replacing an earlier one, then leaves on the console exactly the lines of Execution.Run, or fails with its error |
| Interpreting.Interpreter.ExecuteFunction | src/whilelang/Interpreter.java:66-85 | the argument-count check, the binding loop and the body give Execution.Call's value and console lines, or its error |
| Interpreting.Interpreter.ExecuteBlock | src/whilelang/Interpreter.java:87-95 | the loop over the block leaves the frame, the console and the signal that Execution.ExecBlock gives |
| Interpreting.Interpreter.ExecuteStatement | src/whilelang/Interpreter.java:106-127 | the dispatch on the statement kind agrees with Execution.Exec on frame, console and signal |
| Interpreting.Interpreter.ExecuteAssign | src/whilelang/Interpreter.java:129-157 | assignment to a variable, a record field or a list element agrees with Execution.Exec, errors included |
| Interpreting.Interpreter.AssignElement | src/whilelang/Interpreter.java:144-151 | the list-element case: source, index, right side, bounds check, agreeing with Execution.Exec |
| Interpreting.Interpreter.ExecuteFor | src/whilelang/Interpreter.java:159-169 | the declaration, then condition, body and increment until the condition fails or the body returns, agreeing with Execution.Exec |
| Interpreting.Interpreter.ExecuteWhile | src/whilelang/Interpreter.java:171-179 | the body while the condition holds, until it returns, agreeing with Execution.Exec |
| Interpreting.Interpreter.ExecuteIf | src/whilelang/Interpreter.java:181-188 | one branch or the other by the condition, agreeing with Execution.Exec |
| Interpreting.Interpreter.ExecuteReturn | src/whilelang/Interpreter.java:190-197 | the returned value, or EMPTY_SET for a bare return, agreeing with Execution.Exec; the frame is untouched |
| Interpreting.Interpreter.ExecuteDeclaration | src/whilelang/Interpreter.java:199-213 | stores a clone of the initialiser's value, or EMPTY_SET, agreeing with Execution.ExecDeclare |
| Interpreting.Interpreter.ExecutePrint | src/whilelang/Interpreter.java:215-219 | appends the value's text as one console line, agreeing with Execution.Exec |
| Interpreting.Interpreter.ExecuteInvoke | src/whilelang/Interpreter.java:121-122 | a call used as a statement: its value becomes the statement's result, agreeing with Execution.Exec in the chosen mode |
| Interpreting.Interpreter.constructor | src/whilelang/Interpreter.java:36-37 | an interpreter with no declarations and an empty console |
| Execution.AsBool | src/whilelang/Interpreter.java:262-265 | the `(Boolean)` cast succeeds exactly on a boolean, giving its value; null throws a null dereference |
| Execution.AsInt | src/whilelang/Interpreter.java:268-300 | the `(Integer)` cast succeeds exactly on an int, giving its value; null throws a null dereference |
| Execution.LiteralValue | src/whilelang/Interpreter.java:355-357 | a constant evaluates to its value, failing exactly on the real literals this model leaves out |
| Execution.Arith | src/whilelang/Interpreter.java:272-300 | `+ - * / %` on Java ints fail exactly when dividing by zero |
| Execution.IndexValue | src/whilelang/Interpreter.java:372-382 | indexing succeeds only with an int index |
| Execution.FieldValue | src/whilelang/Interpreter.java:394-397 | a field read succeeds exactly on a record; a missing field reads as null (HashMap.get); a null record throws |
| Execution.Bind | src/whilelang/Interpreter.java:77-82 | the frame of a call binds exactly the parameter names |
| Execution.Declarations | src/whilelang/Interpreter.java:41-44 | the declaration map has exactly the declared names |
| Execution.Eval | src/whilelang/Interpreter.java:230-255 | evaluating an expression only appends to the console |
| Execution.EvalBinary | src/whilelang/Interpreter.java:257-347 | evaluating a binary expression only appends to the console |
| Execution.EvalInvoke | src/whilelang/Interpreter.java:359-370 | evaluating a call only appends to the console |
| Execution.EvalList | src/whilelang/Interpreter.java:384-392 | a list constructor gives one value per element expression and only appends to the console |
| Execution.EvalFields | src/whilelang/Interpreter.java:399-408 | a record constructor only appends to the console |
| Execution.Call | src/whilelang/Interpreter.java:66-85 | a call only appends to the console |
| Execution.ExecBlock | src/whilelang/Interpreter.java:87-95 | a block only appends to the console |
| Execution.Exec | src/whilelang/Interpreter.java:106-127 | a statement only appends to the console |
| Execution.ExecDeclare | src/whilelang/Interpreter.java:199-213 | a declaration never returns and only appends to the console |
| Execution.ExecAssign | src/whilelang/Interpreter.java:129-157 | an assignment never returns and only appends to the console |
| Execution.EvalLocation | src/whilelang/Interpreter.java:137-151 | evaluating an assignment target's source only appends to the console |
| Execution.WhileLoop | src/whilelang/Interpreter.java:171-179 | a while loop only appends to the console |
| Execution.ForLoop | src/whilelang/Interpreter.java:159-169 | a for loop only appends to the console |
| Execution.Run | src/whilelang/Interpreter.java:39-55 | running a file keeps the lines printed before and only appends to them |
| Execution.MainLookup | src/whilelang/Interpreter.java:41-48 | the last declaration named main is the one `declarations.get("main")` finds |
| Execution.NoMain | src/whilelang/Interpreter.java:48-54 | without a function named main the run prints exactly the "Cannot find a main() function" line |
| Execution.BlockConcat | src/whilelang/Interpreter.java:87-95 | running a + b runs a, then b from where a left off unless a failed or returned |
| Execution.BareReturnLeavesBlock | src/whilelang/Interpreter.java:190-197 | `return;` leaves the block with EMPTY_SET and nothing after it runs |
| Execution.ShortCircuit | src/whilelang/Interpreter.java:262-265 | `false && r` and `true \|\| r` give the left operand without evaluating r |
| Execution.NoShortCircuit | src/whilelang/Interpreter.java:262-265 | otherwise the result is r's, which must be a boolean, or r's error |
| Execution.IntegerDivision | src/whilelang/Interpreter.java:290-300 | `/` and `%` truncate toward zero: they recombine to the dividend, the remainder is below the divisor and takes the dividend's sign, and a zero divisor throws |
| Execution.ArithmeticInRange | src/whilelang/Interpreter.java:272-300 | int arithmetic wraps within 32 bits |
| Execution.Equality | src/whilelang/Interpreter.java:302-305 | `==` is structural equality and `!=` its negation, symmetric on non-null operands; a null left operand throws |
| Execution.IndexWithinLength | src/whilelang/Interpreter.java:372-382 | indexing a string or list succeeds exactly below its `\|...\|` and throws an index error elsewhere |
| Execution.AppendText | src/whilelang/Interpreter.java:330-340 | `++` with a string on either side concatenates the printed forms of both operands |
| Execution.AppendIndex | src/whilelang/Interpreter.java:330-340 | `++` on two lists has the summed length, the left list's elements first, then the right list's |
| Execution.UnaryProperties | src/whilelang/Interpreter.java:410-432 | `!` is an involution; `-` is exact except at MIN, where it wraps to MIN; null throws |
| Execution.CastUnchecked | src/whilelang/Interpreter.java:349-353 | a cast evaluates to its operand and checks nothing |
| Execution.UnboundVariable | src/whilelang/Interpreter.java:434-436 | a variable missing from the frame reads as null |
| Execution.RecordConstructorKeys | src/whilelang/Interpreter.java:399-408 | a record constructor's record has exactly the constructor's field names |
| Execution.ContinuingStatement | src/whilelang/Interpreter.java:106-127 | assignments, prints and declarations never return |
| Execution.ForAsWhile | src/whilelang/Interpreter.java:159-179 | after its declaration, a for loop equals the while loop whose body ends with the increment, when the increment cannot return |
| Execution.IncrementAlone | src/whilelang/Interpreter.java:87-95 | a one-statement block that cannot return is that statement |
| Execution.ForReturnSkipsIncrement | src/whilelang/Interpreter.java:159-169 | a for loop whose body returns leaves without running the increment |
| Execution.WrongArgumentCount | src/whilelang/Interpreter.java:68-73 | a call with the wrong number of arguments throws before the body runs |
| Execution.BindByPosition | src/whilelang/Interpreter.java:77-82 | distinct parameters are bound to the arguments by position |
| Execution.LocationValue | src/whilelang/Interpreter.java:137-151 | the source of a field or element target evaluates as the expression itself does, on value, output and error |
| Execution.LocationRoot | src/whilelang/Interpreter.java:137-151 | a target's location exists exactly when the target is reached from a variable, and starts at that variable |
| Execution.AssignChangesOnlyRoot | src/whilelang/Interpreter.java:129-157 | an assignment changes at most the variable its target is reached from |
| Execution.UpdateThenRead | src/whilelang/Interpreter.java:137-151 | after an update along an existing path of fields and indices, the path reads the new value |
| Values.DeepClone | src/whilelang/Interpreter.java:448-467 | the clone equals the value it copies, list element by element and record field by field |
| Values.ToText | src/whilelang/Interpreter.java:479-510 | toString gives Show(v) |
| Values.ListText | src/whilelang/Interpreter.java:480-489 | the loop over a list's elements gives Show(v) |
| Values.RecordText | src/whilelang/Interpreter.java:490-503 | sorting the copied key set and looping over the fields gives Show(v) |
| Values.FieldsText | src/whilelang/Interpreter.java:496-502 | the field loop joins `name:value` for each field with a comma |
| Values.SortedFieldNames | src/whilelang/Interpreter.java:494-495 | copying the key set and sorting it gives the keys in strictly ascending order |
| Values.KeyList | src/whilelang/Interpreter.java:494 | `new ArrayList(keySet())` holds each key exactly once |
| Values.SortedNames | src/whilelang/Interpreter.java:495 | any stable sort of the distinct keys gives SortedKeys |
| Values.SortedKeys | src/whilelang/Interpreter.java:494-495 | the keys of a record, each once, in strictly ascending order |
| Values.SortedUnique | src/whilelang/Interpreter.java:494-495 | two strictly sorted sequences with the same elements are equal, so a record prints independently of its map's iteration order |
| Values.ShowElements | src/whilelang/Interpreter.java:480-489 | a list's printed parts are the printed forms of its elements, in order |
| Values.ShowFields | src/whilelang/Interpreter.java:496-502 | a record's printed parts are `key:value` for its keys, in order |
| Values.JoinAppend | src/whilelang/Interpreter.java:480-502 | joining two non-empty runs puts one separator between them |
| Values.ShowRecordByFields | src/whilelang/Interpreter.java:490-503 | records with the same keys whose fields print alike print alike |
| Values.EmptyForms | src/whilelang/Interpreter.java:480-503 | EMPTY_SET and the empty list print as `[]`, the empty record as `{}` |
| Values.ShowSingleField | src/whilelang/Interpreter.java:490-503 | a one-field record prints as `{name:text}` |
| Execution.ReturnLeavesBlock | src/whilelang/Interpreter.java:190-197 | corrected: `return e;` leaves the block with e's value, whatever that value is, and nothing after it runs |
| Execution.ReturnNullContinuesAsWritten | src/whilelang/Interpreter.java:87-95 | as written, `return e;` with a null value does not stop the block: the statements after it run |
| Execution.InvokeStatementReturnsAsWritten | src/whilelang/Interpreter.java:121-122 | as written, a call used as a statement whose callee returns a non-null value ends the calling block with that value |
| Execution.InvokeStatementContinues | src/whilelang/Interpreter.java:121-122 | corrected: a call used as a statement discards its result and the block goes on |
| Layout.AlignedStackWidth | src/whilelang/io/X86FileWriter.java:1047-1057 | on x86_64 MacOS the least multiple of 16 not below the minimum; elsewhere the minimum itself |
| Layout.WidthIsWordMultiple | src/whilelang/io/X86FileWriter.java:1068-1102 | every width is a whole number of machine words |
| Layout.FieldsWidthIsWordMultiple | src/whilelang/io/X86FileWriter.java:1073-1079 | a record's width is a whole number of machine words |
| Layout.BoundsWidthIsWordMultiple | src/whilelang/io/X86FileWriter.java:1086-1095 | a union's width is a whole number of machine words |
| Layout.FieldsWidthAppend | src/whilelang/io/X86FileWriter.java:1073-1079 | the width of two runs of fields is the sum of their widths, and it exists exactly when both do |
| Layout.FieldsWidthPermutation | src/whilelang/io/X86FileWriter.java:1073-1079 | a record's width does not depend on the HashMap order of its fields |
| Layout.SortedFields | src/whilelang/io/X86FileWriter.java:759-765 | sortFields returns a permutation of the fields |
| Layout.SortedFieldsOrdered | src/whilelang/io/X86FileWriter.java:759-765 | sortFields orders the fields by name |
| Layout.DistinctNamesPermutation | src/whilelang/io/X86FileWriter.java:759-765 | reordering a record's fields keeps their names distinct |
| Layout.ScanStep | src/whilelang/io/X86FileWriter.java:1125-1145 | one step of the corrected offset loop: the last field steps over its own width |
| Layout.ScanIsSuffixWidth | src/whilelang/io/X86FileWriter.java:1125-1145 | the corrected loop stops at a field after stepping over the width of that field and of every field after it |
| Layout.FieldOffsetIsPrefixWidth | src/whilelang/io/X86FileWriter.java:1125-1145 | corrected: a field's offset is the total width of the fields whose names sort before it |
| Layout.FieldOffsetUniform | src/whilelang/io/X86FileWriter.java:1125-1145 | corrected: with all fields k bytes wide, the p-th field in name order sits at p * k |
| Layout.FieldOffsetAsWrittenUniform | src/whilelang/io/X86FileWriter.java:1125-1145 | as written, with all fields the same width, the loop agrees with the corrected offset |
| Layout.FieldOffsetAsWrittenMisplacesWideField | src/whilelang/io/X86FileWriter.java:1138 | as written, a two-word field `a` before a one-word field `b` is placed at -8; the corrected offset is 0 |
| Layout.ParameterOffsetsAdjacent | src/whilelang/io/X86FileWriter.java:943-967 | parameter slots are adjacent, in order, and together fill exactly the parameter area below its top |
| Layout.ParameterOffsetsShift | src/whilelang/io/X86FileWriter.java:943-967 | moving the top of the parameter area moves every slot by the same amount |
| Layout.CallerCalleeAgree | src/whilelang/io/X86FileWriter.java:647-690 | each argument the caller stores lies inside the area it reserved, at the address where the callee's frame, two words lower, reads that parameter; the same holds for the return slot |
| Layout.BindParametersSlots | src/whilelang/io/X86FileWriter.java:943-967 | every parameter is bound to its slot, the offset ends below the whole parameter area, and no other name changes |
| Layout.DeclareLocalKeepsWidest | src/whilelang/io/X86FileWriter.java:1001-1035 | a declaration keeps, for its name, the wider of the old and the new type |
| Layout.KeepsWidestCompose | src/whilelang/io/X86FileWriter.java:1001-1035 | keeping the widest type composes over consecutive runs of declarations |
| Layout.LocalVariableTypesKeepWidest | src/whilelang/io/X86FileWriter.java:1001-1035 | extractLocalVariableTypes keeps, for each local, the widest type it is declared with in the block |
| Layout.StmtLocalsKeepWidest | src/whilelang/io/X86FileWriter.java:1001-1035 | the same for one statement and the blocks nested in it |
| Layout.LocalsLayoutCount | src/whilelang/io/X86FileWriter.java:969-991 | the locals loop ends with the count grown by the width of all locals |
| Layout.LocalsLayoutSlots | src/whilelang/io/X86FileWriter.java:969-991 | the locals get disjoint slots between the starting and the final count below the frame pointer; names not placed keep their offsets |
| Layout.LocalsWidthAppend | src/whilelang/io/X86FileWriter.java:969-991 | the width of two runs of locals is the sum of their widths |
| Layout.LocalsWidthPermutation | src/whilelang/io/X86FileWriter.java:969-991 | the space the locals take does not depend on the HashMap order they are visited in |
| Layout.ParameterFrameSlots | src/whilelang/io/X86FileWriter.java:943-967 | parameters and the return slot sit where the caller stored the arguments and reserved the result, above the two linkage words, and the parameter frame holds no other name |
| Layout.StackFrameLocals | src/whilelang/io/X86FileWriter.java:943-991 | every local has its own slot below the frame pointer, inside the reserved (aligned) area, overriding the parameter frame's entry of its name; the frame holds no other name |
| Layout.LocalsPlaced | src/whilelang/io/X86FileWriter.java:969-991 | the locals loop from count 0 places every local inside the aligned area, in disjoint slots |
| Layout.StackFrameSizeIndependentOfOrder | src/whilelang/io/X86FileWriter.java:943-991 | the size of the locals area does not depend on the order the locals are visited in |
| TypeConstants.CanonicalFields | src/whilelang/io/X86FileWriter.java:1192-1206 | a record's fields in canonical form keep their names, one for one |
| TypeConstants.CanonicalIsDescribable | src/whilelang/io/X86FileWriter.java:1177-1216 | a type with its names resolved is one addTypeConstant can encode: no void inside a compound nor a union, and fields sorted by name |
| TypeConstants.ResolvedIsDescribable | src/whilelang/io/X86FileWriter.java:1147-1155 | the same after unwrap resolves a name |
| TypeConstants.FieldsAreDescribable | src/whilelang/io/X86FileWriter.java:1192-1206 | every canonical field type is encodable |
| TypeConstants.DecodeType | src/whilelang/io/X86FileWriter.java:1177-1216 | reading one descriptor back from the front of the data, the inverse of addTypeConstant, consumes at least one item |
| TypeConstants.DecodeRecord | src/whilelang/io/X86FileWriter.java:1192-1206 | reading a record descriptor back consumes at least one item |
| TypeConstants.DecodeList | src/whilelang/io/X86FileWriter.java:1208-1211 | reading a list descriptor back consumes at least one item |
| TypeConstants.DecodeFields | src/whilelang/io/X86FileWriter.java:1201-1207 | reading the fields of a record descriptor back never grows the input |
| TypeConstants.EncodeRoundTrip | src/whilelang/io/X86FileWriter.java:1177-1216 | decoding an encoding from the front of any data gives back the type and leaves the rest |
| TypeConstants.FieldsRoundTrip | src/whilelang/io/X86FileWriter.java:1192-1206 | decoding the encoded fields gives back the fields and leaves the rest |
| TypeConstants.DescriptorRoundTrip | src/whilelang/io/X86FileWriter.java:1177-1216 | a descriptor exists exactly when the canonical type does, and decoding it gives back that type |
| TypeConstants.EncodeLabelsFirstItem | src/whilelang/io/X86FileWriter.java:1177-1216 | only the first item of a descriptor carries the label it is given |
| TypeConstants.FieldLabelsNone | src/whilelang/io/X86FileWriter.java:1201-1207 | the items of the encoded fields carry no label |
| X86.Word | src/whilelang/io/X86FileWriter.java:1218-1233 | a natural word is a 32-bit Long on x86_32 and a 64-bit Quad otherwise, with the given label and value |
| X86.WordValue | src/whilelang/io/X86FileWriter.java:1218-1233 | a data item has a natural word value exactly when it is some natural word of the target |
| CodeMeaning.JumpForHolds | src/whilelang/io/X86FileWriter.java:523-547 | after `cmp y, x` the chosen conditional jump is taken exactly when the comparison holds of x and y |
| CodeMeaning.CompareAndBranchLabels | src/whilelang/io/X86FileWriter.java:521-555 | the true label is the fifth instruction of a comparison, and the exit label the seventh |
| CodeMeaning.ComparisonComputes | src/whilelang/io/X86FileWriter.java:512-557 | a comparison leaves 1 in target when it holds of HDI and the right operand and 0 otherwise, changing no other register and no memory |
| CodeMeaning.UnaryComputes | src/whilelang/io/X86FileWriter.java:767-793 | `!` maps an even value to 1 and an odd one to 0, `-` negates, and nothing else changes |
| CodeMeaning.ArithmeticComputes | src/whilelang/io/X86FileWriter.java:472-483 | `+`, `-` and `*` leave `target op rhsTarget` in target |
| CodeMeaning.ReadFromStackComputes | src/whilelang/io/X86FileWriter.java:894-920 | running readFromStack's code puts a primitive's value, read `offset` bytes off `source`, into target, and a compound's address `source + offset` into target; no other register, no memory word and no data item changes |
| CodeMeaning.IntVariableCode | src/whilelang/io/X86FileWriter.java:795-813 | an int variable is one load from its slot off the frame pointer |
| CodeMeaning.SampleSumCode | src/whilelang/io/X86FileWriter.java:440-475 | `b + c` with the right operand in rhsTarget is two loads and one add |
| CodeMeaning.AddCode | src/whilelang/io/X86FileWriter.java:472-475 | integer addition is one add |
| CodeMeaning.SumAsWrittenOverwritesLeft | src/whilelang/io/X86FileWriter.java:454 | as written, `b + c` into HBX also computes c into HBX and leaves 4, not 3 |
| CodeMeaning.SumComputes | src/whilelang/io/X86FileWriter.java:440-475 | corrected, `b + c` computes c into HCX and leaves 3 in HBX |
| CodeMeaning.SampleRun | src/whilelang/io/X86FileWriter.java:440-475 | the sample code gives 3 with the right operand in HCX and 4 with it over the left operand |
| CodeMeaning.RhsRegisterSeparate | src/whilelang/io/X86FileWriter.java:454-457 | corrected, the right operand is never computed into the register holding the left one, and the free registers passed on exclude both |
| Emission.RemoveFirst | src/whilelang/io/X86FileWriter.java:455-457 | List.remove(Object) removes one occurrence when there is one and nothing otherwise, keeping every other register |
| Emission.RemoveFirstNoDuplicates | src/whilelang/io/X86FileWriter.java:455-457 | on a list without duplicates the removed register is gone entirely and no duplicates appear |
| Emission.RhsRegisterAsWritten | src/whilelang/io/X86FileWriter.java:454 | as written, the right operand goes into the first free register, whichever it is |
| Emission.RhsRegister | src/whilelang/io/X86FileWriter.java:454-457 | corrected, the right operand goes into the first register left free once the left operand's is removed, never the left operand's |
| Emission.GrowsFresh | src/whilelang/io/X86FileWriter.java:1159-1161 | freshLabel draws a label no earlier code defined and advances the counter |
| Emission.LoopGrows | src/whilelang/io/X86FileWriter.java:241-268 | a loop's head and exit labels, drawn first, are fresh, and so are those of the code in between |
| Emission.ForGrows | src/whilelang/io/X86FileWriter.java:241-268 | the same for the for loop's declaration, condition, body and increment |
| Emission.CopySlots | src/whilelang/io/X86FileWriter.java:864-875 | the copy loop of writeToStack is a load-store pair per word |
| Emission.CopySlotsAt | src/whilelang/io/X86FileWriter.java:864-875 | the k-th pair moves the word k + 1 words below the starting offsets through HAX |
| Emission.CopySlotsCopiesWords | src/whilelang/io/X86FileWriter.java:864-875 | the copy moves every word of the value once, from the highest to the lowest |
| Emission.WriteToStackCode | src/whilelang/io/X86FileWriter.java:834-877 | writeToStack succeeds exactly when the type resolves and is primitive or has a width; it emits code only, with fresh labels |
| Emission.WriteToStackShape | src/whilelang/io/X86FileWriter.java:834-877 | a primitive is one store of HDI, and a compound value the word-by-word copy |
| Emission.ReadFromStackCode | src/whilelang/io/X86FileWriter.java:894-920 | readFromStack succeeds exactly when the type resolves, and only appends code, with fresh labels; what the code computes is stated by CodeMeaning.ReadFromStackComputes |
| Emission.AddTypeConstant | src/whilelang/io/X86FileWriter.java:1177-1216 | addTypeConstant succeeds exactly when the canonical type exists; it appends data only, decoding back to the type, and defines just its own label |
| Emission.DescriptorNames | src/whilelang/io/X86FileWriter.java:1177-1216 | a descriptor defines only the label it is given |
| Emission.TypeConstantGrows | src/whilelang/io/X86FileWriter.java:575-576 | a type constant under a freshly drawn label adds only that label |
| Emission.ExprCode | src/whilelang/io/X86FileWriter.java:401-438 | translating an expression only appends code and data, and every label it adds is freshly drawn |
| Emission.BinaryCode | src/whilelang/io/X86FileWriter.java:440-602 | the same for a binary expression |
| Emission.BinaryTail | src/whilelang/io/X86FileWriter.java:454-602 | the same for the right operand and the operator |
| Emission.ArithmeticCode | src/whilelang/io/X86FileWriter.java:464-511 | the arithmetic and logical operators define no label |
| Emission.OperatorCode | src/whilelang/io/X86FileWriter.java:463-601 | an operator adds only fresh labels |
| Emission.ComparisonCode | src/whilelang/io/X86FileWriter.java:512-557 | a comparison's two labels are freshly drawn |
| Emission.ComparisonLabels | src/whilelang/io/X86FileWriter.java:521-555 | a comparison defines its two labels and no other |
| Emission.AppendCode | src/whilelang/io/X86FileWriter.java:558-598 | string append adds only fresh labels, the type descriptor's included |
| Emission.ConstantCode | src/whilelang/io/X86FileWriter.java:604-633 | a constant adds only fresh labels |
| Emission.InvokeCode | src/whilelang/io/X86FileWriter.java:647-690 | a call adds only fresh labels |
| Emission.ArgumentsCode | src/whilelang/io/X86FileWriter.java:665-673 | the argument loop adds only fresh labels |
| Emission.RecordAccessCode | src/whilelang/io/X86FileWriter.java:698-713 | a record access adds only fresh labels |
| Emission.SortedInits | src/whilelang/io/X86FileWriter.java:759-765 | the initialisers sorted by name are a permutation of them |
| Emission.RecordConstructorCode | src/whilelang/io/X86FileWriter.java:715-757 | a record constructor adds only fresh labels |
| Emission.FieldInitsCode | src/whilelang/io/X86FileWriter.java:737-745 | the field loop adds only fresh labels |
| Emission.UnaryCode | src/whilelang/io/X86FileWriter.java:767-793 | a unary expression adds only fresh labels |
| Emission.UnaryOperatorCode | src/whilelang/io/X86FileWriter.java:777-789 | `!` and `-` define no label |
| Emission.VariableCode | src/whilelang/io/X86FileWriter.java:795-813 | a variable read adds only fresh labels |
| Emission.StmtsCode | src/whilelang/io/X86FileWriter.java:152-158 | a block only appends code and data, with fresh labels |
| Emission.StmtCode | src/whilelang/io/X86FileWriter.java:170-195 | a statement only appends code and data, with fresh labels |
| Emission.ForCode | src/whilelang/io/X86FileWriter.java:241-268 | a for loop adds only fresh labels |
| Emission.WhileCode | src/whilelang/io/X86FileWriter.java:353-375 | a while loop adds only fresh labels |
| Emission.PrintCode | src/whilelang/io/X86FileWriter.java:277-299 | a print adds only fresh labels |
| Emission.AssignCode | src/whilelang/io/X86FileWriter.java:197-239 | an assignment adds only fresh labels |
| Emission.DeclCode | src/whilelang/io/X86FileWriter.java:330-351 | a declaration adds only fresh labels |
| Emission.ReturnCode | src/whilelang/io/X86FileWriter.java:301-328 | a return ends with a jump to the function's exit label, writes a value only when the frame has a return slot, and adds only fresh labels |
| Emission.ReturnValueCode | src/whilelang/io/X86FileWriter.java:307-318 | the returned value goes to the return slot "$", with fresh labels |
| Emission.FunctionCode | src/whilelang/io/X86FileWriter.java:97-142 | translating a function adds only fresh labels |
| Emission.FunctionGrows | src/whilelang/io/X86FileWriter.java:97-142 | the exit label, drawn after the prologue and defined by the epilogue after the body, is fresh |
| Emission.EpilogueDefs | src/whilelang/io/X86FileWriter.java:130-141 | the epilogue defines the exit label and no other |
| Emission.FunctionExitLabel | src/whilelang/io/X86FileWriter.java:97-142 | a translated function begins with its prologue and ends with the epilogue defining its exit label, which nothing before the epilogue defines |
| Emission.FunctionsCode | src/whilelang/io/X86FileWriter.java:56-82 | the functions in file order add only fresh labels |
| Emission.BuildCode | src/whilelang/io/X86FileWriter.java:56-82 | build draws every local label it defines or names from the counter, which only grows, and ends with the main launcher |
| Emission.BuildLabels | src/whilelang/io/X86FileWriter.java:56-82 | the whole file's local labels lie in the range the counter handed out, and the launcher comes last |
| Writing.FileWriter.constructor | src/whilelang/io/X86FileWriter.java:56-71 | a writer over the given target and declarations, holding the given instructions, data constants and label counter |
| Writing.FileWriter.FreshLabel | src/whilelang/io/X86FileWriter.java:1157-1161 | the label the static counter names is returned and the counter advances by one, as Emission.FreshLabel says; code and data are unchanged |
| Writing.FileWriter.WriteToStack | src/whilelang/io/X86FileWriter.java:834-877 | succeeds exactly when Emission.WriteToStackCode does, and then leaves the instructions it gives; on an error nothing is appended |
| Writing.FileWriter.CopyToStack | src/whilelang/io/X86FileWriter.java:858-875 | the slot loop appends exactly Emission.CopySlots for `width / word` words, from the highest word down; data and counter unchanged |
| Writing.CopyStep | src/whilelang/io/X86FileWriter.java:864-875 | each pass of the slot loop appends the load into HAX and the store of the next word down, and what is left of the copy is the copy of the remaining words |
| Writing.FileWriter.ReadFromStack | src/whilelang/io/X86FileWriter.java:894-920 | succeeds exactly when Emission.ReadFromStackCode does, and then leaves the instructions it gives; on an error nothing is appended |
| Writing.FileWriter.AddTypeConstant | src/whilelang/io/X86FileWriter.java:1177-1216 | succeeds exactly when Emission.AddTypeConstant does, and then leaves the data constants it gives; on an error nothing is appended |
| Writing.FileWriter.AllocateStackFrame | src/whilelang/io/X86FileWriter.java:943-991 | the map and aligned locals size are those of Layout.StackFrame, so ParameterFrameSlots, StackFrameLocals and LocalsPlaced hold of them |
| Writing.FileWriter.AllocateParameters | src/whilelang/io/X86FileWriter.java:943-964 | the parameter loop and the return slot build Layout.ParameterFrame's map |
| Writing.FileWriter.AllocateLocals | src/whilelang/io/X86FileWriter.java:979-986 | the locals loop builds Layout.LocalsLayout's map and count from count 0 |
| JavaInt.Wrap | src/whilelang/Interpreter.java:272-288 | the 32-bit value an integer wraps to: in range, congruent modulo 2^32, and the integer itself when in range |
| JavaInt.Div | src/whilelang/Interpreter.java:290-294 | Java `/` is the quotient rounded toward zero when it fits |
| JavaInt.NegExact | src/whilelang/io/Parser.java:615-632 | negating an int other than MIN is exact |
| JavaInt.NegMin | src/whilelang/io/Parser.java:615-632 | negating MIN gives MIN |
| JavaInt.RemProperties | src/whilelang/Interpreter.java:290-300 | the truncated quotient and remainder recombine to the dividend, and the remainder is below the divisor and takes the dividend's sign |
| JavaInt.TruncationExamples | src/whilelang/Interpreter.java:290-300 | `7 / -2 == -3`, `7 % -2 == 1`, `-7 / 2 == -3`, `-7 % 2 == -1`, `-7 / -2 == 3` and `-7 % -2 == -1` |
| Strings.LessIrreflexive | src/whilelang/io/X86FileWriter.java:759-765 | String.compareTo's order is irreflexive |
| Strings.LessTransitive | src/whilelang/io/X86FileWriter.java:759-765 | the order is transitive |
| Strings.LessTotal | src/whilelang/io/X86FileWriter.java:759-765 | the order is total |
| Strings.LessAsymmetric | src/whilelang/io/X86FileWriter.java:759-765 | the order is asymmetric |
| Strings.InsertBy | src/whilelang/io/X86FileWriter.java:759-765 | insertion adds exactly the one element |
| Strings.SortBy | src/whilelang/io/X86FileWriter.java:759-765 | the stable sort returns a permutation |
| Strings.InsertBySorted | src/whilelang/io/X86FileWriter.java:759-765 | insertion into a sorted sequence keeps it sorted |
| Strings.SortBySorted | src/whilelang/io/X86FileWriter.java:759-765 | the sort orders its result by key |
| Strings.Digits | src/whilelang/Interpreter.java:504-506 | the decimal digits of a natural number are a non-empty run of digits |
| Strings.Decimal | src/whilelang/Interpreter.java:504-506 | an int's text starts with `-` exactly when it is negative, and with a digit otherwise |
| Strings.DigitsRoundTrip | src/whilelang/Interpreter.java:504-506 | reading the digits of n back gives n |
| TypeRelations.CheckSubtype | src/whilelang/util/TypeChecker.java:459-464 | checkSubtype succeeds exactly when t2 is a subtype of t1 |
| TypeRelations.InstanceOf | src/whilelang/util/TypeChecker.java:392-449 | checkInstanceOf gives a type of one of the asked kinds, and a type without a name unchanged |
| TypeRelations.PrimitiveSubtyping | src/whilelang/util/TypeChecker.java:475-488 | void is a subtype of every type, and among the primitive kinds subtyping is equality |
| TypeRelations.ListCovariant | src/whilelang/util/TypeChecker.java:489-495 | lists are covariant in their element type |
| TypeRelations.RecordSubtyping | src/whilelang/util/TypeChecker.java:496-509 | records need identical key sets, and then each field of the one must be a subtype of the other's field of that name |
| TypeRelations.FieldsSubAll | src/whilelang/util/TypeChecker.java:501-505 | the field loop holds exactly when every field passes |
| TypeRelations.UnionSupertype | src/whilelang/util/TypeChecker.java:528-535 | with a union supertype, some bound must be a supertype |
| TypeRelations.SomeBoundExists | src/whilelang/util/TypeChecker.java:528-535 | the bound loop of a union supertype holds exactly when some bound passes |
| TypeRelations.UnionSubtype | src/whilelang/util/TypeChecker.java:536-542 | with a union subtype, every bound must be a subtype |
| TypeRelations.EveryBoundAll | src/whilelang/util/TypeChecker.java:536-542 | the bound loop of a union subtype holds exactly when every bound passes |
| TypeRelations.EquivalentSymmetric | src/whilelang/util/TypeChecker.java:558-560 | equivalence is subtyping both ways, and symmetric |
| TypeRelations.PlainDecided | src/whilelang/util/TypeChecker.java:474-547 | without named types subtyping always reaches a verdict |
| TypeRelations.FieldsDecided | src/whilelang/util/TypeChecker.java:501-505 | the same for the field loop |
| TypeRelations.SomeBoundDecided | src/whilelang/util/TypeChecker.java:528-535 | the same for some bound of a union |
| TypeRelations.EveryBoundDecided | src/whilelang/util/TypeChecker.java:536-542 | the same for every bound of a union |
| TypeRelations.LookupDistinct | src/whilelang/util/TypeChecker.java:503 | with distinct names, looking up a field's name finds that field's type |
| TypeRelations.SubtypeReflexive | src/whilelang/util/TypeChecker.java:474-547 | corrected: with the union subtype examined first, every type without names is a subtype of itself |
| TypeRelations.BoundBelowUnion | src/whilelang/util/TypeChecker.java:528-542 | corrected: a union is a supertype of whatever one of its bounds is a supertype of |
| TypeRelations.UnionAsWritten | src/whilelang/util/TypeChecker.java:528-542 | as written, `int\|bool` is not a subtype of itself, and `int\|null` and `null\|int` are not equivalent |
| TypeRelations.RecursiveTypeRefused | src/whilelang/util/TypeChecker.java:510-535 | a record field that meets the recursive name `L` a second time is refused with the StackOverflow error in both union orders, where the checker resolves `L` again |
| TypeRelations.UnionOrderIrrelevant | src/whilelang/util/TypeChecker.java:549-560 | corrected: `int\|null` and `null\|int` are equivalent, as the doc comment says |
| TypeRelations.PrimitiveCast | src/whilelang/util/TypeChecker.java:573-586 | among the primitive kinds a cast needs equal kinds, or int to real |
| TypeRelations.RecordCastKeys | src/whilelang/util/TypeChecker.java:593-606 | a cast between records with different key sets is an error |
| TypeRelations.CastExtendsSubtype | src/whilelang/util/TypeChecker.java:572-628 | on types without unions and void every subtyping is a permitted cast |
| TypeRelations.FieldsCastExtends | src/whilelang/util/TypeChecker.java:598-601 | the same for the field loop |
| TypeRelations.IntToReal | src/whilelang/util/TypeChecker.java:581-583 | a cast from int to real is accepted though int is not a subtype of real |
| TypeChecker.ExprType | src/whilelang/util/TypeChecker.java:152-185 | check(Expr) sets the checked node's type attribute to the type it returns, and changes nothing else in the expression |
| TypeChecker.OperatorType | src/whilelang/util/TypeChecker.java:187-242 | apart from `++` the operands must be equivalent; comparisons give bool; arithmetic and logic give the left operand's type; arithmetic and order need int or real; `&&` and `\|\|` need bool |
| TypeChecker.SameType | src/whilelang/util/TypeChecker.java:187-242 | the operand check succeeds exactly when the two types are equivalent |
| TypeChecker.BinaryType | src/whilelang/util/TypeChecker.java:187-242 | a binary expression keeps its shape once annotated; BinaryRule states its type |
| TypeChecker.CastType | src/whilelang/util/TypeChecker.java:244-248 | a cast has the type it names |
| TypeChecker.IndexOfType | src/whilelang/util/TypeChecker.java:271-282 | an index expression keeps its shape once annotated; IndexOfRule states its type |
| TypeChecker.InvokeType | src/whilelang/util/TypeChecker.java:284-298 | a call has its function's return type and as many arguments as parameters; an unknown function and a wrong number of arguments are errors |
| TypeChecker.ArgumentsType | src/whilelang/util/TypeChecker.java:290-296 | the arguments keep their shape once annotated |
| TypeChecker.ListType | src/whilelang/util/TypeChecker.java:300-330 | a list constructor has a list type |
| TypeChecker.ElementsType | src/whilelang/util/TypeChecker.java:302-309 | one typed element per element expression, each keeping its shape |
| TypeChecker.RecordAccessType | src/whilelang/util/TypeChecker.java:332-341 | a record access keeps its shape once annotated; RecordAccessRule states its type |
| TypeChecker.RecordType | src/whilelang/util/TypeChecker.java:343-352 | a record constructor has a record type |
| TypeChecker.InitsType | src/whilelang/util/TypeChecker.java:345-350 | one checked initialiser per initialiser, each keeping its shape |
| TypeChecker.UnaryType | src/whilelang/util/TypeChecker.java:354-370 | a unary expression keeps its shape once annotated; UnaryRule states its type |
| TypeChecker.StmtsType | src/whilelang/util/TypeChecker.java:64-68 | a block keeps every name of the environment and checks every statement |
| TypeChecker.StmtType | src/whilelang/util/TypeChecker.java:70-90 | a statement keeps every name of the environment |
| TypeChecker.DeclType | src/whilelang/util/TypeChecker.java:93-102 | a declaration of a name already declared is an error; otherwise the name gets the declared type |
| TypeChecker.IfElseType | src/whilelang/util/TypeChecker.java:123-128 | both branches on the one environment, which only grows |
| TypeChecker.ForTypeAsWritten | src/whilelang/util/TypeChecker.java:130-144 | as written, the enclosing environment keeps the loop variable |
| TypeChecker.ForType | src/whilelang/util/TypeChecker.java:130-144 | corrected: the enclosing environment is left as it was |
| TypeChecker.ForRest | src/whilelang/util/TypeChecker.java:137-143 | condition, increment and body of a for loop make a for loop again |
| TypeChecker.WhileType | src/whilelang/util/TypeChecker.java:146-150 | a while loop keeps every name of the environment |
| TypeChecker.FunctionType | src/whilelang/util/TypeChecker.java:49-62 | a checked function keeps its name, return type, parameters and number of statements |
| TypeChecker.DeclsType | src/whilelang/util/TypeChecker.java:42-46 | every declaration keeps its name and kind |
| TypeChecker.FileType | src/whilelang/util/TypeChecker.java:27-47 | a checked file keeps its number of declarations |
| TypeChecker.OperatorExamples | src/whilelang/util/TypeChecker.java:187-242 | `int + int` is int, `int < int` is bool, `bool && bool` is bool, `int + bool` is refused, `int && int` is an error |
| TypeChecker.KeptSurvivors | src/whilelang/util/TypeChecker.java:311-327 | the simplification keeps exactly the element types not equivalent to a later one |
| TypeChecker.AllEquivalentKeepsLast | src/whilelang/util/TypeChecker.java:311-327 | when all element types are equivalent only the last remains and the list type is a list of it |
| TypeChecker.EmptyListType | src/whilelang/util/TypeChecker.java:300-330 | an empty list constructor is a list of void |
| TypeChecker.UnknownVariable | src/whilelang/util/TypeChecker.java:372-380 | a variable outside the environment is an error |
| TypeChecker.BinaryRule | src/whilelang/util/TypeChecker.java:187-242 | an accepted binary expression has the type the operator's rule gives its operands' types |
| TypeChecker.CastRule | src/whilelang/util/TypeChecker.java:244-248 | an accepted cast has the type it names, and its source may be cast to that type |
| TypeChecker.IndexOfRule | src/whilelang/util/TypeChecker.java:271-282 | in an accepted index expression the index is a subtype of int; a string gives char, a list its element type |
| TypeChecker.ArgumentsTyped | src/whilelang/util/TypeChecker.java:292-296 | every checked argument has a subtype of its parameter's type |
| TypeChecker.InvokeRule | src/whilelang/util/TypeChecker.java:284-298 | an accepted call names a known function with as many arguments as parameters, each argument a subtype of its parameter, and has the function's return type |
| TypeChecker.ElementsTyped | src/whilelang/util/TypeChecker.java:303-305 | each checked element is its element expression, checked |
| TypeChecker.ListRule | src/whilelang/util/TypeChecker.java:300-330 | every element of an accepted list constructor is accepted, and the constructor has a list type |
| TypeChecker.RecordAccessRule | src/whilelang/util/TypeChecker.java:332-341 | a record without the field is an error, and a record access has the field's type |
| TypeChecker.InitsTyped | src/whilelang/util/TypeChecker.java:347-349 | each checked initialiser keeps its field name and holds its value, checked |
| TypeChecker.PutFieldLookup | src/whilelang/util/TypeChecker.java:348 | putting a field gives that name the new type and leaves every other name as it was |
| TypeChecker.PutFieldsAppend | src/whilelang/util/TypeChecker.java:347-349 | putting the initialisers one after another is putting the last one on what the others give |
| TypeChecker.PutFieldsLookup | src/whilelang/util/TypeChecker.java:343-352 | like HashMap.put, a field's type is that of its last initialiser |
| TypeChecker.RecordFieldTypes | src/whilelang/util/TypeChecker.java:343-352 | the type of an accepted record constructor gives each field the type of the last initialiser of that name |
| TypeChecker.UnaryRule | src/whilelang/util/TypeChecker.java:354-370 | negation keeps a numeric type, `!` keeps a subtype of bool, and a length is an int |
| TypeChecker.StatementRules | src/whilelang/util/TypeChecker.java:70-150 | an accepted assignment has a right-hand side that is a subtype of its left; a returned value is a subtype of the return type; a condition is a subtype of bool; only declarations and compound statements change the environment |
| TypeChecker.SubsumedExists | src/whilelang/util/TypeChecker.java:311-318 | the inner loop finds whether some later element type is equivalent |
| TypeChecker.SecondLoopAsWritten | src/whilelang/util/TypeChecker.java:133 | as written, a second loop with the same variable is always refused |
| TypeChecker.SecondLoop | src/whilelang/util/TypeChecker.java:135-138 | corrected: a loop accepted once is accepted again straight after itself, and the environment is unchanged |
| TypeChecker.SampleLoopIncrement | src/whilelang/util/TypeChecker.java:137-142 | the increment `i = i + 1` is accepted where `i` is an int |
| TypeChecker.SampleLoopCondition | src/whilelang/util/TypeChecker.java:137-139 | the condition `i < 10` has type bool where `i` is an int |
| TypeChecker.SampleLoopAccepted | src/whilelang/util/TypeChecker.java:130-144 | a loop over `int i` is accepted both as written and corrected |
| TypeChecker.Checker.CheckFile | src/whilelang/util/TypeChecker.java:27-47 | the declaration tables are collected, then the result is FileType's |
| TypeChecker.Checker.CollectDeclarations | src/whilelang/util/TypeChecker.java:32-40 | the function and type maps, later declarations replacing earlier ones |
| TypeChecker.Checker.CheckDeclarations | src/whilelang/util/TypeChecker.java:42-46 | every function in order, as DeclsType; the tables are unchanged |
| TypeChecker.Checker.CheckFunction | src/whilelang/util/TypeChecker.java:49-62 | the parameters make the environment and the result is FunctionType's |
| TypeChecker.Checker.CheckStmts | src/whilelang/util/TypeChecker.java:64-68 | the environment object ends as StmtsType says, with its result |
| TypeChecker.Checker.CheckStmt | src/whilelang/util/TypeChecker.java:70-90 | agrees with StmtType |
| TypeChecker.Checker.CheckDecl | src/whilelang/util/TypeChecker.java:93-102 | agrees with DeclType |
| TypeChecker.Checker.CheckIfElse | src/whilelang/util/TypeChecker.java:123-128 | agrees with IfElseType |
| TypeChecker.Checker.CheckFor | src/whilelang/util/TypeChecker.java:130-144 | the rest checked on a copy, agreeing with ForType |
| TypeChecker.Checker.CheckWhile | src/whilelang/util/TypeChecker.java:146-150 | agrees with WhileType |
| TypeChecker.Checker.CheckExpr | src/whilelang/util/TypeChecker.java:152-185 | agrees with ExprType |
| TypeChecker.Checker.CheckBinary | src/whilelang/util/TypeChecker.java:187-242 | agrees with BinaryType |
| TypeChecker.Checker.CheckCast | src/whilelang/util/TypeChecker.java:244-248 | agrees with CastType |
| TypeChecker.Checker.CheckIndexOf | src/whilelang/util/TypeChecker.java:271-282 | agrees with IndexOfType |
| TypeChecker.Checker.CheckInvoke | src/whilelang/util/TypeChecker.java:284-298 | agrees with InvokeType |
| TypeChecker.Checker.CheckList | src/whilelang/util/TypeChecker.java:300-330 | agrees with ListType |
| TypeChecker.Checker.Simplify | src/whilelang/util/TypeChecker.java:311-327 | the dropping loop gives Kept |
| TypeChecker.Checker.CheckRecordAccess | src/whilelang/util/TypeChecker.java:332-341 | agrees with RecordAccessType |
| TypeChecker.Checker.CheckRecord | src/whilelang/util/TypeChecker.java:343-352 | agrees with RecordType |
| TypeChecker.Checker.CheckUnary | src/whilelang/util/TypeChecker.java:354-370 | agrees with UnaryType |
| TypeChecker.TypeEnvironment.constructor | src/whilelang/util/TypeChecker.java:52-55 | the environment holds the given variables |
| TypeChecker.TypeEnvironment.Put | src/whilelang/util/TypeChecker.java:101 | the environment maps the name to the type, the rest unchanged |
| TypeChecker.Checker.constructor | src/whilelang/util/TypeChecker.java:21-25 | the function and type tables start empty, with no current function |
| DefiniteAssignment.StmtsCheck | src/whilelang/util/DefiniteAssignment.java:77-85 | the statements in order on one environment, which only grows |
| DefiniteAssignment.StmtCheck | src/whilelang/util/DefiniteAssignment.java:97-119 | one statement; the environment never loses a name |
| DefiniteAssignment.AssignCheckAsWritten | src/whilelang/util/DefiniteAssignment.java:121-132 | as written, the variable on the left is added before the right side is checked; the environment only grows |
| DefiniteAssignment.AssignCheck | src/whilelang/util/DefiniteAssignment.java:121-132 | corrected, the right side is checked first; the environment only grows |
| DefiniteAssignment.IfElseCheck | src/whilelang/util/DefiniteAssignment.java:157-183 | the branches on copies of the environment, merged; the environment only grows |
| DefiniteAssignment.ForCheck | src/whilelang/util/DefiniteAssignment.java:185-192 | declaration, condition and increment on the environment, the body on a copy; the environment only grows |
| DefiniteAssignment.WhileCheck | src/whilelang/util/DefiniteAssignment.java:194-199 | the condition, then the body on a copy; the environment only grows |
| DefiniteAssignment.ConstantNames | src/whilelang/util/DefiniteAssignment.java:36-51 | exactly the names of the constants the file declares |
| DefiniteAssignment.StmtsAppend | src/whilelang/util/DefiniteAssignment.java:77-85 | checking a concatenation checks the first part, then the second from where the first left off, but only if the first can continue |
| DefiniteAssignment.StopsAfterReturn | src/whilelang/util/DefiniteAssignment.java:79-83 | once a statement cannot continue, what follows is never checked |
| DefiniteAssignment.IfElseMerge | src/whilelang/util/DefiniteAssignment.java:157-183 | an if/else continues when either branch does; with one continuing branch the names are what it assigned, otherwise what both assigned |
| DefiniteAssignment.IfElseFails | src/whilelang/util/DefiniteAssignment.java:157-183 | an if/else fails exactly when its condition reads an unassigned variable or a branch fails |
| DefiniteAssignment.WhileKeepsEnvironment | src/whilelang/util/DefiniteAssignment.java:194-199 | nothing the body of a while loop assigns is assigned after the loop |
| DefiniteAssignment.ForBodyIsLocal | src/whilelang/util/DefiniteAssignment.java:185-192 | two for loops differing only in their bodies leave the same names assigned |
| DefiniteAssignment.ReturnStopsBlock | src/whilelang/util/DefiniteAssignment.java:140-143 | a return stops a block whatever follows it |
| DefiniteAssignment.DeclarationWithoutInit | src/whilelang/util/DefiniteAssignment.java:145-155 | a declaration without an initialiser leaves its name unassigned, so reading it afterwards is an error |
| DefiniteAssignment.SelfAssignmentAsWritten | src/whilelang/util/DefiniteAssignment.java:121-132 | as written, `x = x;` is accepted though x is not assigned |
| DefiniteAssignment.AssignmentReadsBefore | src/whilelang/util/DefiniteAssignment.java:121-132 | corrected, an assignment to a variable is accepted exactly when its right side reads only assigned variables, and then assigns it |
| DefiniteAssignment.BareReturnAsWritten | src/whilelang/util/DefiniteAssignment.java:140-143 | as written, `return;` fails with an internal failure |
| DefiniteAssignment.ReturnStops | src/whilelang/util/DefiniteAssignment.java:140-143 | corrected, a return with or without a value stops the block, and fails only when its value reads an unassigned variable |
| DefiniteAssignment.UsesArgument | src/whilelang/util/DefiniteAssignment.java:306-339 | what an argument reads, its call or list constructor reads |
| DefiniteAssignment.UsesInit | src/whilelang/util/DefiniteAssignment.java:354-370 | what a field value reads, its record constructor reads |
| DefiniteAssignment.NameSet.constructor | src/whilelang/util/DefiniteAssignment.java:159-160 | the set holds the given names |
| DefiniteAssignment.NameSet.Add | src/whilelang/util/DefiniteAssignment.java:125 | the set gains the name |
| DefiniteAssignment.NameSet.AddAll | src/whilelang/util/DefiniteAssignment.java:165-172 | the set gains the other set's names |
| DefiniteAssignment.Checker.constructor | src/whilelang/util/DefiniteAssignment.java:36-39 | no constants yet |
| DefiniteAssignment.Checker.CheckFile | src/whilelang/util/DefiniteAssignment.java:36-51 | the constants are collected first, then every function is checked, with the result FileCheck gives |
| DefiniteAssignment.Checker.CheckFunction | src/whilelang/util/DefiniteAssignment.java:53-65 | the constants and parameters are assigned on entry; agrees with FunctionCheck |
| DefiniteAssignment.Checker.CheckStmts | src/whilelang/util/DefiniteAssignment.java:77-85 | the environment object and the flag end as StmtsCheck says |
| DefiniteAssignment.Checker.CheckStmt | src/whilelang/util/DefiniteAssignment.java:97-119 | agrees with StmtCheck |
| DefiniteAssignment.Checker.CheckAssign | src/whilelang/util/DefiniteAssignment.java:121-132 | agrees with the corrected AssignCheck |
| DefiniteAssignment.Checker.CheckReturn | src/whilelang/util/DefiniteAssignment.java:140-143 | agrees with the corrected ReturnCheck |
| DefiniteAssignment.Checker.CheckDecl | src/whilelang/util/DefiniteAssignment.java:145-155 | agrees with DeclCheck |
| DefiniteAssignment.Checker.CheckIfElse | src/whilelang/util/DefiniteAssignment.java:157-183 | branches on copies, then the merge, visiting names in an arbitrary order; agrees with StmtCheck |
| DefiniteAssignment.Checker.CheckFor | src/whilelang/util/DefiniteAssignment.java:185-192 | the body on a copy; agrees with StmtCheck |
| DefiniteAssignment.Checker.CheckWhile | src/whilelang/util/DefiniteAssignment.java:194-199 | the body on a copy; agrees with StmtCheck |
| DefiniteAssignment.Checker.CheckExpr | src/whilelang/util/DefiniteAssignment.java:210-237 | the recursive walk succeeds exactly when every variable the expression reads is assigned |
| DefiniteAssignment.Checker.CheckArguments | src/whilelang/util/DefiniteAssignment.java:306-339 | the arguments in order; succeeds exactly when every variable they read is assigned |
| DefiniteAssignment.Checker.CheckInits | src/whilelang/util/DefiniteAssignment.java:354-370 | the field values in order; succeeds exactly when every variable they read is assigned |
| Grammar.Expect | src/whilelang/io/Parser.java:755-763 | succeeds exactly when the current token has the given text, and then moves past it; at the end of the tokens it is an end-of-file error |
| Grammar.ExpectIdentifier | src/whilelang/io/Parser.java:776-786 | succeeds exactly when the current token is an identifier, giving its text and moving past it; at the end it is an end-of-file error |
| Grammar.ExpectKeyword | src/whilelang/io/Parser.java:788-799 | succeeds exactly when the current token is the keyword, and then moves past it; at the end it is an end-of-file error |
| Grammar.UnionType | src/whilelang/io/Parser.java:661-678 | the cursor moves past at least one token and stays within the tokens; with no tokens left it is an end-of-file error |
| Grammar.UnionBounds | src/whilelang/io/Parser.java:670-673 | the cursor does not go back and stays within the tokens |
| Grammar.BaseType | src/whilelang/io/Parser.java:680-745 | the cursor moves past at least one token and stays within the tokens |
| Grammar.FieldTypes | src/whilelang/io/Parser.java:713-731 | the cursor does not go back and stays within the tokens |
| Grammar.FieldType | src/whilelang/io/Parser.java:714-728 | the cursor moves past at least one token and stays within the tokens |
| Grammar.Condition | src/whilelang/io/Parser.java:341-356 | the cursor moves past at least one token and stays within the tokens |
| Grammar.ConditionExpression | src/whilelang/io/Parser.java:358-395 | the cursor moves past at least one token and stays within the tokens |
| Grammar.AppendExpression | src/whilelang/io/Parser.java:397-409 | the cursor moves past at least one token and stays within the tokens |
| Grammar.AddSubExpression | src/whilelang/io/Parser.java:412-429 | the cursor moves past at least one token and stays within the tokens |
| Grammar.MulDivExpression | src/whilelang/io/Parser.java:431-453 | the cursor moves past at least one token and stays within the tokens |
| Grammar.IndexTerm | src/whilelang/io/Parser.java:455-484 | the cursor moves past at least one token and stays within the tokens |
| Grammar.Postfix | src/whilelang/io/Parser.java:460-481 | the cursor does not go back and stays within the tokens |
| Grammar.Suffix | src/whilelang/io/Parser.java:464-475 | the cursor moves past at least one token and stays within the tokens |
| Grammar.Term | src/whilelang/io/Parser.java:486-549 | the cursor moves past at least one token and stays within the tokens |
| Grammar.Bracketed | src/whilelang/io/Parser.java:486-549 | the cursor moves past at least one token and stays within the tokens |
| Grammar.ListVal | src/whilelang/io/Parser.java:551-571 | the cursor moves past at least one token and stays within the tokens |
| Grammar.ListElements | src/whilelang/io/Parser.java:558-568 | the cursor does not go back and stays within the tokens |
| Grammar.RecordVal | src/whilelang/io/Parser.java:573-605 | the cursor moves past at least one token and stays within the tokens |
| Grammar.FieldInits | src/whilelang/io/Parser.java:581-602 | the cursor does not go back and stays within the tokens |
| Grammar.RecordEntry | src/whilelang/io/Parser.java:582-599 | the cursor moves past at least one token and stays within the tokens |
| Grammar.LengthOf | src/whilelang/io/Parser.java:607-613 | the cursor moves past at least one token and stays within the tokens |
| Grammar.Negation | src/whilelang/io/Parser.java:615-632 | the cursor moves past at least one token and stays within the tokens |
| Grammar.InvokeExpr | src/whilelang/io/Parser.java:634-653 | the cursor moves past at least one token and stays within the tokens, and the result is a call |
| Grammar.Arguments | src/whilelang/io/Parser.java:640-650 | the cursor does not go back and stays within the tokens |
| Grammar.Statement | src/whilelang/io/Parser.java:148-185 | the cursor moves past at least one token and stays within the tokens |
| Grammar.Terminated | src/whilelang/io/Parser.java:152-183 | the statement is unchanged and the cursor moves past the semicolon when one is asked for |
| Grammar.Block | src/whilelang/io/Parser.java:125-137 | the cursor moves past at least one token and stays within the tokens |
| Grammar.Statements | src/whilelang/io/Parser.java:128-132 | the cursor does not go back and stays within the tokens |
| Grammar.ReturnStatement | src/whilelang/io/Parser.java:251-262 | the cursor moves past at least one token and stays within the tokens, and the result is a return |
| Grammar.PrintStatement | src/whilelang/io/Parser.java:264-271 | the cursor moves past at least one token and stays within the tokens, and the result is a print |
| Grammar.IfStatement | src/whilelang/io/Parser.java:273-297 | the cursor moves past at least one token and stays within the tokens |
| Grammar.WhileStatement | src/whilelang/io/Parser.java:299-309 | the cursor moves past at least one token and stays within the tokens |
| Grammar.ForStatement | src/whilelang/io/Parser.java:311-326 | the cursor moves past at least one token and stays within the tokens |
| Grammar.VariableDeclaration | src/whilelang/io/Parser.java:233-249 | the cursor moves past at least one token and stays within the tokens |
| Grammar.Assignment | src/whilelang/io/Parser.java:328-339 | the cursor moves past at least one token and stays within the tokens, and the result is an assignment to an expression that may be assigned to |
| Grammar.FunctionDeclaration | src/whilelang/io/Parser.java:69-97 | the cursor moves past at least one token and stays within the tokens |
| Grammar.Parameters | src/whilelang/io/Parser.java:78-91 | the cursor does not go back and stays within the tokens |
| Grammar.TypeDeclaration | src/whilelang/io/Parser.java:99-111 | the cursor moves past at least one token and stays within the tokens, and the result is a type declaration |
| Grammar.ConstantDeclaration | src/whilelang/io/Parser.java:113-123 | the cursor moves past at least one token and stays within the tokens, and the result is a constant declaration |
| Parsers.Parser.constructor | src/whilelang/io/Parser.java:41-45 | the parser holds the tokens, with the cursor at the start and no type names |
| Parsers.Parser.Read | src/whilelang/io/Parser.java:47-67 | agrees with Grammar.ReadFrom, consumes every token and adds the name of every type declaration to the type names |
| Parsers.Parser.ParseFunction | src/whilelang/io/Parser.java:69-97 | agrees with Grammar.FunctionDeclaration, leaving the cursor where it says |
| Parsers.Parser.ParseTypeDeclaration | src/whilelang/io/Parser.java:99-111 | agrees with Grammar.TypeDeclaration, and adds the declared name to the type names |
| Parsers.Parser.ParseConstantDeclaration | src/whilelang/io/Parser.java:113-123 | agrees with Grammar.ConstantDeclaration |
| Parsers.Parser.ParseBlock | src/whilelang/io/Parser.java:125-137 | agrees with Grammar.Block |
| Parsers.Parser.ParseStatement | src/whilelang/io/Parser.java:148-185 | agrees with Grammar.Statement, putting the cursor back before an assignment that is not a call |
| Parsers.Parser.IsTypeAt | src/whilelang/io/Parser.java:187-209 | agrees with Grammar.IsType |
| Parsers.Parser.ParseVariableDeclaration | src/whilelang/io/Parser.java:233-249 | agrees with Grammar.VariableDeclaration |
| Parsers.Parser.ParseReturn | src/whilelang/io/Parser.java:251-262 | agrees with Grammar.ReturnStatement |
| Parsers.Parser.ParsePrint | src/whilelang/io/Parser.java:264-271 | agrees with Grammar.PrintStatement |
| Parsers.Parser.ParseIf | src/whilelang/io/Parser.java:273-297 | agrees with Grammar.IfStatement |
| Parsers.Parser.ParseWhile | src/whilelang/io/Parser.java:299-309 | agrees with Grammar.WhileStatement |
| Parsers.Parser.ParseFor | src/whilelang/io/Parser.java:311-326 | agrees with Grammar.ForStatement |
| Parsers.Parser.ParseAssign | src/whilelang/io/Parser.java:328-339 | agrees with Grammar.Assignment |
| Parsers.Parser.ParseCondition | src/whilelang/io/Parser.java:341-356 | agrees with Grammar.Condition |
| Parsers.Parser.ParseConditionExpression | src/whilelang/io/Parser.java:358-395 | agrees with Grammar.ConditionExpression |
| Parsers.Parser.ParseAppendExpression | src/whilelang/io/Parser.java:397-409 | agrees with Grammar.AppendExpression |
| Parsers.Parser.ParseAddSubExpression | src/whilelang/io/Parser.java:412-429 | agrees with Grammar.AddSubExpression |
| Parsers.Parser.ParseMulDivExpression | src/whilelang/io/Parser.java:431-453 | agrees with Grammar.MulDivExpression |
| Parsers.Parser.ParseIndexTerm | src/whilelang/io/Parser.java:455-484 | the postfix loop agrees with Grammar.IndexTerm |
| Parsers.Parser.ParseSuffix | src/whilelang/io/Parser.java:464-475 | one pass of the postfix loop, agreeing with Grammar.Suffix |
| Parsers.Parser.ParseTerm | src/whilelang/io/Parser.java:486-549 | agrees with Grammar.Term |
| Parsers.Parser.ParseBracketed | src/whilelang/io/Parser.java:486-549 | the `(` case of parseTerm, agreeing with Grammar.Bracketed |
| Parsers.Parser.ParseListVal | src/whilelang/io/Parser.java:551-571 | the element loop agrees with Grammar.ListVal |
| Parsers.Parser.ParseRecordVal | src/whilelang/io/Parser.java:573-605 | the field loop, with its set of keys, agrees with Grammar.RecordVal |
| Parsers.Parser.ParseRecordEntry | src/whilelang/io/Parser.java:582-599 | one field of a record value, agreeing with Grammar.RecordEntry |
| Parsers.Parser.ParseLengthOf | src/whilelang/io/Parser.java:607-613 | agrees with Grammar.LengthOf |
| Parsers.Parser.ParseNegation | src/whilelang/io/Parser.java:615-632 | agrees with Grammar.Negation |
| Parsers.Parser.ParseInvoke | src/whilelang/io/Parser.java:634-653 | parseInvokeExpr, and parseInvokeStmt (lines 211-231) with the same body, agreeing with Grammar.InvokeExpr |
| Parsers.Parser.ParseType | src/whilelang/io/Parser.java:661-678 | the union loop agrees with Grammar.UnionType |
| Parsers.Parser.ParseBaseType | src/whilelang/io/Parser.java:680-745 | agrees with Grammar.BaseType |
| Parsers.Parser.ParseFieldType | src/whilelang/io/Parser.java:714-728 | one field of a record type, agreeing with Grammar.FieldType |
| Parsers.Parser.CheckNotEof | src/whilelang/io/Parser.java:747-753 | succeeds exactly when a token is left, and is an end-of-file error otherwise |
| Parsers.Parser.Match | src/whilelang/io/Parser.java:755-763 | agrees with Grammar.Expect and gives the matched token |
| Parsers.Parser.MatchLiteral | src/whilelang/io/Parser.java:766-774 | succeeds exactly when the current token is a literal, giving its value and moving past it |
| Parsers.Parser.MatchIdentifier | src/whilelang/io/Parser.java:776-786 | agrees with Grammar.ExpectIdentifier |
| Parsers.Parser.MatchKeyword | src/whilelang/io/Parser.java:788-799 | agrees with Grammar.ExpectKeyword and gives the keyword |
| Parsers.ParseFile | src/whilelang/io/Parser.java:41-67 | a fresh parser reads the whole token sequence as Grammar.Read says |
| Precedence.MulDivStep | src/whilelang/io/Parser.java:431-453 | after an index term, `*`, `/` or `%` makes a binary expression whose right operand is again a whole mul/div expression |
| Precedence.MulDivEnd | src/whilelang/io/Parser.java:431-453 | without such an operator the mul/div expression is the index term itself |
| Precedence.AddSubStep | src/whilelang/io/Parser.java:412-429 | after a mul/div expression, `+` or `-` makes a binary expression whose right operand is again a whole add/sub expression |
| Precedence.AddSubEnd | src/whilelang/io/Parser.java:412-429 | without such an operator the add/sub expression is the mul/div expression itself |
| Precedence.AppendStep | src/whilelang/io/Parser.java:397-409 | after an add/sub expression, `++` makes an append whose right operand is again a whole append expression |
| Precedence.AppendEnd | src/whilelang/io/Parser.java:397-409 | without `++` the append expression is the add/sub expression itself |
| Precedence.ComparisonStep | src/whilelang/io/Parser.java:358-395 | one comparison operator between two append expressions makes a comparison |
| Precedence.ComparisonEnd | src/whilelang/io/Parser.java:358-395 | without a comparison operator the condition expression is the append expression itself |
| Precedence.ConditionStep | src/whilelang/io/Parser.java:341-356 | after a condition expression, `&&` or `||` makes a binary expression whose right operand is again a whole condition |
| Precedence.ConditionEnd | src/whilelang/io/Parser.java:341-356 | without such an operator the condition is the condition expression itself |
| Precedence.OperatorLevels | src/whilelang/io/Parser.java:341-453 | no operator token belongs to two precedence levels |
| Precedence.VariableTerm | src/whilelang/io/Parser.java:486-549 | an identifier not followed by `(`, `[` or `.` is a variable |
| Precedence.PostfixField | src/whilelang/io/Parser.java:470-475 | `.f` wraps what was built so far in a record access and the loop goes on |
| Precedence.PostfixIndex | src/whilelang/io/Parser.java:464-469 | `[e]` wraps what was built so far in an index expression and the loop goes on |
| Precedence.PostfixEnd | src/whilelang/io/Parser.java:462-483 | the postfix loop stops at any other token, or at the end of the tokens |
| Precedence.IndexTermStep | src/whilelang/io/Parser.java:455-484 | an index term is its term followed by the postfix loop |
| Precedence.IndexTermAtEnd | src/whilelang/io/Parser.java:460 | a term that ends the tokens makes parseIndexTerm fail, since the lookahead is read without a check |
| Precedence.NegationStep | src/whilelang/io/Parser.java:615-632 | `-` before an int literal gives the negated literal with Java's wrap-around, and before any other non-literal a negation |
| Precedence.NotStep | src/whilelang/io/Parser.java:486-549 | `!` applies to a term before any postfix |
| Precedence.RecordEntryDuplicate | src/whilelang/io/Parser.java:591-593 | a key already in the record value is a duplicate key error |
| Precedence.FieldTypeDuplicate | src/whilelang/io/Parser.java:725-727 | a field name already in the record type is a duplicate key error |
| Precedence.AssignmentNeedsLVal | src/whilelang/io/Parser.java:328-339 | an assignment whose left side may not be assigned to is an error |
| Precedence.RightAssociative | src/whilelang/io/Parser.java:412-429 | `a - b - c` parses as `a - (b - c)` |
| Precedence.MultiplicationBindsTighter | src/whilelang/io/Parser.java:412-453 | `a + b * c` parses as `a + (b * c)` |
| Precedence.ComparisonsDoNotChain | src/whilelang/io/Parser.java:358-395 | `a < b < c` stops after `a < b` |
| Precedence.PostfixFoldsLeft | src/whilelang/io/Parser.java:462-481 | `x.a.b` parses as `(x.a).b` |
| Precedence.NegationFolds | src/whilelang/io/Parser.java:615-632 | `-5` is the literal -5 and `-x` a negation |
| Precedence.DuplicateKeyExample | src/whilelang/io/Parser.java:591-593 | `{a: x, a: y}` is refused at the second `a` |
| Printing.TypeFirstToken | src/whilelang/io/Parser.java:661-745 | a printed type starts with a token that is neither `}` nor `|` |
| Printing.IsTypeAtType | src/whilelang/io/Parser.java:187-209 | at a printed type, isType holds exactly when the type starts with a type keyword, a `[`, a `{` or a declared type name |
| Printing.ListTypeStep | src/whilelang/io/Parser.java:734-738 | `[`, a type and `]` parse as a list type |
| Printing.RecordTypeStep | src/whilelang/io/Parser.java:707-733 | `{`, fields and `}` parse as a record type |
| Printing.NoUnionStep | src/whilelang/io/Parser.java:666-677 | a base type not followed by `|` is the whole type |
| Printing.UnionStep | src/whilelang/io/Parser.java:666-674 | a base type followed by `|` is the first bound of a union |
| Printing.BoundStep | src/whilelang/io/Parser.java:670-673 | each `|` and base type add one bound |
| Printing.BoundsEnd | src/whilelang/io/Parser.java:670 | the union loop stops at any other token |
| Printing.FieldsEnd | src/whilelang/io/Parser.java:713 | the field loop stops at `}` |
| Printing.FirstFieldStep | src/whilelang/io/Parser.java:717-728 | the first field is a type and a name, without a comma |
| Printing.NextFieldStep | src/whilelang/io/Parser.java:714-728 | each later field is a comma, a type and a fresh name |
| Printing.FieldStep | src/whilelang/io/Parser.java:713-731 | each field the loop parses is added to the fields |
| Printing.BaseTypeRoundTrip | src/whilelang/io/Parser.java:680-745 | parseBaseType reads back every printed type that is not a union |
| Printing.UnionTypeRoundTrip | src/whilelang/io/Parser.java:661-678 | parseType reads back every printed type not followed by `|` |
| Printing.BoundRoundTrip | src/whilelang/io/Parser.java:670-673 | each printed bound is read back by one pass of the union loop |
| Printing.BoundsRoundTrip | src/whilelang/io/Parser.java:670-673 | the union loop reads back all the remaining printed bounds |
| Printing.FreshField | src/whilelang/io/Parser.java:725-727 | in a printable record type each field name is new, so no duplicate key error arises |
| Printing.RecordFieldsRoundTrip | src/whilelang/io/Parser.java:713-731 | the field loop reads back the printed fields of a record type |
| Printing.NextFieldRoundTrip | src/whilelang/io/Parser.java:714-728 | each printed later field is read back by one pass of the field loop |
| Printing.FieldsRoundTrip | src/whilelang/io/Parser.java:713-731 | the field loop reads back all the remaining printed fields |
| Printing.TypeRoundTrip | src/whilelang/io/Parser.java:661-745 | parsing a printed type gives the type back and consumes exactly its tokens |

## Left out

- Aliasing and update in place: the interpreter works on values, so `int[] a = b` copies and `Values.DeepClone` is the identity on them; the in-place effect of `++` on a list that an object shares is not modelled.
- Unbounded execution: every loop iteration and every call spends one unit of a `fuel` parameter, and running out is an `OutOfFuel` error that the source does not have.
- Floating point: real literals evaluate to an error in the interpreter, and real arithmetic, real printing and the real cases of the back end are not modelled.
- Console output: it is the sequence of printed lines; on an error the model keeps no partial output.
- Expressions in the `Interpreting.Interpreter` class, including calls made from inside expressions, are evaluated by the functions `Execution.Eval` and `Execution.EvalLocation` rather than by methods of their own.
- HashMap and HashSet order: a record's fields and the names of a definitely-assigned set are taken in an arbitrary given order, fixed by the sequence they are stored in.
- Emission.ExprCode, Emission.StmtCode and the other `translate` overloads: they are functions that thread an `Emitter` value rather than methods that append to `code.instructions` and `data.constants` in place. The appends and the static label counter are modelled as the value each function returns, and the order of appends is the order of concatenation. No aliasing between the code and data objects of different functions is modelled. The in-place state appears only in `Writing.FileWriter`, for freshLabel, writeToStack, readFromStack, addTypeConstant and allocateStackFrame.
- Recursive named types: the type relations give a `StackOverflow` error value whenever a name is met again while it is being resolved. The Java checker resolves it once more instead. It overflows the stack only when that recursion never ends, and a recursive type through a union can still reach a verdict. So the model refuses some recursive types the checker accepts, for instance `L is null|{int data, L next}` against `{int data, null next}` (TypeRelations.RecursiveTypeRefused).
- Execution.IndexValue, Execution.UnaryValue (the LENGTHOF case that Execution.Eval uses), Execution.IndexWithinLength, Strings.Less, Values.SortedKeys, Layout.SortedFields and TypeConstants.TypeDescriptor (the length word of each field name): a `string` is a sequence of Unicode scalar values, while a Java `String` is a sequence of UTF-16 code units. For a string holding a character above U+FFFF, `charAt` (src/whilelang/Interpreter.java:377) can return half of a surrogate pair where the model returns the whole character, `length()` (src/whilelang/Interpreter.java:423, src/whilelang/io/X86FileWriter.java:1204) counts that character as 2 where the model counts 1, and `compareTo` (the sorted field order, src/whilelang/io/X86FileWriter.java:762) places it before U+E000–U+FFFF where the model places it after. For strings within the Basic Multilingual Plane, the two agree.
- Source positions: error values carry the kind and message of the Java error but no file name and no position.
- The text of the assembly file: `Writer.java`, the jx86 library that renders instructions and labels as text, and the C runtime `runtime.c` are not part of this model. Labels are values (`X86.Label`), and the runtime routines are only named.
- The tests under `src/whilelang/testing` are not part of this model.
- Unfinished emitters are modelled as the source has them, and nothing is proved about what they would compute: list append and the length operator are errors, an `if` statement emits nothing, an assignment to a list element emits only its right-hand side, and integer and real constants fail on their cast to `Long`.
- Printing of expressions: only types have a printer and a parse round trip (`Printing.TypeRoundTrip`); expressions are covered by the step lemmas of `Precedence`.
- The `...AsWritten` members and flags keep the behaviour listed under "## Findings"; the rest of the model uses the corrected forms where they differ.
- Grammar.UnionBounds, Grammar.FieldTypes, Grammar.Postfix, Grammar.ListElements, Grammar.FieldInits, Grammar.Arguments, Grammar.Statements, Grammar.Parameters: these loop functions state only that the cursor does not go back; their results are described by the step lemmas of Precedence and Printing.
- Grammar.BaseType, Grammar.FieldType, Grammar.Condition, Grammar.ConditionExpression, Grammar.AppendExpression, Grammar.AddSubExpression, Grammar.MulDivExpression, Grammar.IndexTerm, Grammar.Suffix, Grammar.Term, Grammar.Bracketed: these state only that the cursor moves forward within the tokens; the shape of the result is stated by Precedence and Printing.
- Grammar.ListVal, Grammar.RecordVal, Grammar.RecordEntry, Grammar.LengthOf, Grammar.Negation, Grammar.Statement, Grammar.Block, Grammar.IfStatement, Grammar.WhileStatement, Grammar.ForStatement, Grammar.VariableDeclaration, Grammar.FunctionDeclaration: cursor progress only, for the same reason.
- TypeChecker.BinaryType, TypeChecker.IndexOfType, TypeChecker.RecordAccessType, TypeChecker.UnaryType, TypeChecker.ArgumentsType, TypeChecker.ElementsType, TypeChecker.InitsType: their own contracts state only that the annotated expression keeps its shape; the types they give are stated by the `...Rule` and `...Typed` lemmas beside them, which keeps each function cheap to verify.
- TypeChecker.StmtsType, TypeChecker.StmtType, TypeChecker.IfElseType, TypeChecker.WhileType: their contracts state that the environment only grows; what each statement demands is stated by TypeChecker.StatementRules.
- TypeChecker.FunctionType, TypeChecker.DeclsType, TypeChecker.FileType: these state only that declarations keep their names, kinds and sizes.
- DefiniteAssignment.StmtsCheck, DefiniteAssignment.StmtCheck, DefiniteAssignment.IfElseCheck, DefiniteAssignment.ForCheck, DefiniteAssignment.WhileCheck, DefiniteAssignment.AssignCheck, DefiniteAssignment.AssignCheckAsWritten: their contracts state that the environment only grows; the rest is stated by the lemmas of the module.

## Findings

| source | as written | input that shows it | evidently intended | confidence | as-written member | corrected member |
|---|---|---|---|---|---|---|
| src/whilelang/io/X86FileWriter.java:1136-1141 | the field-offset loop subtracts the width of the sought field at every step instead of the width of the field it passes | a record `{ {int x, int y} a, int b }` and the field `a`: the loop gives offset -8 | the offset of a field is the total width of the fields sorted before it, 0 for `a` | not executed | Layout.FieldOffsetAsWrittenMisplacesWideField | Layout.FieldOffsetIsPrefixWidth |
| src/whilelang/io/X86FileWriter.java:454-457 | the right operand of a binary expression goes into the first free register, which can be the target that holds the left operand | `b + c` into HBX with HBX first among the free registers, `b` = 1, `c` = 2: the code leaves 4 | the right operand goes into a register other than the target, leaving 3 | not executed | CodeMeaning.SumAsWrittenOverwritesLeft | CodeMeaning.SumComputes |
| src/whilelang/Interpreter.java:121-122 | a call used as a statement returns the callee's result to the block loop, which then leaves the calling function with it | `f();` where `f` returns 1, followed by more statements: those statements do not run | a call statement discards its result and the block goes on | not executed | Execution.InvokeStatementReturnsAsWritten | Execution.InvokeStatementContinues |
| src/whilelang/Interpreter.java:189-197 | `return e;` where `e` evaluates to null gives null to the block loop, which reads null as "carry on" | `return null;` followed by `print 1;`: the print runs | a return leaves the block whatever its value | not executed | Execution.ReturnNullContinuesAsWritten | Execution.ReturnLeavesBlock |
| src/whilelang/util/DefiniteAssignment.java:140-143 | `return;` passes a null expression to check(Expr), which falls through every case into an internal failure | the statement `return;` | a bare return stops the block and is accepted | not executed | DefiniteAssignment.BareReturnAsWritten | DefiniteAssignment.ReturnStops |
| src/whilelang/util/DefiniteAssignment.java:121-132 | the assigned variable is added to the environment before the right-hand side is checked | `x = x;` with `x` unassigned is accepted | the right-hand side is checked in the environment before the assignment | not executed | DefiniteAssignment.SelfAssignmentAsWritten | DefiniteAssignment.AssignmentReadsBefore |
| src/whilelang/util/TypeChecker.java:527-541 | a union on the supertype side is examined before a union on the subtype side, so each bound of the subtype is compared with the whole union | `int\|bool` is not a subtype of itself, and `int\|null` and `null\|int` are not equivalent, which the doc comment at lines 549-557 says they are | subtyping is reflexive and the order of a union's bounds does not matter | not executed | TypeRelations.UnionAsWritten | TypeRelations.UnionOrderIrrelevant |
| src/whilelang/util/TypeChecker.java:133 | the loop variable of a `for` is declared in the enclosing environment, though the comment at lines 135-136 says the loop should be scoped | two loops `for (int i = 0; ...)` one after the other: the second is refused as a redeclaration | the loop variable is visible only inside the loop | not executed | TypeChecker.SecondLoopAsWritten | TypeChecker.SecondLoop |
