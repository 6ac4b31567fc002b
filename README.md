# A verified model of the MyExcel formula engine and grid store

MyExcel is a small console spreadsheet written in C++. A table holds a grid
of cells. A cell holds text, an integer, a date or a formula such as `A1+(B2*3)`.
The table renders as plain text, HTML or CSV.

This project models the core of `utils.cpp` and `utils.h` in Dafny and
proves properties of the model:

- **`Vector`** (`Vectors.dfy`). The growable string buffer is a class over an
  `array<string>` with `capacity` and `length`. `PushBack` doubles the
  capacity when the buffer is full. `Remove` shifts the elements left in
  place.
- **`Stack` and `NumStack`** (`Stacks.dfy`). Both are one generic linked
  stack. It has an owned sentinel node `start`. The stack is empty exactly
  when `current` is the sentinel. `Pop` and `Peek` on an empty stack return
  the sentinel's value: `""` for strings, `0` for numbers.
- **The postfix conversion of `ExprCell::parse_expression`** (`Postfix.dfy`).
  The function `Run` follows the source loop character by character. The
  method `ParseInto` carries it out with the linked stack and a `Vector`,
  and is proved equal to `Run`.
- **Cells, lookups and evaluation** (`Sheets.dfy`). Cells are a datatype:
  `StringCell`, `NumberCell` and `FormulaCell`. The grid is the value
  `Sheet`. On that value the module defines:
  - evaluation of postfix tokens on an operand stack;
  - `Table::to_numeric` by address and by row and column;
  - `Table::stringify(int, int)`;
  - the `to_numeric` and `stringify` of each cell kind.
- **What a formula means** (`Infix.dfy`). An independent definition of
  formulas as expression trees. For every well-formed tree:
  - converting its printed text gives its postorder;
  - evaluating that postorder gives its value.

  So precedence, left-associativity, operand order, brackets and references
  behave as intended.
- **The `Table` and `ExprCell` classes** (`Tables.dfy`). `Table` is a class
  over an `array2<Option<Cell>>`. `ExprCell` is a class whose text `data`
  and token vector `expVec` persist between calls, as in the source. Each
  method is proved equal to the function of the same meaning on the grid's
  value.
- **Re-evaluating one `ExprCell`** (`Reuse.dfy`). Every `to_numeric` call
  wraps the stored text in one more pair of brackets. It also appends to a
  token vector that is never cleared. For a well-formed formula two calls
  agree. For a formula with an unclosed bracket they do not.
- **Renderer helpers** (`Render.dfy`). These are `TxtTable::repeat_char`,
  `TxtTable::col_num_to_str`, and the per-field quoting of
  `CSVTable::print_table`. The quoting is the field syntax of section 2 of
  RFC 4180.
- **C library routines** (`Strings.dfy`). `isdigit`, `isalpha`, `atoi` and
  `std::to_string`.

### Modelling choices

- **Recursion depth.** A formula's references can lead back to the formula
  itself, and then the source recurses without end. The model carries a
  depth budget `fuel`. It reports `DepthExceeded` when a chain of references
  is deeper than that budget.
- **Floating point.** The operand stack holds `double`s. The model computes
  exactly with `real`. The final conversion to `int` truncates toward zero
  (`Trunc`). Where the source divides by zero, the model reports
  `DivisionByZero`.
- **Formulas inside the table.** A formula reached through a table lookup is
  evaluated as a fresh `ExprCell` holding its text. That is what the first
  `to_numeric` call on a stored cell computes.

## Model

| member | source | states |
|---|---|---|
| Vectors.Vector.constructor | utils.cpp:5 | a new buffer is empty and has capacity `n` |
| Vectors.Vector.PushBack | utils.cpp:7-20 | the contents become the old contents plus `s` at the end; the capacity doubles exactly when the buffer was full |
| Vectors.Vector.Get | utils.cpp:22 | `operator[]` returns the element at index `i` |
| Vectors.Vector.Remove | utils.cpp:24-29 | the element at `x` is removed and the later ones move left; for `x` past the end the last element is dropped; the capacity is unchanged |
| Vectors.Vector.Size | utils.cpp:31 | the size is the number of stored elements |
| Stacks.Node.constructor | utils.h:39 | a node holds its predecessor and its value |
| Stacks.Stack.constructor | utils.cpp:39 | a new stack is empty, and its sentinel holds the default value |
| Stacks.Stack.Push | utils.cpp:41-44 | the value is added on top |
| Stacks.Stack.Pop | utils.cpp:46-55 | returns the top and removes it; on an empty stack it returns the default value and the stack stays empty |
| Stacks.Stack.Peek | utils.cpp:57 | returns the top, or the default value on an empty stack |
| Stacks.Stack.IsEmpty | utils.cpp:59-62 | true exactly when nothing has been pushed that was not popped |
| Stacks.PushThenPop | utils.cpp:41-55 | LIFO: a pop right after a push returns the pushed value and restores the stack |
| Postfix.Precedence | utils.cpp:150-164 | the rank is at most 2; it is 0 exactly for non-operators (the brackets included) and 2 exactly for `*` and `/` |
| Postfix.PopToken | utils.cpp:46-55 | `Stack::pop` on the operator stack: the top and the rest, or `""` and the empty stack |
| Postfix.PopWhileAtLeast | utils.cpp:191-193 | while the stack is not empty and its top ranks at least `p`, the top moves to the output |
| Postfix.PopToOpen | utils.cpp:184-188 | popped tokens move to the output until an open bracket of any kind is popped and discarded, or the stack is empty |
| Postfix.Run | utils.cpp:172-196 | the scanning loop: a letter and the next character form a reference token, a digit is a literal, open brackets are pushed, a close bracket pops to the nearest open bracket, an operator pops what ranks at least as high and is pushed, anything else is skipped |
| Postfix.Wrap | utils.cpp:169-170 | the text between `(` and `)` |
| Postfix.ToPostfix | utils.cpp:166-197 | the tokens a fresh formula cell produces: `Run` of the wrapped text from an empty stack and output |
| Postfix.PopOperators | utils.cpp:191-193 | pops, in order, every top entry that ranks at least as high as the incoming operator into the output |
| Postfix.PopToOpenBracket | utils.cpp:183-189 | pops entries into the output up to and including the nearest open bracket of any kind, and discards that bracket; it also stops on an empty stack |
| Postfix.ParseInto | utils.cpp:172-196 | the tokens appended to the vector are exactly those of the character-by-character conversion `Run` |
| CloseLoopAsWritten.Iterate | utils.cpp:185-188 | `n` more turns of the close-bracket loop as written, which stops only on an open-bracket token |
| CloseLoopAsWritten.UnmatchedCloseNeverStops | utils.cpp:184-188 | once the stack is empty, the close-bracket loop keeps appending `""` and never stops |
| CloseLoopAsWritten.UnmatchedCloseReachesEmptyStack | utils.cpp:169-188 | for the text `1)` the final close bracket finds the stack empty, and `pop` returns `""`, which is no open bracket |
| Sheets.PopValue | utils.cpp:79-88 | `NumStack::pop` on the operand stack: the top and the rest, or 0 and the empty stack |
| Sheets.Combine | utils.cpp:217-230 | `x op y` for the four operators; division by zero is `DivisionByZero` |
| Sheets.ApplyToken | utils.cpp:215-230 | an operator token pops `y`, then `x`, and pushes `x op y`; any other token pops the two and pushes nothing |
| Sheets.EvalStep | utils.cpp:206-231 | one loop turn: a reference pushes the referenced cell's value, a number pushes its `atoi`, any other token is applied as an operator |
| Sheets.EvalTokens | utils.cpp:205-232 | the evaluation loop over the tokens, stopping at the first error |
| Sheets.Finish | utils.cpp:233 | the final pop, truncated to an `int` |
| Sheets.DecodeAddress | utils.cpp:271-272 | the column is the first character minus `'A'`, the row is `atoi` of the rest minus one |
| Sheets.AddressNumeric | utils.cpp:270-280 | the lookup of the decoded address |
| Sheets.CellNumeric | utils.cpp:112-118 | 0 for a text cell, the number for a number cell, the formula's value for a formula cell |
| Sheets.FormulaNumeric | utils.cpp:199-234 | a fresh formula cell's value: the evaluation of the conversion of its text, with one level less of budget for references, or `DepthExceeded` when none is left |
| Sheets.CellText | utils.cpp:111-118 | the text itself, the decimal text of the number, or the decimal text of the formula's value |
| Sheets.Put | utils.cpp:261-268 | `reg_cell` on the grid value: the in-range target slot holds the new cell |
| Sheets.DateFields | utils.cpp:132-134 | `atoi` at offsets 0, 5 and 8 |
| Sheets.Occupant | utils.cpp:282 | a slot outside the grid has no occupant |
| Sheets.NumericAt | utils.cpp:281-286 | the value of an empty or out-of-range slot is 0 |
| Sheets.TextAt | utils.cpp:298-303 | the text of an empty or out-of-range slot is `""` |
| Sheets.Trunc | utils.cpp:233 | the `double` result becomes an `int` by truncation toward zero |
| Sheets.PutOnlyTarget | utils.cpp:261-268 | after `reg_cell` only the target slot holds the new cell, every other slot is unchanged, and an out-of-range write changes nothing |
| Sheets.ReadAfterReplace | utils.cpp:261-286 | after a replacement, both lookups of the slot see only the new cell |
| Sheets.RenderingsAgree | utils.cpp:111-118 | a text cell's number is 0; a number or formula cell's text is what `atoi` reads back as its number |
| Sheets.DecodeEncodedAddress | utils.cpp:270-272 | a letter of either case followed by the decimal row number decodes to that row and to the letter's distance from `'A'` as column |
| Sheets.NegativeRowPassesCheck | utils.cpp:271-276 | `A0` decodes to row -1, which the source's bounds test accepts; the corrected test gives 0 |
| Sheets.DateFieldsOfLayout | utils.cpp:132-134 | on `YYYY-MM-DD` text the reads at offsets 0, 5 and 8 give the year, month and day |
| Infix.PostfixOfPrinted | utils.cpp:166-197 | the conversion of every well-formed formula's text is its tree's postorder |
| Infix.EvalPostorder | utils.cpp:205-232 | evaluating a tree's postorder pushes the tree's value, left operand first, or fails as the tree does |
| Infix.FormulaMeaning | utils.cpp:199-234 | a formula cell holding a well-formed formula's text evaluates to the tree's value, truncated |
| Infix.TimesBindsTighter | utils.cpp:150-193 | `3+4*2` evaluates to 11 |
| Infix.BracketsGroup | utils.cpp:180-189 | `(3+4)*2` evaluates to 14 |
| Infix.SubtractionAssociatesLeft | utils.cpp:191-193 | `9-3-2` evaluates to 4 |
| Infix.OperandOrder | utils.cpp:215-230 | for all digits, `a-b/c` evaluates to `a - b/c` truncated (for `c > 0`) and `a/b-c` to `a/b - c` truncated (for `b > 0`): `y` is popped before `x` |
| Infix.NumberReference | utils.cpp:208-210 | a reference token to a number cell evaluates to that number |
| Infix.LowerCaseReference | utils.cpp:270-272 | a lower-case reference `a1` ... `z9` reads the slot in its row and in column 32 to 57 (its letter minus `'A'`) |
| Infix.ReferencesResolve | utils.cpp:173-210 | with `A1` = 3 and `B2` = 4, `A1+B2` evaluates to 7 |
| Infix.SelfReferenceExhaustsDepth | utils.cpp:281-286 | the formula `A1` stored at A1 exhausts every depth budget |
| Infix.CycleExhaustsDepth | utils.cpp:270-280 | on every cycle of formula cells in which each formula's first operand refers to the next cell, every lookup of every cell on the cycle exhausts every depth budget |
| Infix.SelfReference | utils.cpp:270-280 | a formula whose first operand refers to its own cell exhausts every depth budget, whatever follows that operand |
| Infix.SelfReferenceInSum | utils.cpp:270-280 | the formula `A1+1` stored at A1 exhausts every depth budget |
| Infix.TwoCellCycle | utils.cpp:270-280 | with `A1` holding `B1` and `B1` holding `A1`, both lookups exhaust every depth budget |
| Tables.Table.constructor | utils.cpp:238-247 | every slot of the new `max_row_size` by `max_col_size` grid is empty |
| Tables.Table.RegCell | utils.cpp:261-268 | the grid becomes `Put` of the old grid: only the target slot changes, and nothing changes out of range |
| Tables.Table.Evaluate | utils.cpp:202-233 | the evaluation loop over the token vector returns the token evaluation's final pop, truncated |
| Tables.Table.Step | utils.cpp:206-231 | one loop turn changes the operand stack as `EvalStep` does, or reports its error |
| Tables.Table.ApplyOperator | utils.cpp:215-230 | pops `y`, then `x`, and pushes `x op y` |
| Tables.Table.ToNumericAt | utils.cpp:270-280 | equals the decoded-address lookup `AddressNumeric` on the grid |
| Tables.Table.ToNumeric | utils.cpp:281-286 | equals `NumericAt` on the grid |
| Tables.Table.CellToNumeric | utils.cpp:112-118 | equals the cell kind's `to_numeric` |
| Tables.Table.FormulaToNumeric | utils.cpp:199-234 | equals `FormulaNumeric`: a fresh formula cell's value |
| Tables.Table.Stringify | utils.cpp:298-303 | equals `TextAt` on the grid |
| Tables.ExprCell.constructor | utils.cpp:148 | the cell holds the text and an empty token vector |
| Tables.ExprCell.ParseExpression | utils.cpp:166-197 | the text is wrapped in brackets, and the conversion of the wrapped text is appended to the token vector |
| Tables.ExprCell.ToNumeric | utils.cpp:199-234 | parses, then returns the evaluation of every token collected so far, old ones included |
| Tables.ExprCell.Stringify | utils.cpp:236 | the decimal text of `to_numeric` |
| CellReuse.ReparseAppends | utils.cpp:169-194 | a second parse of a well-formed formula appends its postorder once more |
| CellReuse.RepeatedTokensAgree | utils.cpp:205-233 | evaluating the tokens of two parses gives what one parse gives |
| CellReuse.EvaluateTwice | utils.cpp:199-234 | two `to_numeric` calls on a fresh cell with a well-formed formula agree, and both equal the formula's value |
| CellReuse.UnclosedBracketDrifts | utils.cpp:166-234 | for `1+(2` the first evaluation gives 2 and the second gives 3 |
| Render.ByteChar | utils.cpp:370-374 | the `char` stored for the `int` value `k` is a byte congruent to `k` modulo 256, and a value that fits in a byte is stored unchanged |
| Render.RepeatChar | utils.cpp:361-366 | `n` copies of `c`, or none when `n` is not positive |
| Render.ColNumToStr | utils.cpp:367-381 | one letter below column 26, two from there on |
| Render.ColumnRoundTrip | utils.cpp:367-381 | columns 0 to 701 get upper-case headers, and the header gives the column back |
| Render.HeaderRoundTrip | utils.cpp:367-381 | every upper-case header of one or two letters names exactly one column in 0 to 701 |
| Render.ColNumToStrInjective | utils.cpp:367-381 | distinct columns in 0 to 701 get distinct headers |
| Render.HeaderAddressDecodes | utils.cpp:270-272 | a one-letter header followed by a row number decodes to that row and column |
| Render.QuoteField | utils.cpp:414-422 | the field is put in quotes, with every quote inside it doubled |
| Render.QuotedFieldRoundTrip | utils.cpp:414-422 | an RFC 4180 reader gets every quoted field back exactly |
| Render.EscapedLength | utils.cpp:416-421 | quoting adds exactly one character per double quote in the field |
| Strings.AtoiOfDigits | utils.cpp:272 | `atoi` reads a run of digits that is followed by a non-digit |
| Strings.AtoiIntToString | utils.cpp:117 | `atoi` inverts `std::to_string` on every integer |
| Strings.Atoi | utils.cpp:272 | `atoi`: leading white space, an optional sign, then the leading decimal digits; no digits gives 0 |
| Strings.IntToString | utils.cpp:117 | `std::to_string` on an integer: a minus sign for a negative number, then its decimal digits |
| Strings.NatToString | utils.cpp:117 | the decimal digits of a natural number, without leading zeros |

## Left out

- `Excel`, its command loop and `main.cpp`. They are console and file I/O.
- `TxtTable::print_table`, `HtmlTable::print_table`, and the row and comma assembly of `CSVTable::print_table`. These are presentation. `HtmlTable` also interleaves output to `std::cout`. Only the helpers and the per-field quoting are modelled.
- The `DateCell` conversion to `time_t` and back. It depends on the time zone (`mktime`, `localtime_s`, `strftime`). Only the positional reads of year, month and day are modelled (`Sheets.DateFields`).
- `Table::stringify(const string&)`. It returns `0` as a `std::string` on a miss, which is undefined behaviour.
- Destructors and the `new`/`delete` bookkeeping. Dafny's memory is garbage-collected.
- The `x`, `y` and `table` fields of `Cell`. Only `ExprCell` uses its table, and the model keeps that.
- IEEE `double` rounding, infinities and NaN. Values are exact reals. Where the source divides by zero, the model returns `DivisionByZero`.
- Unbounded recursion through cyclic references. It is cut off by the `fuel` budget with `DepthExceeded`. A chain of references deeper than the budget is reported as an error, not evaluated.
- `int` overflow in `atoi`, in `std::to_string` and in the grid indices. Integers are unbounded. The 8-bit `char` that `col_num_to_str` stores is modelled explicitly (`ByteChar`).
- Persistence of formula cells reached through a lookup. Such a cell is evaluated as a fresh `ExprCell`. The source's stored cell would re-wrap its text and re-append tokens on a later lookup; `CellReuse` proves what that does for one cell.
- Bytes. A `std::string` is a sequence of bytes; the model's strings are sequences of Dafny `char`s. For a letter followed by a character that takes several bytes, `substr(i, 2)` at utils.cpp:174 takes one byte of it in the source and the whole character in the model.
- Two-letter column names in addresses. Address decoding reads one letter and subtracts `'A'`, as the source does (utils.cpp:271), and `isalpha` also accepts lower-case letters. So a formula reaches columns 0-25 through upper-case letters and columns 32-57 through lower-case ones (`Infix.LowerCaseReference`); columns 26-31 and from 58 on cannot be referenced.
- Vectors.Vector.constructor: requires `n >= 1` (the default is 1, as in the source). The source accepts `n == 0`, and then `push_back` writes past a buffer whose capacity doubles from 0 to 0. A negative `n` makes the source's `new string[n]` throw.
- Vectors.Vector.Get: requires an index in use. The source reads any index without a check.
- Vectors.Vector.Remove: requires a non-empty vector and a non-negative index. The source would make `length` negative, or write before the buffer.
- Render.RepeatChar: takes a `char` where the source takes an `int`. The source stores only its low eight bits.
- Tables.Table.constructor: grid sizes are natural numbers. A negative size fails the source's `new[]`.

## Findings

| source | as written | input that shows it | evidently intended | confidence | as-written member | corrected member |
|---|---|---|---|---|---|---|
| utils.cpp:274 | the bounds test (also at lines 262, 282 and 299) is `row < max_row_size && col < max_col_size`, with no lower bound | the address `A0` decodes to row -1 and passes the test, so `data_table[-1][0]` is read. A negative column cannot come from a formula, whose reference tokens start with a letter; it reaches the same test only through `reg_cell` (line 262), from an address given at the command line | `0 <= row < max_row_size && 0 <= col < max_col_size`, so that such an address reads as an empty slot (0 or `""`) | not executed | Sheets.NegativeRowPassesCheck | Sheets.Occupant |
| utils.cpp:184-188 | the close-bracket loop stops only when it pops an open bracket | the formula `1)`: after `(1)` of the wrapped `(1))` the stack is empty, so `pop` returns `""` forever and `exp_vec` grows without end | the shunting-yard algorithm reports an unmatched close bracket as an error. The corrected loop does not report it: it stops when the stack is empty and silently drops the stray bracket, so the conversion always ends | not executed | CloseLoopAsWritten.UnmatchedCloseNeverStops | Postfix.PopToOpenBracket |
