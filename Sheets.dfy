/** The cells of the table and what they render as (utils.h:80-138,
    utils.cpp:108-236, 270-303), on a value `Sheet` that holds the grid.

    A formula is evaluated as `ExprCell::to_numeric` does on a fresh cell:
    its text is wrapped in brackets, converted to postfix and the postfix is
    run on an operand stack; a reference token is looked up in the sheet,
    which may evaluate another formula. The source recurses without limit,
    so the model carries a depth budget `fuel` and reports `DepthExceeded`
    when a chain of references is deeper than it. The source's operand stack
    holds doubles; the model computes exactly with `real` and reports
    `DivisionByZero` where the source would produce an infinity or NaN. */
module Sheets {
  import opened Wrappers
  import opened Strings
  import opened Postfix

  /** `StringCell`, `NumberCell` and `ExprCell`. */
  datatype Cell = StringCell(data: string) | NumberCell(value: int) | FormulaCell(expr: string)

  datatype EvalError = DivisionByZero | DepthExceeded

  type Outcome<T> = Result<T, EvalError>

  /** The grid of `Table`: `rows` by `cols` slots, each empty or holding a cell. */
  datatype Sheet = Sheet(rows: nat, cols: nat, cells: seq<seq<Option<Cell>>>)

  ghost predicate WellShaped(sh: Sheet)
  {
    |sh.cells| == sh.rows && forall r :: 0 <= r < sh.rows ==> |sh.cells[r]| == sh.cols
  }

  /** The bounds test of utils.cpp:262, 274, 282 and 299 as written: it does
      not reject negative indices. */
  predicate InBoundsAsWritten(row: int, col: int, rows: nat, cols: nat)
  {
    row < rows && col < cols
  }

  /** The bounds test the table uses: the source's test, with the negative
      indices it lets through excluded. */
  predicate InBounds(row: int, col: int, rows: nat, cols: nat)
  {
    0 <= row < rows && 0 <= col < cols
  }

  /** The occupant of slot `[row][col]`, or `None` when it is out of range or empty. */
  function Occupant(sh: Sheet, row: int, col: int): (o: Option<Cell>)
    ensures !InBounds(row, col, sh.rows, sh.cols) ==> o == None
  {
    if InBounds(row, col, sh.rows, sh.cols) && row < |sh.cells| && col < |sh.cells[row]| then
      sh.cells[row][col]
    else None
  }

  /** Address decoding of utils.cpp:271-272: the first character minus `'A'`
      is the column, `atoi` of the rest minus one is the row. */
  function DecodeAddress(s: string): (int, int)
    requires |s| >= 1
  {
    (Atoi(s[1..]) - 1, s[0] as int - 'A' as int)
  }

  /** The conversion of the final `double` to the `int` that `to_numeric`
      returns: truncation toward zero. */
  function Trunc(x: real): (n: int)
    ensures 0.0 <= x ==> n as real <= x < n as real + 1.0
    ensures x < 0.0 ==> n as real - 1.0 < x <= n as real
  {
    if x >= 0.0 then x.Floor else -((-x).Floor)
  }

  /** `NumStack::pop` on a stack value: 0 on an empty stack. */
  function PopValue(st: seq<real>): (real, seq<real>)
  {
    if st == [] then (0.0, []) else (st[|st| - 1], st[..|st| - 1])
  }

  /** `x op y` for the operator switch of utils.cpp:217-230. */
  function Combine(op: char, x: real, y: real): Outcome<real>
    requires IsOperatorChar(op)
  {
    match op
    case '+' => Ok(x + y)
    case '-' => Ok(x - y)
    case '*' => Ok(x * y)
    case '/' => if y == 0.0 then Err(DivisionByZero) else Ok(x / y)
  }

  /** The operator case of utils.cpp:215-230: pop `y`, then `x`, and push
      `x op y`; a token that is no operator pushes nothing. */
  function ApplyToken(t: string, st: seq<real>): Outcome<seq<real>>
  {
    var (y, st1) := PopValue(st);
    var (x, st2) := PopValue(st1);
    if IsOperatorChar(Head(t)) then
      match Combine(Head(t), x, y)
      case Ok(v) => Ok(st2 + [v])
      case Err(e) => Err(e)
    else Ok(st2)
  }

  /** One turn of the evaluation loop of utils.cpp:205-232: a reference
      pushes the referenced cell's value, a number pushes its value, and any
      other token is applied as an operator. */
  function EvalStep(sh: Sheet, s: string, st: seq<real>, fuel: nat): Outcome<seq<real>>
    decreases fuel, 4, 0
  {
    if IsAlpha(Head(s)) then
      match AddressNumeric(sh, s, fuel)
      case Ok(v) => Ok(st + [v as real])
      case Err(e) => Err(e)
    else if IsDigit(Head(s)) then Ok(st + [Atoi(s) as real])
    else ApplyToken(s, st)
  }

  /** The evaluation loop over the tokens still to read, with the operand
      stack `st` (top last). */
  function EvalTokens(sh: Sheet, toks: seq<string>, st: seq<real>, fuel: nat): Outcome<seq<real>>
    decreases fuel, 4, |toks|
  {
    if toks == [] then Ok(st)
    else
      match EvalStep(sh, toks[0], st, fuel)
      case Ok(st') => EvalTokens(sh, toks[1..], st', fuel)
      case Err(e) => Err(e)
  }

  /** `return stack.pop();` converted to `int`. */
  function Finish(r: Outcome<seq<real>>): Outcome<int>
  {
    match r
    case Ok(st) => Ok(Trunc(PopValue(st).0))
    case Err(e) => Err(e)
  }

  /** `Table::to_numeric(const string&)` (utils.cpp:270-280). */
  function AddressNumeric(sh: Sheet, s: string, fuel: nat): Outcome<int>
    requires |s| >= 1
    decreases fuel, 3, 0
  {
    var (row, col) := DecodeAddress(s);
    NumericAt(sh, row, col, fuel)
  }

  /** `Table::to_numeric(int, int)` (utils.cpp:281-286): 0 for an empty or
      out-of-range slot. */
  function NumericAt(sh: Sheet, row: int, col: int, fuel: nat): (r: Outcome<int>)
    ensures Occupant(sh, row, col) == None ==> r == Ok(0)
    decreases fuel, 2, 0
  {
    match Occupant(sh, row, col)
    case None => Ok(0)
    case Some(c) => CellNumeric(sh, c, fuel)
  }

  /** `to_numeric` of each cell kind (utils.cpp:112, 118, 199-234). */
  function CellNumeric(sh: Sheet, c: Cell, fuel: nat): Outcome<int>
    decreases fuel, 1, 0
  {
    match c
    case StringCell(_) => Ok(0)
    case NumberCell(n) => Ok(n)
    case FormulaCell(t) => FormulaNumeric(sh, t, fuel)
  }

  /** `ExprCell::to_numeric` on a fresh cell holding `text`; references
      are resolved with one level less of budget. */
  function FormulaNumeric(sh: Sheet, text: string, fuel: nat): Outcome<int>
    decreases fuel, 0, 0
  {
    if fuel == 0 then Err(DepthExceeded)
    else Finish(EvalTokens(sh, ToPostfix(text), [], fuel - 1))
  }

  /** `stringify` of each cell kind (utils.cpp:111, 117, 236). */
  function CellText(sh: Sheet, c: Cell, fuel: nat): Outcome<string>
  {
    match c
    case StringCell(s) => Ok(s)
    case NumberCell(n) => Ok(IntToString(n))
    case FormulaCell(t) =>
      match FormulaNumeric(sh, t, fuel)
      case Ok(n) => Ok(IntToString(n))
      case Err(e) => Err(e)
  }

  /** `Table::stringify(int, int)` (utils.cpp:298-303): `""` for an empty or
      out-of-range slot. */
  function TextAt(sh: Sheet, row: int, col: int, fuel: nat): (r: Outcome<string>)
    ensures Occupant(sh, row, col) == None ==> r == Ok("")
  {
    match Occupant(sh, row, col)
    case None => Ok("")
    case Some(c) => CellText(sh, c, fuel)
  }

  /** `Table::reg_cell` (utils.cpp:261-268) on the sheet value. */
  function Put(sh: Sheet, row: int, col: int, c: Cell): Sheet
    requires WellShaped(sh)
  {
    if InBounds(row, col, sh.rows, sh.cols) then
      sh.(cells := sh.cells[row := sh.cells[row][col := Some(c)]])
    else sh
  }

  /** `reg_cell` replaces exactly the target slot, and an out-of-range write
      changes nothing. */
  lemma PutOnlyTarget(sh: Sheet, row: int, col: int, c: Cell, i: int, j: int)
    requires WellShaped(sh)
    ensures WellShaped(Put(sh, row, col, c))
    ensures Occupant(Put(sh, row, col, c), i, j) ==
            if i == row && j == col && InBounds(row, col, sh.rows, sh.cols) then Some(c) else Occupant(sh, i, j)
  {
  }

  /** After a replacement, reads of the slot see only the new cell. */
  lemma ReadAfterReplace(sh: Sheet, row: int, col: int, c: Cell, fuel: nat)
    requires WellShaped(sh) && InBounds(row, col, sh.rows, sh.cols)
    ensures NumericAt(Put(sh, row, col, c), row, col, fuel) == CellNumeric(Put(sh, row, col, c), c, fuel)
    ensures TextAt(Put(sh, row, col, c), row, col, fuel) == CellText(Put(sh, row, col, c), c, fuel)
  {
    PutOnlyTarget(sh, row, col, c, row, col);
  }

  /** The text rendering of a cell is what `atoi` turns back into its
      numeric rendering, except for a text cell, whose number is always 0. */
  lemma {:induction false} RenderingsAgree(sh: Sheet, c: Cell, fuel: nat)
    ensures c.StringCell? ==> CellNumeric(sh, c, fuel) == Ok(0) && CellText(sh, c, fuel) == Ok(c.data)
    ensures !c.StringCell? ==>
      match CellText(sh, c, fuel)
      case Ok(s) => CellNumeric(sh, c, fuel) == Ok(Atoi(s))
      case Err(e) => CellNumeric(sh, c, fuel) == Err(e)
  {
    match c
    case StringCell(_) =>
    case NumberCell(n) => AtoiIntToString(n);
    case FormulaCell(t) =>
      match FormulaNumeric(sh, t, fuel)
      case Ok(n) => AtoiIntToString(n);
      case Err(_) =>
  }

  /** A letter, of either case, and a row number decode to that slot. */
  lemma DecodeEncodedAddress(letter: char, row: nat)
    requires IsAlpha(letter)
    ensures DecodeAddress([letter] + IntToString(row + 1)) == (row, letter as int - 'A' as int)
  {
    var s := [letter] + IntToString(row + 1);
    assert s[1..] == IntToString(row + 1);
    AtoiIntToString(row + 1);
  }

  /** The address `A0` decodes to row -1, which the source's bounds test
      accepts although it lies before the first row; the corrected test
      rejects it, so the lookup gives the default. */
  lemma NegativeRowPassesCheck(sh: Sheet, fuel: nat)
    requires sh.rows >= 1 && sh.cols >= 1
    ensures DecodeAddress("A0") == (-1, 0)
    ensures InBoundsAsWritten(-1, 0, sh.rows, sh.cols)
    ensures !InBounds(-1, 0, sh.rows, sh.cols) && AddressNumeric(sh, "A0", fuel) == Ok(0)
  {
    assert "A0"[1..] == "0" + [];
    AtoiOfDigits("0", []);
  }

  /** `DateCell`'s constructor (utils.cpp:132-134) reads the year, month and
      day with `atoi` at offsets 0, 5 and 8. The conversion to a `time_t`
      that follows is not part of this model. */
  function DateFields(s: string): (int, int, int)
    requires |s| >= 8
  {
    (Atoi(s), Atoi(s[5..]), Atoi(s[8..]))
  }

  /** On text laid out as `YYYY-MM-DD` the positional reads give the three numbers. */
  lemma DateFieldsOfLayout(y: string, m: string, d: string)
    requires |y| == 4 && |m| == 2 && |d| == 2 && AllDigits(y) && AllDigits(m) && AllDigits(d)
    ensures DateFields(y + "-" + m + "-" + d) == (DigitsValue(y), DigitsValue(m), DigitsValue(d))
  {
    var dayPart := "-" + d;
    var monthPart := m + dayPart;
    var rest := "-" + monthPart;
    var s := y + rest;
    assert y + "-" + m + "-" + d == s;
    assert s[5..] == monthPart by {
      assert s[4..] == rest;
    }
    assert s[8..] == d + [] by {
      assert s[7..] == dayPart;
    }
    AtoiOfDigits(y, rest);
    AtoiOfDigits(m, dayPart);
    AtoiOfDigits(d, []);
  }
}
