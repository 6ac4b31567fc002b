/** The table of cells `Table` (utils.h:140-158, utils.cpp:238-303) and the
    formula cell `ExprCell` (utils.h:124-138, utils.cpp:148-236).

    A table owns a `maxRowSize` by `maxColSize` grid of slots, each empty or
    holding a cell. A formula cell evaluates references by asking the table,
    and the table evaluates a formula by asking the cell, so both classes
    live in one module. Every lookup method is proved equal to the function
    of the same name on the value `Snapshot()` of the grid (module `Sheets`),
    whose properties are proved there and in module `Infix`. */
module Tables {
  import opened Wrappers
  import opened Strings
  import opened Vectors
  import opened Stacks
  import opened Postfix
  import opened Sheets

  class Table {
    const maxRowSize: nat
    const maxColSize: nat
    const grid: array2<Option<Cell>>

    predicate Valid()
    {
      grid.Length0 == maxRowSize && grid.Length1 == maxColSize
    }

    /** The grid as a value. */
    ghost function Snapshot(): (sh: Sheet)
      reads grid
      requires Valid()
      ensures WellShaped(sh) && sh.rows == maxRowSize && sh.cols == maxColSize
      ensures forall i, j :: 0 <= i < maxRowSize && 0 <= j < maxColSize ==> Occupant(sh, i, j) == grid[i, j]
    {
      Sheet(maxRowSize, maxColSize,
            seq(maxRowSize, i requires 0 <= i < maxRowSize reads grid =>
              seq(maxColSize, j requires 0 <= j < maxColSize reads grid => grid[i, j])))
    }

    /** `Table(int, int)`: every slot starts empty. */
    constructor (maxRowSize: nat, maxColSize: nat)
      ensures Valid() && fresh(grid)
      ensures this.maxRowSize == maxRowSize && this.maxColSize == maxColSize
      ensures forall i, j :: 0 <= i < maxRowSize && 0 <= j < maxColSize ==> grid[i, j] == None
    {
      this.maxRowSize := maxRowSize;
      this.maxColSize := maxColSize;
      grid := new Option<Cell>[maxRowSize, maxColSize];
      new;
      var i := 0;
      while i < maxRowSize
        invariant 0 <= i <= maxRowSize
        invariant forall r, c :: 0 <= r < i && 0 <= c < maxColSize ==> grid[r, c] == None
      {
        var j := 0;
        while j < maxColSize
          invariant 0 <= j <= maxColSize
          invariant forall r, c :: 0 <= r < i && 0 <= c < maxColSize ==> grid[r, c] == None
          invariant forall c :: 0 <= c < j ==> grid[i, c] == None
        {
          grid[i, j] := None;
          j := j + 1;
        }
        i := i + 1;
      }
    }

    /** `reg_cell`: the cell replaces whatever the slot held; an address
        outside the grid changes nothing. */
    method RegCell(c: Cell, row: int, col: int)
      requires Valid()
      modifies grid
      ensures Snapshot() == Put(old(Snapshot()), row, col, c)
      ensures forall i, j :: 0 <= i < maxRowSize && 0 <= j < maxColSize ==>
                grid[i, j] == if i == row && j == col then Some(c) else old(grid[i, j])
    {
      if !InBounds(row, col, maxRowSize, maxColSize) {
        return;
      }
      grid[row, col] := Some(c);
      SnapshotsAgree(old(Snapshot()), row, col, c);
    }

    /** Both sheets of `RegCell` agree slot by slot, so they are equal. */
    lemma SnapshotsAgree(before: Sheet, row: int, col: int, c: Cell)
      requires Valid() && WellShaped(before)
      requires before.rows == maxRowSize && before.cols == maxColSize
      requires InBounds(row, col, maxRowSize, maxColSize)
      requires forall i, j :: 0 <= i < maxRowSize && 0 <= j < maxColSize ==>
                 grid[i, j] == if i == row && j == col then Some(c) else before.cells[i][j]
      ensures Snapshot() == Put(before, row, col, c)
    {
      var now := Snapshot();
      var put := Put(before, row, col, c);
      forall i | 0 <= i < maxRowSize
        ensures now.cells[i] == put.cells[i]
      {
        assert forall j :: 0 <= j < maxColSize ==> now.cells[i][j] == grid[i, j];
      }
    }

    /** The evaluation loop of `ExprCell::to_numeric` over the postfix
        tokens in `toks`, on an operand stack of `double`s with default 0. */
    method Evaluate(toks: Vector, fuel: nat) returns (r: Outcome<int>)
      requires Valid() && toks.Valid()
      ensures r == Finish(EvalTokens(Snapshot(), toks.Contents(), [], fuel))
      decreases fuel, 5
    {
      ghost var sh := Snapshot();
      ghost var all := toks.Contents();
      var stack := new Stack<real>(0.0);
      var n := toks.Size();
      var i := 0;
      while i < n
        invariant 0 <= i <= n == |all|
        invariant toks.Valid() && toks.Contents() == all
        invariant stack.Valid() && stack.Default() == 0.0
        invariant EvalTokens(sh, all[i..], stack.Contents, fuel) == EvalTokens(sh, all, [], fuel)
      {
        var s := toks.Get(i);
        assert all[i..] == [s] + all[i + 1..];
        var failure := Step(s, stack, fuel);
        if failure.Some? {
          return Err(failure.value);
        }
        i := i + 1;
      }
      assert all[i..] == [];
      var top := stack.Pop();
      r := Ok(Trunc(top));
    }

    /** One turn of the evaluation loop: the token's effect on the operand
        stack, or the error that stops the evaluation. */
    method Step(s: string, stack: Stack<real>, fuel: nat) returns (failure: Option<EvalError>)
      requires Valid() && stack.Valid() && stack.Default() == 0.0
      modifies stack
      ensures stack.Valid()
      ensures match EvalStep(Snapshot(), s, old(stack.Contents), fuel)
              case Ok(st) => failure == None && stack.Contents == st
              case Err(e) => failure == Some(e)
      decreases fuel, 4
    {
      if IsAlpha(Head(s)) {
        var v := ToNumericAt(s, fuel);
        if v.Err? {
          return Some(v.error);
        }
        stack.Push(v.value as real);
      } else if IsDigit(Head(s)) {
        stack.Push(Atoi(s) as real);
      } else {
        failure := ApplyOperator(s, stack);
        return;
      }
      failure := None;
    }

    /** The operator case of the evaluation loop: pop `y`, then `x`, and
        push `x op y`. */
    static method ApplyOperator(s: string, stack: Stack<real>) returns (failure: Option<EvalError>)
      requires stack.Valid() && stack.Default() == 0.0
      modifies stack
      ensures stack.Valid()
      ensures match ApplyToken(s, old(stack.Contents))
              case Ok(st) => failure == None && stack.Contents == st
              case Err(e) => failure == Some(e)
    {
      var y := stack.Pop();
      var x := stack.Pop();
      if IsOperatorChar(Head(s)) {
        var v := Combine(Head(s), x, y);
        if v.Err? {
          return Some(v.error);
        }
        stack.Push(v.value);
      }
      failure := None;
    }

    /** `to_numeric(const string&)`: the column is the first letter, the row
        the number after it. */
    method ToNumericAt(s: string, fuel: nat) returns (r: Outcome<int>)
      requires Valid() && |s| >= 1
      ensures r == AddressNumeric(Snapshot(), s, fuel)
      decreases fuel, 3
    {
      var col := s[0] as int - 'A' as int;
      var row := Atoi(s[1..]) - 1;
      r := ToNumeric(row, col, fuel);
    }

    /** `to_numeric(int, int)`: the cell's value, or 0 for an empty slot or
        an address outside the grid. */
    method ToNumeric(row: int, col: int, fuel: nat) returns (r: Outcome<int>)
      requires Valid()
      ensures r == NumericAt(Snapshot(), row, col, fuel)
      decreases fuel, 2
    {
      if InBounds(row, col, maxRowSize, maxColSize) && grid[row, col].Some? {
        r := CellToNumeric(grid[row, col].value, fuel);
      } else {
        r := Ok(0);
      }
    }

    /** The virtual `to_numeric` of a cell in the grid. */
    method CellToNumeric(c: Cell, fuel: nat) returns (r: Outcome<int>)
      requires Valid()
      ensures r == CellNumeric(Snapshot(), c, fuel)
      decreases fuel, 1
    {
      match c
      case StringCell(_) => r := Ok(0);
      case NumberCell(n) => r := Ok(n);
      case FormulaCell(t) => r := FormulaToNumeric(t, fuel);
    }

    /** A formula in the grid is evaluated as a fresh `ExprCell` holding its
        text; the references in it get one level less of budget. */
    method FormulaToNumeric(text: string, fuel: nat) returns (r: Outcome<int>)
      requires Valid()
      ensures r == FormulaNumeric(Snapshot(), text, fuel)
      decreases fuel, 0
    {
      if fuel == 0 {
        return Err(DepthExceeded);
      }
      var cell := new ExprCell(text, this);
      r := cell.ToNumeric(fuel - 1);
    }

    /** `stringify(int, int)`: the cell's text, or `""` for an empty slot
        or an address outside the grid. */
    method Stringify(row: int, col: int, fuel: nat) returns (r: Outcome<string>)
      requires Valid()
      ensures r == TextAt(Snapshot(), row, col, fuel)
    {
      if !(InBounds(row, col, maxRowSize, maxColSize) && grid[row, col].Some?) {
        return Ok("");
      }
      match grid[row, col].value
      case StringCell(s) => r := Ok(s);
      case NumberCell(n) => r := Ok(IntToString(n));
      case FormulaCell(t) =>
        var v := FormulaToNumeric(t, fuel);
        r := if v.Ok? then Ok(IntToString(v.value)) else Err(v.error);
    }
  }

  /** `ExprCell`: the formula text `data` and the postfix tokens `expVec`.
      Both persist between calls: every `to_numeric` wraps `data` in one
      more pair of brackets and appends its tokens to `expVec`. */
  class ExprCell {
    var data: string
    const expVec: Vector
    const table: Table
    ghost var Repr: set<object>

    ghost predicate Valid()
      reads this, Repr
    {
      this in Repr && expVec in Repr && expVec.Repr <= Repr && this !in expVec.Repr &&
      expVec.Valid() && table.Valid() && table.grid !in Repr
    }

    constructor (data: string, table: Table)
      requires table.Valid()
      ensures Valid() && fresh(Repr)
      ensures this.data == data && this.table == table && expVec.Contents() == []
    {
      this.data := data;
      this.table := table;
      expVec := new Vector();
      new;
      Repr := {this} + expVec.Repr;
    }

    /** `parse_expression`. */
    method ParseExpression()
      requires Valid()
      modifies Repr
      ensures Valid() && fresh(Repr - old(Repr))
      ensures data == Wrap(old(data))
      ensures expVec.Contents() == Run(data, [], old(expVec.Contents())).out
    {
      data := Wrap(data);
      ParseInto(data, expVec);
      Repr := Repr + expVec.Repr;
    }

    /** `to_numeric`: parse, then evaluate every token collected so far. The
        evaluation loop itself is `Table.Evaluate`. A reference token asks
        the table, and the table evaluates a formula it finds with a new
        cell, so this method and the table's lookups call each other; the
        loop needs only the token vector and the table, and sits beside the
        lookups it calls, with the budget `fuel` ordering the whole group. */
    method ToNumeric(fuel: nat) returns (r: Outcome<int>)
      requires Valid()
      modifies Repr
      ensures Valid() && fresh(Repr - old(Repr))
      ensures data == Wrap(old(data))
      ensures expVec.Contents() == Run(data, [], old(expVec.Contents())).out
      ensures r == Finish(EvalTokens(table.Snapshot(), expVec.Contents(), [], fuel))
      decreases fuel, 6
    {
      ParseExpression();
      r := table.Evaluate(expVec, fuel);
    }

    /** `stringify`: the decimal text of `to_numeric`. */
    method Stringify(fuel: nat) returns (r: Outcome<string>)
      requires Valid()
      modifies Repr
      ensures Valid() && fresh(Repr - old(Repr))
      ensures data == Wrap(old(data))
      ensures expVec.Contents() == Run(data, [], old(expVec.Contents())).out
      ensures r == match Finish(EvalTokens(table.Snapshot(), expVec.Contents(), [], fuel))
                   case Ok(n) => Ok(IntToString(n))
                   case Err(e) => Err(e)
    {
      var v := ToNumeric(fuel);
      r := if v.Ok? then Ok(IntToString(v.value)) else Err(v.error);
    }
  }
}
