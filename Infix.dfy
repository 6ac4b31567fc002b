/** What the formula engine computes, stated against an independent
    definition: formulas built as expression trees. A tree is printed with
    brackets only where the grammar needs them (a left operand that binds at
    least as tightly as its operator, a right operand that binds strictly
    more tightly), so precedence and left-associativity decide how the
    printed text must be read. The theorems say that the shunting-yard
    conversion of the printed text is the tree's postorder, and that the
    evaluation of that postfix is the tree's value, for every well-formed
    tree. */
module Infix {
  import opened Wrappers
  import opened Strings
  import opened Postfix
  import opened Sheets

  /** A one-digit literal, a two-character reference (a letter and any
      character), a binary operation, or a bracketed group whose open and
      close brackets may be of different kinds, as the engine allows. */
  datatype Expr =
    | Digit(d: nat)
    | Ref(letter: char, second: char)
    | Bin(op: char, left: Expr, right: Expr)
    | Group(open: char, inner: Expr, close: char)

  /** How tightly the tree's top binds: the operator's precedence, and 3 for
      literals, references and groups. */
  function Rank(e: Expr): nat
  {
    match e
    case Bin(op, _, _) => Precedence(op)
    case _ => 3
  }

  ghost predicate WellFormed(e: Expr)
  {
    match e
    case Digit(d) => d < 10
    case Ref(a, _) => IsAlpha(a)
    case Bin(op, l, r) =>
      IsOperatorChar(op) && WellFormed(l) && WellFormed(r) &&
      Rank(l) >= Precedence(op) && Rank(r) > Precedence(op)
    case Group(o, inner, c) => IsOpenChar(o) && IsCloseChar(c) && WellFormed(inner)
  }

  function Print(e: Expr): string
    requires WellFormed(e)
  {
    match e
    case Digit(d) => [DigitChar(d)]
    case Ref(a, b) => [a, b]
    case Bin(op, l, r) => Print(l) + [op] + Print(r)
    case Group(o, inner, c) => [o] + Print(inner) + [c]
  }

  /** The tree's tokens in postfix order, as the engine names them. */
  function Postorder(e: Expr): seq<string>
    requires WellFormed(e)
  {
    match e
    case Digit(d) => [[DigitChar(d)]]
    case Ref(a, b) => [[a, b]]
    case Bin(op, l, r) => Postorder(l) + Postorder(r) + [[op]]
    case Group(_, inner, _) => Postorder(inner)
  }

  /** The value of a tree, left operand first; references are looked up in
      the sheet as `Table::to_numeric` does. */
  function EvalExpr(sh: Sheet, e: Expr, fuel: nat): Outcome<real>
    requires WellFormed(e)
  {
    match e
    case Digit(d) => Ok(d as real)
    case Ref(a, b) =>
      (match AddressNumeric(sh, [a, b], fuel)
       case Ok(v) => Ok(v as real)
       case Err(x) => Err(x))
    case Bin(op, l, r) =>
      (match EvalExpr(sh, l, fuel)
       case Err(x) => Err(x)
       case Ok(x) =>
         match EvalExpr(sh, r, fuel)
         case Err(y) => Err(y)
         case Ok(y) => Combine(op, x, y))
    case Group(_, inner, _) => EvalExpr(sh, inner, fuel)
  }

  function Reversed(s: seq<string>): seq<string>
  {
    if s == [] then [] else [s[|s| - 1]] + Reversed(s[..|s| - 1])
  }

  /** The operators of `e` still on the stack when its text has been read
      (bottom first), and what has been output by then. */
  ghost function Pending(e: Expr): seq<string>
  {
    match e
    case Bin(op, _, r) => [[op]] + Pending(r)
    case _ => []
  }

  ghost function Emitted(e: Expr): seq<string>
    requires WellFormed(e)
  {
    match e
    case Bin(_, l, r) => Postorder(l) + Emitted(r)
    case _ => Postorder(e)
  }

  /** Every entry is an operator ranking at least `p`. */
  ghost predicate OperatorsAtLeast(s: seq<string>, p: nat)
  {
    forall k :: 0 <= k < |s| ==> IsOperatorChar(Head(s[k])) && Precedence(Head(s[k])) >= p
  }

  lemma {:induction false} ReversedPrepend(x: string, s: seq<string>)
    ensures Reversed([x] + s) == Reversed(s) + [x]
    decreases |s|
  {
    if s != [] {
      var t := [x] + s;
      assert t[..|t| - 1] == [x] + s[..|s| - 1];
      ReversedPrepend(x, s[..|s| - 1]);
    }
  }

  lemma {:induction false} PendingOperators(e: Expr)
    requires WellFormed(e)
    ensures OperatorsAtLeast(Pending(e), Rank(e))
  {
    if e.Bin? {
      PendingOperators(e.right);
    }
  }

  /** Popping the pending operators in reverse completes the postorder. */
  lemma {:induction false} FlushCompletes(e: Expr)
    requires WellFormed(e)
    ensures Emitted(e) + Reversed(Pending(e)) == Postorder(e)
  {
    if e.Bin? {
      FlushCompletes(e.right);
      ReversedPrepend([e.op], Pending(e.right));
    }
  }

  /** An operator of rank `p` pops exactly the operators above `st` when
      they all rank at least `p` and the top of `st` ranks below it. */
  lemma {:induction false} PopOperatorsAbove(st: seq<string>, ops: seq<string>, out: seq<string>, p: nat)
    requires OperatorsAtLeast(ops, p)
    requires st == [] || Precedence(Head(st[|st| - 1])) < p
    ensures PopWhileAtLeast(st + ops, out, p) == Conversion(st, out + Reversed(ops))
    decreases |ops|
  {
    if ops == [] {
      assert st + ops == st && out + Reversed(ops) == out;
    } else {
      var t, init := ops[|ops| - 1], ops[..|ops| - 1];
      assert ops == init + [t];
      assert Precedence(Head(t)) >= p && OperatorsAtLeast(init, p);
      calc {
        PopWhileAtLeast(st + ops, out, p);
        { assert st + ops == (st + init) + [t]; }
        PopWhileAtLeast((st + init) + [t], out, p);
        { PopOneAtLeast(st + init, t, out, p); }
        PopWhileAtLeast(st + init, out + [t], p);
        { PopOperatorsAbove(st, init, out + [t], p); }
        Conversion(st, out + [t] + Reversed(init));
        { ReversedSnoc(init, t); }
        Conversion(st, out + Reversed(ops));
      }
    }
  }

  /** An operator ranking at least `p` on top of the stack is moved to the
      output. */
  lemma PopOneAtLeast(below: seq<string>, t: string, out: seq<string>, p: nat)
    requires Precedence(Head(t)) >= p
    ensures PopWhileAtLeast(below + [t], out, p) == PopWhileAtLeast(below, out + [t], p)
  {
    var s := below + [t];
    assert s[|s| - 1] == t && s[..|s| - 1] == below;
  }

  lemma ReversedSnoc(s: seq<string>, t: string)
    ensures Reversed(s + [t]) == [t] + Reversed(s)
  {
    var u := s + [t];
    assert u[|u| - 1] == t && u[..|u| - 1] == s;
  }

  /** A close bracket pops the operators above the nearest open bracket and
      that bracket, whatever its kind. */
  lemma {:induction false} PopToOpenAbove(st: seq<string>, o: string, ops: seq<string>, out: seq<string>)
    requires IsOpenToken(o) && OperatorsAtLeast(ops, 1)
    ensures PopToOpen(st + [o] + ops, out) == Conversion(st, out + Reversed(ops))
    decreases |ops|
  {
    var s := st + [o] + ops;
    if ops == [] {
      assert s[|s| - 1] == o && s[..|s| - 1] == st;
    } else {
      var t := ops[|ops| - 1];
      assert s[|s| - 1] == t && s[..|s| - 1] == st + [o] + ops[..|ops| - 1];
      assert !IsOpenToken(t) && t != "" by {
        assert IsOperatorChar(Head(t));
      }
      PopToOpenAbove(st, o, ops[..|ops| - 1], out + [t]);
      assert out + [t] + Reversed(ops[..|ops| - 1]) == out + Reversed(ops);
    }
  }

  lemma RunDigit(c: char, rest: string, st: seq<string>, out: seq<string>)
    requires IsDigit(c)
    ensures Run([c] + rest, st, out) == Run(rest, st, out + [[c]])
  {
    assert ([c] + rest)[1..] == rest;
  }

  lemma RunReference(a: char, b: char, rest: string, st: seq<string>, out: seq<string>)
    requires IsAlpha(a)
    ensures Run([a, b] + rest, st, out) == Run(rest, st, out + [[a, b]])
  {
    var cs := [a, b] + rest;
    assert cs[0] == a && cs[..2] == [a, b] && cs[2..] == rest;
  }

  lemma RunOpen(c: char, rest: string, st: seq<string>, out: seq<string>)
    requires IsOpenChar(c)
    ensures Run([c] + rest, st, out) == Run(rest, st + [[c]], out)
  {
    assert ([c] + rest)[1..] == rest;
  }

  lemma RunClose(c: char, rest: string, st: seq<string>, out: seq<string>)
    requires IsCloseChar(c)
    ensures Run([c] + rest, st, out) == Run(rest, PopToOpen(st, out).stack, PopToOpen(st, out).out)
  {
    assert ([c] + rest)[1..] == rest;
  }

  lemma RunOperator(c: char, rest: string, st: seq<string>, out: seq<string>)
    requires IsOperatorChar(c)
    ensures Run([c] + rest, st, out) ==
            Run(rest, PopWhileAtLeast(st, out, Precedence(c)).stack + [[c]], PopWhileAtLeast(st, out, Precedence(c)).out)
  {
    assert ([c] + rest)[1..] == rest;
  }

  /** Reading the text of `e` from stack `st` outputs `Emitted(e)` and
      leaves `Pending(e)` on top of `st`, provided the top of `st` ranks
      below every operator of `e` that is outside brackets. */
  lemma {:induction false} RunPrinted(e: Expr, rest: string, st: seq<string>, out: seq<string>)
    requires WellFormed(e)
    requires st == [] || Precedence(Head(st[|st| - 1])) < Rank(e)
    ensures Run(Print(e) + rest, st, out) == Run(rest, st + Pending(e), out + Emitted(e))
    decreases e, 1
  {
    match e
    case Digit(d) =>
      RunDigit(DigitChar(d), rest, st, out);
      assert st + [] == st;
    case Ref(a, b) =>
      RunReference(a, b, rest, st, out);
      assert st + [] == st;
    case Group(o, inner, c) =>
      RunPrintedGroup(o, inner, c, rest, st, out);
      assert st + Pending(e) == st && Emitted(e) == Postorder(inner);
    case Bin(op, l, r) =>
      RunPrintedBin(op, l, r, rest, st, out);
      assert st + [[op]] + Pending(r) == st + Pending(e);
      assert out + Postorder(l) + Emitted(r) == out + Emitted(e);
  }

  lemma {:induction false} RunPrintedGroup(o: char, inner: Expr, c: char, rest: string, st: seq<string>, out: seq<string>)
    requires WellFormed(Group(o, inner, c))
    ensures Run(Print(Group(o, inner, c)) + rest, st, out) == Run(rest, st, out + Postorder(inner))
    decreases Group(o, inner, c), 0
  {
    var tail := [c] + rest;
    calc {
      Run(Print(Group(o, inner, c)) + rest, st, out);
      { assert Print(Group(o, inner, c)) + rest == [o] + (Print(inner) + tail); }
      Run([o] + (Print(inner) + tail), st, out);
      { RunOpen(o, Print(inner) + tail, st, out); }
      Run(Print(inner) + tail, st + [[o]], out);
      { RunPrinted(inner, tail, st + [[o]], out); }
      Run(tail, st + [[o]] + Pending(inner), out + Emitted(inner));
      { CloseAfterGroup(o, inner, c, rest, st, out); }
      Run(rest, st, out + Postorder(inner));
    }
  }

  /** The close bracket after a group's contents pops their pending
      operators, completing their postorder, and the group's open bracket. */
  lemma CloseAfterGroup(o: char, inner: Expr, c: char, rest: string, st: seq<string>, out: seq<string>)
    requires WellFormed(Group(o, inner, c))
    ensures Run([c] + rest, st + [[o]] + Pending(inner), out + Emitted(inner)) == Run(rest, st, out + Postorder(inner))
  {
    var s, done := st + [[o]] + Pending(inner), out + Emitted(inner);
    GroupFlushed(o, inner, c, st, out);
    RunClose(c, rest, s, done);
  }

  /** Popping to the open bracket of a group whose contents have been read
      leaves the stack below the group and the contents' full postorder. */
  lemma GroupFlushed(o: char, inner: Expr, c: char, st: seq<string>, out: seq<string>)
    requires WellFormed(Group(o, inner, c))
    ensures PopToOpen(st + [[o]] + Pending(inner), out + Emitted(inner)) == Conversion(st, out + Postorder(inner))
  {
    PendingOperators(inner);
    FlushCompletes(inner);
    FlushToOpen(st, [o], Pending(inner), Emitted(inner), Postorder(inner), out);
  }

  /** Popping operators down to an open bracket appends them, reversed, to
      the output, completing whatever they finish. */
  lemma FlushToOpen(st: seq<string>, o: string, ops: seq<string>, emitted: seq<string>, whole: seq<string>, out: seq<string>)
    requires IsOpenToken(o) && OperatorsAtLeast(ops, 1)
    requires emitted + Reversed(ops) == whole
    ensures PopToOpen(st + [o] + ops, out + emitted) == Conversion(st, out + whole)
  {
    PopToOpenAbove(st, o, ops, out + emitted);
    assert out + emitted + Reversed(ops) == out + whole;
  }

  lemma {:induction false} RunPrintedBin(op: char, l: Expr, r: Expr, rest: string, st: seq<string>, out: seq<string>)
    requires WellFormed(Bin(op, l, r))
    requires st == [] || Precedence(Head(st[|st| - 1])) < Precedence(op)
    ensures Run(Print(Bin(op, l, r)) + rest, st, out) ==
            Run(rest, st + [[op]] + Pending(r), out + Postorder(l) + Emitted(r))
    decreases Bin(op, l, r), 0
  {
    var after, st', out' := Print(r) + rest, st + [[op]], out + Postorder(l);
    PrintBin(op, l, r, rest);
    LeftOperandThenOperator(op, l, after, st, out);
    assert st'[|st'| - 1] == [op] && Head([op]) == op;
    RunPrinted(r, rest, st', out');
  }

  /** The text of an operation is its left operand's, the operator, then
      its right operand's. */
  lemma PrintBin(op: char, l: Expr, r: Expr, rest: string)
    requires WellFormed(Bin(op, l, r))
    ensures Print(Bin(op, l, r)) + rest == Print(l) + ([op] + (Print(r) + rest))
  {
    assert Print(Bin(op, l, r)) == Print(l) + [op] + Print(r);
  }

  /** A left operand followed by its operator: the operand's postorder is
      complete and the operator is on the stack. */
  lemma {:induction false} LeftOperandThenOperator(op: char, l: Expr, rest: string, st: seq<string>, out: seq<string>)
    requires IsOperatorChar(op) && WellFormed(l) && Rank(l) >= Precedence(op)
    requires st == [] || Precedence(Head(st[|st| - 1])) < Precedence(op)
    ensures Run(Print(l) + ([op] + rest), st, out) == Run(rest, st + [[op]], out + Postorder(l))
    decreases l, 2
  {
    RunPrinted(l, [op] + rest, st, out);
    OperatorAfterOperand(op, l, rest, st, out);
  }

  /** The operator after a left operand pops all of the operand's pending
      operators, completing its postorder, and is then pushed. */
  lemma OperatorAfterOperand(op: char, l: Expr, rest: string, st: seq<string>, out: seq<string>)
    requires IsOperatorChar(op) && WellFormed(l) && Rank(l) >= Precedence(op)
    requires st == [] || Precedence(Head(st[|st| - 1])) < Precedence(op)
    ensures Run([op] + rest, st + Pending(l), out + Emitted(l)) == Run(rest, st + [[op]], out + Postorder(l))
  {
    PendingOperators(l);
    PopOperatorsAbove(st, Pending(l), out + Emitted(l), Precedence(op));
    FlushCompletes(l);
    assert out + Emitted(l) + Reversed(Pending(l)) == out + Postorder(l);
    RunOperator(op, rest, st + Pending(l), out + Emitted(l));
  }

  /** The conversion of a well-formed printed formula is its postorder. */
  lemma PostfixOfPrinted(e: Expr)
    requires WellFormed(e)
    ensures ToPostfix(Print(e)) == Postorder(e)
  {
    var g := Group('(', e, ')');
    assert Wrap(Print(e)) == Print(g) + [];
    RunPrinted(g, [], [], []);
  }

  /** Running the postorder of `e` pushes the value of `e`, or fails as
      evaluating `e` does. */
  lemma {:induction false} EvalPostorder(sh: Sheet, e: Expr, rest: seq<string>, st: seq<real>, fuel: nat)
    requires WellFormed(e)
    ensures EvalTokens(sh, Postorder(e) + rest, st, fuel) ==
            match EvalExpr(sh, e, fuel)
            case Ok(v) => EvalTokens(sh, rest, st + [v], fuel)
            case Err(x) => Err(x)
  {
    match e
    case Digit(d) =>
      var c := DigitChar(d);
      assert (Postorder(e) + rest)[0] == [c] && (Postorder(e) + rest)[1..] == rest;
      assert [c] == [c] + [];
      AtoiOfDigits([c], []);
    case Ref(a, b) =>
      assert (Postorder(e) + rest)[0] == [a, b] && (Postorder(e) + rest)[1..] == rest;
    case Group(_, inner, _) =>
      EvalPostorder(sh, inner, rest, st, fuel);
    case Bin(op, l, r) =>
      var tail := Postorder(r) + ([[op]] + rest);
      assert Postorder(e) + rest == Postorder(l) + tail;
      EvalPostorder(sh, l, tail, st, fuel);
      match EvalExpr(sh, l, fuel)
      case Err(_) =>
      case Ok(x) =>
        EvalPostorder(sh, r, [[op]] + rest, st + [x], fuel);
        match EvalExpr(sh, r, fuel)
        case Err(_) =>
        case Ok(y) =>
          var toks := [[op]] + rest;
          var st2 := st + [x] + [y];
          assert toks[0] == [op] && toks[1..] == rest && Head([op]) == op;
          assert PopValue(st2) == (y, st + [x]);
          assert PopValue(st + [x]) == (x, st);
  }

  /** A fresh formula cell holding the text of `e` evaluates to the value of
      `e`, truncated to an integer, with references one level deeper. */
  lemma FormulaMeaning(sh: Sheet, e: Expr, fuel: nat)
    requires WellFormed(e)
    ensures FormulaNumeric(sh, Print(e), fuel + 1) ==
            match EvalExpr(sh, e, fuel)
            case Ok(v) => Ok(Trunc(v))
            case Err(x) => Err(x)
  {
    PostfixOfPrinted(e);
    EvalPostorder(sh, e, [], [], fuel);
    assert Postorder(e) + [] == Postorder(e);
  }

  /** Multiplication binds tighter than addition: `3+4*2` is 11. */
  lemma TimesBindsTighter(sh: Sheet, fuel: nat)
    ensures FormulaNumeric(sh, "3+4*2", fuel + 1) == Ok(11)
  {
    var e := Bin('+', Digit(3), Bin('*', Digit(4), Digit(2)));
    assert DigitChar(3) == '3' && DigitChar(4) == '4' && DigitChar(2) == '2';
    assert Print(e) == "3+4*2";
    assert EvalExpr(sh, Bin('*', Digit(4), Digit(2)), fuel) == Ok(8.0);
    assert EvalExpr(sh, e, fuel) == Ok(11.0);
    assert Trunc(11.0) == 11;
    FormulaMeaning(sh, e, fuel);
  }

  /** Brackets group: `(3+4)*2` is 14. */
  lemma BracketsGroup(sh: Sheet, fuel: nat)
    ensures FormulaNumeric(sh, "(3+4)*2", fuel + 1) == Ok(14)
  {
    var e := Bin('*', Group('(', Bin('+', Digit(3), Digit(4)), ')'), Digit(2));
    assert DigitChar(3) == '3' && DigitChar(4) == '4' && DigitChar(2) == '2';
    assert Print(e) == "(3+4)*2";
    assert EvalExpr(sh, Bin('+', Digit(3), Digit(4)), fuel) == Ok(7.0);
    assert EvalExpr(sh, e, fuel) == Ok(14.0);
    assert Trunc(14.0) == 14;
    FormulaMeaning(sh, e, fuel);
  }

  /** Operators of equal precedence associate to the left: `9-3-2` is 4. */
  lemma SubtractionAssociatesLeft(sh: Sheet, fuel: nat)
    ensures FormulaNumeric(sh, "9-3-2", fuel + 1) == Ok(4)
  {
    var e := Bin('-', Bin('-', Digit(9), Digit(3)), Digit(2));
    assert DigitChar(9) == '9' && DigitChar(3) == '3' && DigitChar(2) == '2';
    assert Print(e) == "9-3-2";
    assert EvalExpr(sh, Bin('-', Digit(9), Digit(3)), fuel) == Ok(6.0);
    assert EvalExpr(sh, e, fuel) == Ok(4.0);
    assert Trunc(4.0) == 4;
    FormulaMeaning(sh, e, fuel);
  }

  /** For every three digits, `a-b/c` is `a - b / c` truncated, and `a/b-c`
      is `a / b - c` truncated: the operand order is kept. */
  lemma OperandOrder(sh: Sheet, a: nat, b: nat, c: nat, fuel: nat)
    requires a < 10 && b < 10 && c < 10
    ensures 0 < c ==>
      FormulaNumeric(sh, [DigitChar(a), '-', DigitChar(b), '/', DigitChar(c)], fuel + 1) ==
      Ok(Trunc(a as real - b as real / c as real))
    ensures 0 < b ==>
      FormulaNumeric(sh, [DigitChar(a), '/', DigitChar(b), '-', DigitChar(c)], fuel + 1) ==
      Ok(Trunc(a as real / b as real - c as real))
  {
    if 0 < c {
      SubtractQuotient(sh, a, b, c, fuel);
    }
    if 0 < b {
      SubtractFromQuotient(sh, a, b, c, fuel);
    }
  }

  lemma SubtractQuotient(sh: Sheet, a: nat, b: nat, c: nat, fuel: nat)
    requires a < 10 && b < 10 && 0 < c < 10
    ensures FormulaNumeric(sh, [DigitChar(a), '-', DigitChar(b), '/', DigitChar(c)], fuel + 1) ==
            Ok(Trunc(a as real - b as real / c as real))
  {
    var q := Bin('/', Digit(b), Digit(c));
    var e := Bin('-', Digit(a), q);
    assert WellFormed(Digit(a)) && WellFormed(Digit(b)) && WellFormed(Digit(c));
    assert WellFormed(q) && Rank(q) == 2;
    assert WellFormed(e);
    assert Print(q) == [DigitChar(b), '/', DigitChar(c)];
    assert Print(e) == [DigitChar(a), '-', DigitChar(b), '/', DigitChar(c)];
    assert EvalExpr(sh, q, fuel) == Ok(b as real / c as real);
    assert EvalExpr(sh, e, fuel) == Ok(a as real - b as real / c as real);
    FormulaMeaning(sh, e, fuel);
  }

  lemma SubtractFromQuotient(sh: Sheet, a: nat, b: nat, c: nat, fuel: nat)
    requires a < 10 && 0 < b < 10 && c < 10
    ensures FormulaNumeric(sh, [DigitChar(a), '/', DigitChar(b), '-', DigitChar(c)], fuel + 1) ==
            Ok(Trunc(a as real / b as real - c as real))
  {
    var q := Bin('/', Digit(a), Digit(b));
    var e := Bin('-', q, Digit(c));
    assert WellFormed(Digit(a)) && WellFormed(Digit(b)) && WellFormed(Digit(c));
    assert WellFormed(q) && Rank(q) == 2;
    assert WellFormed(e);
    assert Print(q) == [DigitChar(a), '/', DigitChar(b)];
    assert Print(e) == [DigitChar(a), '/', DigitChar(b), '-', DigitChar(c)];
    assert EvalExpr(sh, q, fuel) == Ok(a as real / b as real);
    assert EvalExpr(sh, e, fuel) == Ok(a as real / b as real - c as real);
    FormulaMeaning(sh, e, fuel);
  }

  /** A reference to a cell in rows 1 to 9 holding a number has that
      number as its value. */
  lemma NumberReference(sh: Sheet, a: char, row: nat, v: int, fuel: nat)
    requires 'A' <= a <= 'Z' && row < 9
    requires Occupant(sh, row, a as int - 'A' as int) == Some(NumberCell(v))
    ensures EvalExpr(sh, Ref(a, DigitChar(row + 1)), fuel) == Ok(v as real)
  {
    var b := DigitChar(row + 1);
    DecodeEncodedAddress(a, row);
    assert IntToString(row + 1) == [b];
    assert [a] + [b] == [a, b];
    assert NumericAt(sh, row, a as int - 'A' as int, fuel) == Ok(v);
    assert AddressNumeric(sh, [a, b], fuel) == Ok(v);
  }

  /** `isalpha` also accepts lower-case letters, and decoding subtracts
      `'A'` from them too: a reference `a1` ... `z9` reads a slot in
      columns 32 to 57. */
  lemma LowerCaseReference(sh: Sheet, a: char, row: nat, fuel: nat)
    requires 'a' <= a <= 'z' && row < 9
    ensures 32 <= a as int - 'A' as int <= 57
    ensures EvalExpr(sh, Ref(a, DigitChar(row + 1)), fuel) ==
            match NumericAt(sh, row, a as int - 'A' as int, fuel)
            case Ok(v) => Ok(v as real)
            case Err(x) => Err(x)
  {
    var b := DigitChar(row + 1);
    DecodeEncodedAddress(a, row);
    assert IntToString(row + 1) == [b];
    assert [a] + [b] == [a, b];
  }

  /** With `A1` holding 3 and `B2` holding 4, `A1+B2` is 7. */
  lemma ReferencesResolve(sh: Sheet, text: string, fuel: nat)
    requires text == "A1+B2"
    requires Occupant(sh, 0, 0) == Some(NumberCell(3)) && Occupant(sh, 1, 1) == Some(NumberCell(4))
    ensures FormulaNumeric(sh, text, fuel + 1) == Ok(7)
  {
    assert DigitChar(1) == '1' && DigitChar(2) == '2';
    var e := Bin('+', Ref('A', '1'), Ref('B', '2'));
    assert Print(e) == text;
    NumberReference(sh, 'A', 0, 3, fuel);
    NumberReference(sh, 'B', 1, 4, fuel);
    assert EvalExpr(sh, e, fuel) == Ok(7.0);
    assert Trunc(7.0) == 7;
    FormulaMeaning(sh, e, fuel);
  }

  /** A cell whose formula is its own address never yields a value: every
      depth budget runs out. */
  lemma {:induction false} SelfReferenceExhaustsDepth(sh: Sheet, fuel: nat)
    requires Occupant(sh, 0, 0) == Some(FormulaCell("A1"))
    ensures NumericAt(sh, 0, 0, fuel) == Err(DepthExceeded)
  {
    if fuel > 0 {
      var e := Ref('A', '1');
      assert Print(e) == "A1";
      FormulaMeaning(sh, e, fuel - 1);
      DecodeEncodedAddress('A', 0);
      assert ['A'] + IntToString(1) == "A1";
      SelfReferenceExhaustsDepth(sh, fuel - 1);
    }
  }

  /** The operand a tree reads first: its leftmost literal or reference. */
  function Leftmost(e: Expr): Expr
  {
    match e
    case Bin(_, l, _) => Leftmost(l)
    case Group(_, inner, _) => Leftmost(inner)
    case _ => e
  }

  /** When the operand read first fails, the whole tree fails the same way. */
  lemma {:induction false} LeftmostFailurePropagates(sh: Sheet, e: Expr, fuel: nat)
    requires WellFormed(e) && WellFormed(Leftmost(e)) && EvalExpr(sh, Leftmost(e), fuel).Err?
    ensures EvalExpr(sh, e, fuel) == EvalExpr(sh, Leftmost(e), fuel)
  {
    match e
    case Bin(_, l, _) => LeftmostFailurePropagates(sh, l, fuel);
    case Group(_, inner, _) => LeftmostFailurePropagates(sh, inner, fuel);
    case _ =>
  }

  lemma {:induction false} LeftmostWellFormed(e: Expr)
    requires WellFormed(e)
    ensures WellFormed(Leftmost(e))
  {
    match e
    case Bin(_, l, _) => LeftmostWellFormed(l);
    case Group(_, inner, _) => LeftmostWellFormed(inner);
    case _ =>
  }

  /** A formula cell in rows 1 to 9 and columns `A` to `Z`: its column
      letter, its row index and the tree whose text it holds. */
  datatype Link = Link(letter: char, row: nat, formula: Expr)

  function Column(l: Link): int
  {
    l.letter as int - 'A' as int
  }

  /** The reference token that names the cell of `l`. */
  function Address(l: Link): Expr
    requires l.row < 9
  {
    Ref(l.letter, DigitChar(l.row + 1))
  }

  /** The sheet holds the formula of `l` at the cell of `l`. */
  ghost predicate Holds(sh: Sheet, l: Link)
  {
    'A' <= l.letter <= 'Z' && l.row < 9 && WellFormed(l.formula) &&
    Occupant(sh, l.row, Column(l)) == Some(FormulaCell(Print(l.formula)))
  }

  /** The index after `i` in a cycle of length `n`. */
  function Next(i: nat, n: nat): (j: nat)
    requires i < n
    ensures j < n
  {
    if i + 1 < n then i + 1 else 0
  }

  /** Each cell of `links` holds a formula whose first operand refers to the
      next cell, and the last refers back to the first. */
  ghost predicate IsCycle(sh: Sheet, links: seq<Link>)
  {
    |links| > 0 &&
    (forall i :: 0 <= i < |links| ==> Holds(sh, links[i])) &&
    (forall i {:trigger Leftmost(links[i].formula)} :: 0 <= i < |links| ==>
       Leftmost(links[i].formula) == Address(links[Next(i, |links|)]))
  }

  /** A reference to a cell whose lookup fails fails the same way. */
  lemma AddressFails(sh: Sheet, n: Link, fuel: nat)
    requires 'A' <= n.letter <= 'Z' && n.row < 9
    requires NumericAt(sh, n.row, Column(n), fuel) == Err(DepthExceeded)
    ensures EvalExpr(sh, Address(n), fuel) == Err(DepthExceeded)
  {
    var b := DigitChar(n.row + 1);
    DecodeEncodedAddress(n.letter, n.row);
    assert IntToString(n.row + 1) == [b];
    assert [n.letter] + [b] == [n.letter, b];
  }

  /** A formula whose first operand refers to a cell that runs out of budget
      one level down runs out of budget itself. */
  lemma LinkFails(sh: Sheet, l: Link, n: Link, fuel: nat)
    requires 0 < fuel && Holds(sh, l) && 'A' <= n.letter <= 'Z' && n.row < 9
    requires Leftmost(l.formula) == Address(n)
    requires NumericAt(sh, n.row, Column(n), fuel - 1) == Err(DepthExceeded)
    ensures NumericAt(sh, l.row, Column(l), fuel) == Err(DepthExceeded)
  {
    AddressFails(sh, n, fuel - 1);
    LeftmostWellFormed(l.formula);
    LeftmostFailurePropagates(sh, l.formula, fuel - 1);
    FormulaMeaning(sh, l.formula, fuel - 1);
  }

  /** No cell on a cycle of references yields a value: whatever the depth
      budget, every lookup of such a cell runs it out. */
  lemma {:induction false} CycleExhaustsDepth(sh: Sheet, links: seq<Link>, fuel: nat)
    requires IsCycle(sh, links)
    ensures forall i :: 0 <= i < |links| ==> NumericAt(sh, links[i].row, Column(links[i]), fuel) == Err(DepthExceeded)
  {
    if fuel > 0 {
      CycleExhaustsDepth(sh, links, fuel - 1);
    }
    forall i | 0 <= i < |links|
      ensures NumericAt(sh, links[i].row, Column(links[i]), fuel) == Err(DepthExceeded)
    {
      if fuel > 0 {
        CycleStep(sh, links, i, fuel);
      } else {
        EmptyBudget(sh, links[i]);
      }
    }
  }

  /** One more level of budget: the cell after `i` already runs out one
      level down, so cell `i` runs out. */
  lemma CycleStep(sh: Sheet, links: seq<Link>, i: nat, fuel: nat)
    requires IsCycle(sh, links) && i < |links| && 0 < fuel
    requires forall k :: 0 <= k < |links| ==> NumericAt(sh, links[k].row, Column(links[k]), fuel - 1) == Err(DepthExceeded)
    ensures NumericAt(sh, links[i].row, Column(links[i]), fuel) == Err(DepthExceeded)
  {
    var j := Next(i, |links|);
    assert Holds(sh, links[i]) && Holds(sh, links[j]);
    LinkFails(sh, links[i], links[j], fuel);
  }

  /** With no budget left, a formula cell cannot be evaluated. */
  lemma EmptyBudget(sh: Sheet, l: Link)
    requires Holds(sh, l)
    ensures NumericAt(sh, l.row, Column(l), 0) == Err(DepthExceeded)
  {
  }

  /** `A1` holding `B1` and `B1` holding `A1`: neither yields a value. */
  lemma TwoCellCycle(sh: Sheet, fuel: nat)
    requires Occupant(sh, 0, 0) == Some(FormulaCell("B1")) && Occupant(sh, 0, 1) == Some(FormulaCell("A1"))
    ensures NumericAt(sh, 0, 0, fuel) == Err(DepthExceeded) && NumericAt(sh, 0, 1, fuel) == Err(DepthExceeded)
  {
    assert DigitChar(1) == '1';
    var a, b := Link('A', 0, Ref('B', '1')), Link('B', 0, Ref('A', '1'));
    assert Print(a.formula) == "B1" && Print(b.formula) == "A1";
    assert Column(a) == 0 && Column(b) == 1;
    assert Holds(sh, a) && Holds(sh, b);
    assert Leftmost(a.formula) == Address(b) && Leftmost(b.formula) == Address(a);
    var links := [a, b];
    assert Next(0, 2) == 1 && Next(1, 2) == 0;
    assert IsCycle(sh, links);
    CycleExhaustsDepth(sh, links, fuel);
    assert links[0] == a && links[1] == b;
  }

  /** A formula whose first operand refers to its own cell never yields a
      value, whatever follows that operand. */
  lemma SelfReference(sh: Sheet, l: Link, fuel: nat)
    requires Holds(sh, l) && Leftmost(l.formula) == Address(l)
    ensures NumericAt(sh, l.row, Column(l), fuel) == Err(DepthExceeded)
  {
    assert Next(0, 1) == 0;
    assert IsCycle(sh, [l]);
    CycleExhaustsDepth(sh, [l], fuel);
    assert [l][0] == l;
  }

  /** `A1` holding `A1+1` never yields a value. */
  lemma SelfReferenceInSum(sh: Sheet, text: string, fuel: nat)
    requires text == "A1+1"
    requires Occupant(sh, 0, 0) == Some(FormulaCell(text))
    ensures NumericAt(sh, 0, 0, fuel) == Err(DepthExceeded)
  {
    assert DigitChar(1) == '1';
    var e := Bin('+', Ref('A', '1'), Digit(1));
    assert Print(e) == text;
    var l := Link('A', 0, e);
    assert Holds(sh, l);
    SelfReference(sh, l, fuel);
  }
}
