/** What happens when one `ExprCell` is evaluated more than once
    (utils.cpp:166-234). `parse_expression` wraps `data` in a further pair
    of brackets and appends to `exp_vec`, which no call empties, so a second
    `to_numeric` evaluates the tokens of both parses. For the text of a
    well-formed expression this changes nothing: the value is pushed twice
    and the last copy is returned. For text with an unclosed bracket the
    second answer differs from the first. */
module CellReuse {
  import opened Wrappers
  import opened Strings
  import opened Postfix
  import opened Sheets
  import opened Infix
  import opened Tables

  /** The second parse of a well-formed expression appends its postfix
      form once more. */
  lemma ReparseAppends(e: Expr, out: seq<string>)
    requires WellFormed(e)
    ensures Run(Wrap(Wrap(Print(e))), [], out).out == out + Postorder(e)
  {
    var g1 := Group('(', e, ')');
    var g := Group('(', g1, ')');
    assert Print(g1) == Wrap(Print(e)) && Postorder(g1) == Postorder(e);
    assert Wrap(Wrap(Print(e))) == Print(g) + [];
    RunPrinted(g, [], [], out);
    assert Pending(g) == [] && Emitted(g) == Postorder(g1);
  }

  /** Evaluating the tokens of two parses gives what one parse gives. */
  lemma RepeatedTokensAgree(sh: Sheet, e: Expr, fuel: nat)
    requires WellFormed(e)
    ensures Finish(EvalTokens(sh, Postorder(e) + Postorder(e), [], fuel)) ==
            Finish(EvalTokens(sh, Postorder(e), [], fuel))
  {
    var p := Postorder(e);
    EvalPostorder(sh, e, p, [], fuel);
    assert p + [] == p;
    EvalPostorder(sh, e, [], [], fuel);
    match EvalExpr(sh, e, fuel)
    case Ok(v) =>
      EvalPostorder(sh, e, [], [v], fuel);
    case Err(_) =>
  }

  /** Two `to_numeric` calls on a fresh cell holding a well-formed
      expression agree with each other and with the formula's value. */
  method EvaluateTwice(cell: ExprCell, e: Expr, fuel: nat) returns (first: Outcome<int>, second: Outcome<int>)
    requires cell.Valid() && cell.expVec.Contents() == []
    requires WellFormed(e) && cell.data == Print(e)
    modifies cell.Repr
    ensures first == second == FormulaNumeric(cell.table.Snapshot(), Print(e), fuel + 1)
  {
    first := cell.ToNumeric(fuel);
    PostfixOfPrinted(e);
    second := cell.ToNumeric(fuel);
    ReparseAppends(e, Postorder(e));
    RepeatedTokensAgree(cell.table.Snapshot(), e, fuel);
  }

  /** `1+(2` leaves its bracket open: the first parse yields `1 2`. */
  lemma UnclosedBracketFirstParse(text: string)
    requires text == "1+(2"
    ensures ToPostfix(text) == ["1", "2"]
  {
    var r4 := [')'];
    var r3 := ['2'] + r4;
    var r2 := ['('] + r3;
    var r1 := ['+'] + r2;
    var r0 := ['1'] + r1;
    assert Wrap(text) == ['('] + r0;
    var o: seq<string> := [];
    RunOpen('(', r0, [], o);
    var s1 := [] + [['(']];
    RunDigit('1', r1, s1, o);
    var o1 := o + [['1']];
    RunOperator('+', r2, s1, o1);
    assert PopWhileAtLeast(s1, o1, Precedence('+')) == Conversion(s1, o1);
    var s2 := s1 + [['+']];
    RunOpen('(', r3, s2, o1);
    var s3 := s2 + [['(']];
    RunDigit('2', r4, s3, o1);
    var o2 := o1 + [['2']];
    assert r4 == [')'] + [];
    RunClose(')', [], s3, o2);
    assert PopToOpen(s3, o2) == Conversion(s2, o2);
    assert o2 == ["1", "2"];
  }

  /** The second parse of `1+(2` appends `1 2 +`. */
  lemma UnclosedBracketSecondParse(text: string, o: seq<string>)
    requires text == "1+(2"
    ensures Run(Wrap(Wrap(text)), [], o).out == o + ["1", "2", "+"]
  {
    var q3 := ['('] + (['2'] + ([')'] + [')']));
    var q2 := ['+'] + q3;
    var q1 := ['1'] + q2;
    var q0 := ['('] + q1;
    assert Wrap(Wrap(text)) == ['('] + q0;
    RunOpen('(', q0, [], o);
    var s1 := [] + [['(']];
    RunOpen('(', q1, s1, o);
    var s2 := s1 + [['(']];
    RunDigit('1', q2, s2, o);
    var o1 := o + [['1']];
    RunOperator('+', q3, s2, o1);
    assert PopWhileAtLeast(s2, o1, Precedence('+')) == Conversion(s2, o1);
    SecondParseTail(s2, o1);
    assert o1 + ["2", "+"] == o + ["1", "2", "+"];
  }

  /** The rest of the second parse: `(2))` after `((1+`. */
  lemma SecondParseTail(s2: seq<string>, o: seq<string>)
    requires s2 == ["(", "("]
    ensures Run(['('] + (['2'] + ([')'] + [')'])), s2 + [['+']], o).out == o + ["2", "+"]
  {
    var s3 := s2 + [['+']];
    var q5 := [')'] + [];
    var q4 := [')'] + q5;
    assert [')'] + [')'] == q4;
    RunOpen('(', ['2'] + q4, s3, o);
    var s4 := s3 + [['(']];
    RunDigit('2', q4, s4, o);
    var o1 := o + [['2']];
    RunClose(')', q5, s4, o1);
    assert PopToOpen(s4, o1) == Conversion(s3, o1);
    RunClose(')', [], s3, o1);
    assert PopToOpen(s3, o1) == Conversion(s2[..1], o1 + [['+']]);
    assert o1 + [['+']] == o + ["2", "+"];
  }

  /** The tokens `1 2` leave 2 on top of the stack. */
  lemma FirstTokensGiveTwo(sh: Sheet, toks: seq<string>, fuel: nat)
    requires toks == ["1", "2"]
    ensures Finish(EvalTokens(sh, toks, [], fuel)) == Ok(2)
  {
    var one, two := Digit(1), Digit(2);
    assert DigitChar(1) == '1' && DigitChar(2) == '2';
    var e: seq<string> := [];
    EvalPostorder(sh, one, Postorder(two), [], fuel);
    EvalPostorder(sh, two, e, [1.0], fuel);
    assert toks == Postorder(one) + Postorder(two) && Postorder(two) == Postorder(two) + e;
    assert EvalTokens(sh, e, [1.0, 2.0], fuel) == Ok([1.0, 2.0]);
    assert Trunc(2.0) == 2;
  }

  /** The tokens `1 2 1 2 +` leave 3 on top of the stack. */
  lemma SecondTokensGiveThree(sh: Sheet, toks: seq<string>, fuel: nat)
    requires toks == ["1", "2", "1", "2", "+"]
    ensures Finish(EvalTokens(sh, toks, [], fuel)) == Ok(3)
  {
    var one, two := Digit(1), Digit(2);
    var sum := Bin('+', one, two);
    assert DigitChar(1) == '1' && DigitChar(2) == '2';
    var e: seq<string> := [];
    assert EvalExpr(sh, sum, fuel) == Ok(3.0);
    EvalPostorder(sh, one, Postorder(two) + Postorder(sum), [], fuel);
    EvalPostorder(sh, two, Postorder(sum), [1.0], fuel);
    EvalPostorder(sh, sum, e, [1.0, 2.0], fuel);
    assert toks == Postorder(one) + (Postorder(two) + Postorder(sum));
    assert Postorder(sum) == Postorder(sum) + e;
    var none: seq<real> := [];
    assert none + [1.0] == [1.0] && [1.0] + [2.0] == [1.0, 2.0] && [1.0, 2.0] + [3.0] == [1.0, 2.0, 3.0];
    assert EvalTokens(sh, e, [1.0, 2.0, 3.0], fuel) == Ok([1.0, 2.0, 3.0]);
    assert Trunc(3.0) == 3;
  }

  /** So the first evaluation of `1+(2` gives 2 and the second gives 3. */
  lemma UnclosedBracketDrifts(sh: Sheet, text: string, fuel: nat)
    requires text == "1+(2"
    ensures Finish(EvalTokens(sh, ToPostfix(text), [], fuel)) == Ok(2)
    ensures Finish(EvalTokens(sh, Run(Wrap(Wrap(text)), [], ToPostfix(text)).out, [], fuel)) == Ok(3)
  {
    UnclosedBracketFirstParse(text);
    UnclosedBracketSecondParse(text, ToPostfix(text));
    FirstTokensGiveTwo(sh, ToPostfix(text), fuel);
    SecondTokensGiveThree(sh, ToPostfix(text) + ["1", "2", "+"], fuel);
  }
}
