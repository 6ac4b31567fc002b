/** The tokenizer and infix-to-postfix conversion of `ExprCell`
    (utils.cpp:150-197). The conversion is specified by the function `Run`,
    which follows the source loop character by character, and carried out by
    the method `ParseInto`, which uses the linked `Stack` of strings and
    appends to a `Vector` as the source does. */
module Postfix {
  import opened Strings
  import opened Vectors
  import opened Stacks

  predicate IsOpenChar(c: char) { c == '(' || c == '[' || c == '{' }

  predicate IsCloseChar(c: char) { c == ')' || c == ']' || c == '}' }

  predicate IsOperatorChar(c: char) { c == '+' || c == '-' || c == '*' || c == '/' }

  predicate IsOpenToken(t: string) { t == "(" || t == "[" || t == "{" }

  /** `ExprCell::precedence`: the open brackets, and every character that is
      not an operator, rank 0, so an operator never pops past them. */
  function Precedence(c: char): (p: nat)
    ensures p <= 2
    ensures p == 0 <==> !IsOperatorChar(c)
    ensures p == 2 <==> c == '*' || c == '/'
  {
    match c
    case '(' => 0
    case '[' => 0
    case '{' => 0
    case '+' => 1
    case '-' => 1
    case '*' => 2
    case '/' => 2
    case _ => 0
  }

  /** The state of the conversion: the pending operator/bracket stack (top
      last) and the postfix output so far. */
  datatype Conversion = Conversion(stack: seq<string>, out: seq<string>)

  /** `Stack::pop` on a stack value: the top and the rest, or `""` and the
      empty stack when there is nothing to pop. */
  function PopToken(stack: seq<string>): (string, seq<string>)
  {
    if stack == [] then ("", []) else (stack[|stack| - 1], stack[..|stack| - 1])
  }

  /** The operator case (utils.cpp:191-193): while the stack is not empty and
      its top ranks at least `p`, move the top to the output. */
  function PopWhileAtLeast(stack: seq<string>, out: seq<string>, p: nat): Conversion
    decreases |stack|
  {
    if stack != [] && Precedence(Head(stack[|stack| - 1])) >= p then
      PopWhileAtLeast(stack[..|stack| - 1], out + [stack[|stack| - 1]], p)
    else
      Conversion(stack, out)
  }

  /** The close-bracket case (utils.cpp:184-188): pop, moving every popped
      token to the output, until an open bracket of any kind is popped; that
      bracket is discarded. The loop also stops when the pop found the stack
      empty (it returned `""`); the source does not, see `CloseLoopAsWritten`. */
  function PopToOpen(stack: seq<string>, out: seq<string>): Conversion
    decreases |stack|
  {
    if stack == [] then Conversion([], out)
    else
      var t := stack[|stack| - 1];
      if IsOpenToken(t) || t == "" then Conversion(stack[..|stack| - 1], out)
      else PopToOpen(stack[..|stack| - 1], out + [t])
  }

  /** The scanning loop of `parse_expression` (utils.cpp:172-196) over the
      characters `cs` still to read. A letter and the character after it form
      a reference token; a digit is a one-character literal; open brackets
      are pushed; a close bracket pops to the nearest open bracket; an
      operator first pops every entry that ranks at least as high and is then
      pushed; any other character is skipped. */
  function Run(cs: string, stack: seq<string>, out: seq<string>): Conversion
    decreases |cs|
  {
    if cs == [] then Conversion(stack, out)
    else
      var c := cs[0];
      if IsAlpha(c) then
        var n := if |cs| >= 2 then 2 else 1;
        Run(cs[n..], stack, out + [cs[..n]])
      else if IsDigit(c) then Run(cs[1..], stack, out + [[c]])
      else if IsOpenChar(c) then Run(cs[1..], stack + [[c]], out)
      else if IsCloseChar(c) then
        var k := PopToOpen(stack, out);
        Run(cs[1..], k.stack, k.out)
      else if IsOperatorChar(c) then
        var k := PopWhileAtLeast(stack, out, Precedence(c));
        Run(cs[1..], k.stack + [[c]], k.out)
      else Run(cs[1..], stack, out)
  }

  /** `parse_expression` wraps the stored text in `(` ... `)` first. */
  function Wrap(text: string): string
  {
    "(" + text + ")"
  }

  /** The postfix token sequence a fresh formula cell produces for `text`. */
  function ToPostfix(text: string): seq<string>
  {
    Run(Wrap(text), [], []).out
  }

  /** The operator loop of utils.cpp:191-193, on the linked stack. */
  method PopOperators(stack: Stack<string>, out: Vector, p: nat)
    requires stack.Valid() && out.Valid() && stack !in out.Repr
    modifies stack, out.Repr
    ensures stack.Valid() && out.Valid() && fresh(out.Repr - old(out.Repr))
    ensures Conversion(stack.Contents, out.Contents()) == PopWhileAtLeast(old(stack.Contents), old(out.Contents()), p)
  {
    while true
      invariant stack.Valid() && out.Valid() && fresh(out.Repr - old(out.Repr)) && stack !in out.Repr
      invariant PopWhileAtLeast(stack.Contents, out.Contents(), p) == PopWhileAtLeast(old(stack.Contents), old(out.Contents()), p)
      decreases |stack.Contents|
    {
      var empty := stack.IsEmpty();
      if empty {
        break;
      }
      var top := stack.Peek();
      if Precedence(Head(top)) < p {
        break;
      }
      var t := stack.Pop();
      out.PushBack(t);
    }
  }

  /** The close-bracket loop of utils.cpp:184-188, stopping also when the
      pop found the stack empty. */
  method PopToOpenBracket(stack: Stack<string>, out: Vector)
    requires stack.Valid() && out.Valid() && stack !in out.Repr && stack.Default() == ""
    modifies stack, out.Repr
    ensures stack.Valid() && out.Valid() && fresh(out.Repr - old(out.Repr))
    ensures Conversion(stack.Contents, out.Contents()) == PopToOpen(old(stack.Contents), old(out.Contents()))
  {
    var t := stack.Pop();
    while !IsOpenToken(t) && t != ""
      invariant stack.Valid() && out.Valid() && fresh(out.Repr - old(out.Repr)) && stack !in out.Repr
      invariant stack.Default() == ""
      invariant (if IsOpenToken(t) || t == "" then Conversion(stack.Contents, out.Contents())
                 else PopToOpen(stack.Contents, out.Contents() + [t]))
                == PopToOpen(old(stack.Contents), old(out.Contents()))
      decreases |stack.Contents| + (if IsOpenToken(t) || t == "" then 0 else 1)
    {
      out.PushBack(t);
      t := stack.Pop();
    }
  }

  /** The scanning loop of `parse_expression` over `data`, appending the
      postfix tokens to `out`. */
  method ParseInto(data: string, out: Vector)
    requires out.Valid()
    modifies out.Repr
    ensures out.Valid() && fresh(out.Repr - old(out.Repr))
    ensures out.Contents() == Run(data, [], old(out.Contents())).out
  {
    var stack := new Stack<string>("");
    var i := 0;
    while i < |data|
      invariant 0 <= i <= |data|
      invariant stack.Valid() && stack.Default() == ""
      invariant out.Valid() && fresh(out.Repr - old(out.Repr)) && stack !in out.Repr
      invariant Run(data[i..], stack.Contents, out.Contents()) == Run(data, [], old(out.Contents()))
    {
      var c := data[i];
      if IsAlpha(c) {
        var n := if i + 2 <= |data| then 2 else 1;
        assert data[i..][..n] == data[i..i + n] && data[i..][n..] == data[i + n..];
        out.PushBack(data[i..i + n]);
        i := i + n;
      } else {
        assert data[i..][1..] == data[i + 1..];
        if IsDigit(c) {
          out.PushBack([c]);
        } else if IsOpenChar(c) {
          stack.Push([c]);
        } else if IsCloseChar(c) {
          PopToOpenBracket(stack, out);
        } else if IsOperatorChar(c) {
          PopOperators(stack, out, Precedence(c));
          stack.Push([c]);
        }
        i := i + 1;
      }
    }
    assert data[i..] == [];
  }
}

/** The close-bracket loop of utils.cpp:184-188 exactly as written: it stops
    only when the popped token is an open bracket, and `Stack::pop` on an
    empty stack returns `""`, which is not one. */
module CloseLoopAsWritten {
  import opened Postfix

  datatype CloseLoop = CloseLoop(stack: seq<string>, out: seq<string>, t: string)

  /** The state after `n` more turns of `while (t != "(" && t != "[" && t != "{")
      { exp_vec.push_back(t); t = stack.pop(); }`, or the state it stopped in. */
  function Iterate(s: CloseLoop, n: nat): CloseLoop
    decreases n
  {
    if n == 0 || IsOpenToken(s.t) then s
    else
      var (t, rest) := PopToken(s.stack);
      Iterate(CloseLoop(rest, s.out + [s.t], t), n - 1)
  }

  function Repeat(t: string, n: nat): seq<string>
  {
    if n == 0 then [] else [t] + Repeat(t, n - 1)
  }

  /** Once a close bracket finds the stack empty the loop never stops: after
      any number of turns it has only appended empty tokens and its
      condition still holds. */
  lemma {:induction false} UnmatchedCloseNeverStops(out: seq<string>, n: nat)
    ensures Iterate(CloseLoop([], out, ""), n) == CloseLoop([], out + Repeat("", n), "")
    ensures !IsOpenToken(Iterate(CloseLoop([], out, ""), n).t)
    decreases n
  {
    if n > 0 {
      UnmatchedCloseNeverStops(out + [""], n - 1);
      assert out + [""] + Repeat("", n - 1) == out + Repeat("", n);
    }
  }

  /** The formula text `1)`: after `(1)` of its wrapped form `(1))` the
      stack is empty, so the last `)` enters the loop with `t == ""`. */
  lemma UnmatchedCloseReachesEmptyStack()
    ensures Wrap("1)") == "(1))"
    ensures Run(Wrap("1)"), [], []) == Run(")", [], ["1"])
    ensures PopToken([]).0 == ""
  {
    var w := Wrap("1)");
    assert w == "(1))";
    assert w[1..] == "1))";
    assert w[1..][1..] == "))";
    assert w[1..][1..][1..] == ")";
    assert Run(w, [], []) == Run("1))", ["("], []);
    assert Run("1))", ["("], []) == Run("))", ["("], ["1"]);
    assert PopToOpen(["("], ["1"]) == Conversion([], ["1"]);
  }
}
