/** `class Calculator`: its operator table, `defineOperator`, the two private
    stages `infixToPostfix` and `calcPostfix`, and `solve`, which checks the
    expression, splits it, fixes the negative numbers and runs both stages. */
module Calc {
  import opened Wrappers
  import opened Operators
  import Lexical
  import Negatives
  import opened Postfix

  /** The table the constructor builds. */
  function DefaultTable(): Table
  {
    map['-' := Sub, '+' := Add, '*' := Mul, '/' := Div]
  }

  /** `defineOperator($op, $class)`: the table with `op` bound to the class, or
      the exception for a class that does not exist. */
  function Define(table: Table, op: char, name: string): Result<Table>
  {
    match ClassKind(name)
    case None => Err(InvalidClass(name))
    case Some(k) => Ok(table[op := k])
  }

  /** Defining succeeds exactly for the names of the operator classes; it then
      binds `op` to that class and leaves every other symbol as it was. */
  lemma {:induction false} DefineBinds(table: Table, op: char, name: string, k: OpKind)
    requires SameName(Unqualified(name), ClassName(k))
    ensures Define(table, op, name).Ok?
    ensures Define(table, op, name).value.Keys == table.Keys + {op}
    ensures Define(table, op, name).value[op] == k
    ensures forall c :: c in table && c != op ==> Define(table, op, name).value[c] == table[c]
  {
    ClassKindComplete(name, k);
  }

  /** A name that is no operator class is rejected with its own text. */
  lemma {:induction false} DefineRejects(table: Table, op: char, name: string)
    requires forall k: OpKind :: !SameName(Unqualified(name), ClassName(k))
    ensures Define(table, op, name) == Err(InvalidClass(name))
  {
    if ClassKind(name).Some? {
      ClassKindComplete(name, ClassKind(name).value);
    }
  }

  /** Defining the same symbol twice keeps the later class. */
  lemma {:induction false} DefineTwice(table: Table, op: char, first: string, second: string)
    requires Define(table, op, first).Ok? && Define(table, op, second).Ok?
    ensures Define(Define(table, op, first).value, op, second) == Define(table, op, second)
  {
    var j, k := ClassKind(first).value, ClassKind(second).value;
    assert table[op := j][op := k] == table[op := k];
  }

  /** The four class names of the constructor name their classes. */
  lemma {:induction false} NamesKnown()
    ensures ClassKind("SubtractionOperator") == Some(Sub)
    ensures ClassKind("AdditionOperator") == Some(Add)
    ensures ClassKind("MultiplicationOperator") == Some(Mul)
    ensures ClassKind("DivisionOperator") == Some(Div)
  {
    ClassKindComplete("SubtractionOperator", Sub);
    ClassKindComplete("AdditionOperator", Add);
    ClassKindComplete("MultiplicationOperator", Mul);
    ClassKindComplete("DivisionOperator", Div);
  }

  /** The pattern of line 137 is a valid PCRE pattern: the symbols neither
      contain its delimiter nor are missing. */
  predicate PatternCompiles(table: Table)
  {
    '~' !in table && table.Keys != {}
  }

  /** The tokens `solve` hands to `infixToPostfix`: the text split at the
      operator symbols, each piece trimmed, and the negative numbers fixed. */
  function Tokens(table: Table, e: string): seq<string>
  {
    Negatives.Fix(Lexical.TrimAll(Lexical.Split(e, table.Keys)))
  }

  /** `solve($expr)`. A `~` among the symbols ends the pattern early, and no
      symbols at all leave the character class `[` unterminated: either way
      `preg_match` fails, and so it does on any text outside the grammar. */
  function Evaluate(table: Table, expr: string): Result<real>
  {
    var e := Lexical.Trim(expr);
    if !PatternCompiles(table) then Err(InvalidExpression)
    else if !Lexical.Matches(Lexical.Trim(e), table.Keys) then Err(InvalidExpression)
    else EvalPostfix(table, ToPostfix(table, Tokens(table, e)))
  }

  /** `solve` throws only the invalid-expression exception or a division or
      modulus by zero: every token reaching `calcPostfix` is a number or a
      defined symbol, so "Invalid operator" never arises. */
  lemma {:induction false} EvaluateErrors(table: Table, expr: string)
    ensures Evaluate(table, expr).Err? ==>
              Evaluate(table, expr).error == InvalidExpression ||
              Evaluate(table, expr).error == DivisionByZero ||
              Evaluate(table, expr).error == ModuloByZero
  {
    PostfixErrors(table, Tokens(table, Lexical.Trim(expr)));
  }

  // ---------------------------------------------------------------------------
  // the operator class, step by step

  class Calculator {
    var operators: Table

    /** Every symbol is an admissible operator character, and the four symbols
        of the constructor stay defined: symbols are only ever added. */
    predicate Valid()
      reads this
    {
      Symbols(operators) && DefaultTable().Keys <= operators.Keys
    }

    constructor ()
      ensures operators == DefaultTable() && Valid()
    {
      operators := map[];
      new;
      NamesKnown();
      var o := DefineOperator('-', "SubtractionOperator");
      o := DefineOperator('+', "AdditionOperator");
      o := DefineOperator('*', "MultiplicationOperator");
      o := DefineOperator('/', "DivisionOperator");
    }

    /** `defineOperator`: the table changes as `Define` says, or not at all
        when the class does not exist. */
    method DefineOperator(op: char, name: string) returns (outcome: Outcome)
      requires Lexical.IsSymbol(op) && Symbols(operators)
      modifies this
      ensures Symbols(operators) && old(operators).Keys <= operators.Keys
      ensures old(Valid()) ==> Valid()
      ensures Define(old(operators), op, name).Ok? ==>
                outcome == Pass && operators == Define(old(operators), op, name).value
      ensures Define(old(operators), op, name).Err? ==>
                outcome == Fail(Define(old(operators), op, name).error) && operators == old(operators)
    {
      var kind := ClassKind(name);
      if kind.Some? {
        operators := operators[op := kind.value];
        outcome := Pass;
      } else {
        outcome := Fail(InvalidClass(name));
      }
    }

    /** `calcPostfix`: runs the stack machine over the postfix tokens. */
    method CalcPostfix(postfix: seq<string>) returns (r: Result<real>)
      ensures r == EvalPostfix(operators, postfix)
    {
      var table := operators;
      var stack: seq<real> := [];
      var i := 0;
      while i < |postfix|
        invariant 0 <= i <= |postfix|
        invariant EvalAll(table, postfix[..i]) == Ok(stack)
      {
        var value := postfix[i];
        EvalNext(table, postfix, i);
        ghost var before := stack;
        if Lexical.IsNumeric(value) {
          stack := stack + [Lexical.NumericValue(value)];
        } else {
          var a, b := 0.0, 0.0;
          if |stack| > 0 {
            a := stack[|stack| - 1];
            stack := stack[..|stack| - 1];
          }
          ghost var mid := stack;
          if |stack| > 0 {
            b := stack[|stack| - 1];
            stack := stack[..|stack| - 1];
          }
          assert PopOrZero(before) == (a, mid) && PopOrZero(mid) == (b, stack);
          if |value| == 1 && value[0] in table {
            var result := Apply(table[value[0]], b, a);
            if result.Err? {
              StopsAt(table, postfix, i + 1);
              return Err(result.error);
            }
            stack := stack + [result.value];
          } else {
            StopsAt(table, postfix, i + 1);
            return Err(InvalidOperator(value));
          }
        }
        assert EvalStep(table, before, value) == Ok(stack);
        i := i + 1;
      }
      assert postfix[..i] == postfix;
      if |stack| != 1 {
        return Err(InvalidExpression);
      }
      r := Ok(stack[0]);
    }

    /** `infixToPostfix`: the conversion loop, then the operator stack reversed
        and appended. The stack holds the operator symbols. */
    method InfixToPostfix(infix: seq<string>) returns (postfix: seq<string>)
      ensures postfix == ToPostfix(operators, infix)
    {
      var table := operators;
      var output: seq<string> := [];
      var stack: seq<char> := [];
      var i := 0;
      while i < |infix|
        invariant 0 <= i <= |infix|
        invariant Shunt(output, stack) == ShuntAll(table, infix[..i])
      {
        var value := infix[i];
        ShuntNext(table, infix, i);
        ghost var before := Shunt(output, stack);
        if Lexical.IsNumeric(value) {
          output := output + [value];
        } else if |value| == 1 && value[0] in table {
          var n := |stack|;
          if n > 0 {
            var top := stack[n - 1];
            if Precedence(table[value[0]]) <= Precedence(table[top]) {
              output := output + [[top]];
              stack := stack[..n - 1];
            }
          }
          stack := stack + [value[0]];
        }
        assert Shunt(output, stack) == Step(table, before, value);
        i := i + 1;
      }
      assert infix[..i] == infix;
      postfix := AppendReversed(output, stack);
    }

    /** Lines 120-123: the operator stack reversed and appended to the output. */
    static method AppendReversed(output: seq<string>, stack: seq<char>) returns (postfix: seq<string>)
      ensures postfix == output + Unwind(stack)
    {
      postfix := output;
      var k := |stack|;
      assert stack[..k] == stack;
      while k > 0
        invariant 0 <= k <= |stack|
        invariant postfix + Unwind(stack[..k]) == output + Unwind(stack)
      {
        UnwindTop(stack, k);
        postfix := postfix + [[stack[k - 1]]];
        k := k - 1;
      }
      assert stack[..0] == [];
    }

    /** `solve`: the value of the expression, or the exception it throws. */
    method Solve(expr: string) returns (r: Result<real>)
      requires Valid()
      ensures r == Evaluate(operators, expr)
      ensures PatternCompiles(operators) <==> '~' !in operators
    {
      assert '-' in DefaultTable();
      var e := Lexical.Trim(expr);
      if '~' in operators || operators.Keys == {} || !Lexical.Matches(Lexical.Trim(e), operators.Keys) {
        return Err(InvalidExpression);
      }
      var tokens := Lexical.TrimAll(Lexical.Split(e, operators.Keys));
      tokens := Negatives.FixNegatives(tokens);
      var postfix := InfixToPostfix(tokens);
      r := CalcPostfix(postfix);
    }
  }

  /** The machine after one more token. */
  lemma {:induction false} EvalSnoc(table: Table, ps: seq<string>, v: string)
    ensures EvalAll(table, ps).Err? ==> EvalAll(table, ps + [v]) == EvalAll(table, ps)
    ensures EvalAll(table, ps).Ok? ==> EvalAll(table, ps + [v]) == EvalStep(table, EvalAll(table, ps).value, v)
  {
    assert (ps + [v])[..|ps|] == ps;
  }

  /** The run over the first `i + 1` tokens is one step after the run over the first `i`. */
  lemma {:induction false} EvalNext(table: Table, ps: seq<string>, i: nat)
    requires i < |ps| && EvalAll(table, ps[..i]).Ok?
    ensures EvalAll(table, ps[..i + 1]) == EvalStep(table, EvalAll(table, ps[..i]).value, ps[i])
  {
    var q := ps[..i + 1];
    assert q[..|q| - 1] == ps[..i] && q[|q| - 1] == ps[i];
  }

  /** The conversion of the first `i + 1` tokens is one step after that of the first `i`. */
  lemma {:induction false} ShuntNext(table: Table, t: seq<string>, i: nat)
    requires i < |t|
    ensures ShuntAll(table, t[..i + 1]) == Step(table, ShuntAll(table, t[..i]), t[i])
  {
    var q := t[..i + 1];
    assert q[..|q| - 1] == t[..i] && q[|q| - 1] == t[i];
  }

  /** An error after the first `i` tokens is the result of the whole run. */
  lemma {:induction false} StopsAt(table: Table, ps: seq<string>, i: nat)
    requires i <= |ps| && EvalAll(table, ps[..i]).Err?
    ensures EvalPostfix(table, ps) == Err(EvalAll(table, ps[..i]).error)
  {
    EvalAllError(table, ps[..i], ps[i..]);
    assert ps[..i] + ps[i..] == ps;
  }

  /** Unwinding the first `k` symbols of a stack puts the `k`-th first. */
  lemma {:induction false} UnwindTop(stack: seq<char>, k: nat)
    requires 0 < k <= |stack|
    ensures Unwind(stack[..k]) == [[stack[k - 1]]] + Unwind(stack[..k - 1])
  {
    assert stack[..k][..k - 1] == stack[..k - 1];
  }

  /** `a op` leaves `a` on the output and `op` on the stack. */
  lemma {:induction false} BinaryFirst(table: Table, a: string, c: char)
    requires Symbols(table) && c in table && Lexical.IsNumeric(a)
    ensures ShuntAll(table, [a, [c]]) == Shunt([a], [c])
  {
    SymbolToken(table, c);
    var none: seq<string> := [];
    ShuntSnoc(table, none, a);
    assert none + [a] == [a];
    assert ShuntAll(table, [a]) == Shunt([a], []);
    ShuntSnoc(table, [a], [c]);
    assert [a] + [[c]] == [a, [c]];
  }

  /** `a op b` converts to `a b op`. */
  lemma {:induction false} BinaryPostfix(table: Table, a: string, c: char, b: string)
    requires Symbols(table) && c in table && Lexical.IsNumeric(a) && Lexical.IsNumeric(b)
    ensures ToPostfix(table, [a, [c], b]) == [a, b, [c]]
  {
    SymbolToken(table, c);
    BinaryFirst(table, a, c);
    ShuntSnoc(table, [a, [c]], b);
    assert [a, [c]] + [b] == [a, [c], b];
    assert ShuntAll(table, [a, [c], b]) == Shunt([a, b], [c]);
    assert Unwind([c]) == [[c]];
  }

  /** Two numbers leave their two values, the first one below. */
  lemma {:induction false} PushTwo(table: Table, a: string, b: string)
    requires Lexical.IsNumeric(a) && Lexical.IsNumeric(b)
    ensures EvalAll(table, [a, b]) == Ok([Lexical.NumericValue(a), Lexical.NumericValue(b)])
  {
    var x, y := Lexical.NumericValue(a), Lexical.NumericValue(b);
    var none: seq<string> := [];
    var empty: seq<real> := [];
    EvalSnoc(table, none, a);
    assert none + [a] == [a] && empty + [x] == [x];
    assert EvalAll(table, [a]) == Ok([x]);
    EvalSnoc(table, [a], b);
    assert [a] + [b] == [a, b] && [x] + [y] == [x, y];
  }

  /** `solve` computes `a op b` by the operator's `solve` with `a` on the left. */
  lemma {:induction false} BinaryEvaluates(table: Table, a: string, c: char, b: string)
    requires Symbols(table) && c in table && Lexical.IsNumeric(a) && Lexical.IsNumeric(b)
    ensures EvalPostfix(table, ToPostfix(table, [a, [c], b])) ==
            Apply(table[c], Lexical.NumericValue(a), Lexical.NumericValue(b))
  {
    BinaryPostfix(table, a, c, b);
    SymbolToken(table, c);
    var x, y := Lexical.NumericValue(a), Lexical.NumericValue(b);
    var empty: seq<real> := [];
    PushTwo(table, a, b);
    EvalSnoc(table, [a, b], [c]);
    assert [a, b] + [[c]] == [a, b, [c]];
    OperandOrder(table, empty, x, y, c);
    assert empty + [x, y] == [x, y];
    assert EvalAll(table, [a, b, [c]]) == EvalStep(table, [x, y], [c]);
  }
}
