/** What the code computes where the expression suggests something else,
    worked through the model: the single pop of `infixToPostfix`, the call of
    line 187, and a space in front of a negative operand. */
module Behaviours {
  import opened Wrappers
  import opened Operators
  import Lexical
  import Negatives
  import opened Postfix
  import opened Calc
  import opened Demos
  import opened ChainDemos

  // ---------------------------------------------------------------------------
  // single steps of the conversion and of the machine

  /** A number goes to the output. */
  lemma {:induction false} ShuntNumber(table: Table, p: seq<string>, v: string, out: seq<string>, stack: seq<char>)
    requires Lexical.IsNumeric(v) && ShuntAll(table, p) == Shunt(out, stack)
    ensures ShuntAll(table, p + [v]) == Shunt(out + [v], stack)
  {
    ShuntSnoc(table, p, v);
  }

  /** An operator that outranks the top of the stack, or finds it empty, is pushed. */
  lemma {:induction false} ShuntPush(table: Table, p: seq<string>, c: char, out: seq<string>, stack: seq<char>)
    requires Symbols(table) && c in table && ShuntAll(table, p) == Shunt(out, stack)
    requires stack == [] || Precedence(table[c]) > Precedence(table[stack[|stack| - 1]])
    ensures ShuntAll(table, p + [[c]]) == Shunt(out, stack + [c])
  {
    SymbolToken(table, c);
    ShuntSnoc(table, p, [c]);
  }

  /** An operator that does not outrank the top `top` of the stack moves it to
      the output and takes its place. */
  lemma {:induction false} ShuntPop(table: Table, p: seq<string>, c: char, out: seq<string>, below: seq<char>, top: char)
    requires Symbols(table) && c in table && top in table && ShuntAll(table, p) == Shunt(out, below + [top])
    requires Precedence(table[c]) <= Precedence(table[top])
    ensures ShuntAll(table, p + [[c]]) == Shunt(out + [[top]], below + [c])
  {
    SymbolToken(table, c);
    ShuntSnoc(table, p, [c]);
    var st := below + [top];
    assert st[|st| - 1] == top && st[..|st| - 1] == below;
  }

  /** A token that is neither a number nor an operator is dropped. */
  lemma {:induction false} ShuntDrop(table: Table, p: seq<string>, v: string)
    requires !IsKept(table, v)
    ensures ShuntAll(table, p + [v]) == ShuntAll(table, p)
  {
    ShuntSnoc(table, p, v);
    DroppedStep(table, ShuntAll(table, p), v);
  }

  /** One number converts to itself. */
  lemma {:induction false} ShuntFirst(table: Table, a: string)
    requires Lexical.IsNumeric(a)
    ensures ShuntAll(table, [a]) == Shunt([a], [])
  {
    assert [a][..0] == [];
  }

  /** A number pushes its value. */
  lemma {:induction false} EvalNumber(table: Table, ps: seq<string>, s: seq<real>, v: string, x: real)
    requires Lexical.IsNumeric(v) && Lexical.NumericValue(v) == x && EvalAll(table, ps) == Ok(s)
    ensures EvalAll(table, ps + [v]) == Ok(s + [x])
  {
    EvalSnoc(table, ps, v);
  }

  /** An operator replaces the two top values by its result, the lower one
      being its left operand. */
  lemma {:induction false} EvalOperator(table: Table, ps: seq<string>, s: seq<real>, l: real, r: real,
                                        c: char, x: real)
    requires Symbols(table) && c in table && EvalAll(table, ps) == Ok(s + [l, r])
    requires Apply(table[c], l, r) == Ok(x)
    ensures EvalAll(table, ps + [[c]]) == Ok(s + [x])
  {
    SymbolToken(table, c);
    EvalSnoc(table, ps, [c]);
    OperandOrder(table, s, l, r, c);
  }

  /** An operator finding one value takes 0 as its left operand. */
  lemma {:induction false} EvalOperatorOne(table: Table, ps: seq<string>, r: real, c: char, x: real)
    requires Symbols(table) && c in table && EvalAll(table, ps) == Ok([r])
    requires Apply(table[c], 0.0, r) == Ok(x)
    ensures EvalAll(table, ps + [[c]]) == Ok([x])
  {
    SymbolToken(table, c);
    EvalSnoc(table, ps, [c]);
    var e: seq<real> := [];
    OperandOrder(table, e, 0.0, r, c);
  }

  /** One number leaves its value. */
  lemma {:induction false} EvalFirst(table: Table, a: string, x: real)
    requires Lexical.IsNumeric(a) && Lexical.NumericValue(a) == x
    ensures EvalAll(table, [a]) == Ok([x])
  {
    var e: seq<real> := [];
    assert [a][..0] == [] && e + [x] == [x];
  }

  /** Two operators left on the stack come out last pushed first. */
  lemma {:induction false} UnwindTwo(a: char, b: char)
    ensures Unwind([a, b]) == [[b], [a]]
  {
    assert [a, b][..1] == [a] && [a][..0] == [];
  }

  // ---------------------------------------------------------------------------
  // two shapes of expression

  /** `a0 o1 a1`: both numbers on the output, `o1` on the stack. */
  lemma {:induction false} RiseFirst(table: Table, a0: string, o1: char, a1: string)
    requires Symbols(table) && o1 in table && Lexical.IsNumeric(a0) && Lexical.IsNumeric(a1)
    ensures ShuntAll(table, [a0, [o1], a1]) == Shunt([a0, a1], [o1])
  {
    SymbolToken(table, o1);
    var e: seq<char> := [];
    ShuntFirst(table, a0);
    ShuntPush(table, [a0], o1, [a0], e);
    assert [a0] + [[o1]] == [a0, [o1]] && e + [o1] == [o1];
    ShuntNumber(table, [a0, [o1]], a1, [a0], [o1]);
    assert [a0, [o1]] + [a1] == [a0, [o1], a1] && [a0] + [a1] == [a0, a1];
  }

  /** Then `o2`, outranking `o1`: it is pushed above it. */
  lemma {:induction false} RisePush(table: Table, a0: string, o1: char, a1: string, o2: char)
    requires Symbols(table) && o1 in table && o2 in table
    requires Lexical.IsNumeric(a0) && Lexical.IsNumeric(a1)
    requires Precedence(table[o2]) > Precedence(table[o1])
    ensures ShuntAll(table, [a0, [o1], a1, [o2]]) == Shunt([a0, a1], [o1, o2])
  {
    SymbolToken(table, o1);
    SymbolToken(table, o2);
    var p := [a0, [o1], a1];
    RiseFirst(table, a0, o1, a1);
    ShuntPush(table, p, o2, [a0, a1], [o1]);
    assert p + [[o2]] == [a0, [o1], a1, [o2]] && [o1] + [o2] == [o1, o2];
  }

  /** Then `a2`, which goes to the output. */
  lemma {:induction false} RiseSecond(table: Table, a0: string, o1: char, a1: string, o2: char, a2: string)
    requires Symbols(table) && o1 in table && o2 in table
    requires Lexical.IsNumeric(a0) && Lexical.IsNumeric(a1) && Lexical.IsNumeric(a2)
    requires Precedence(table[o2]) > Precedence(table[o1])
    ensures ShuntAll(table, [a0, [o1], a1, [o2], a2]) == Shunt([a0, a1, a2], [o1, o2])
  {
    SymbolToken(table, o1);
    SymbolToken(table, o2);
    var p := [a0, [o1], a1, [o2]];
    RisePush(table, a0, o1, a1, o2);
    ShuntNumber(table, p, a2, [a0, a1], [o1, o2]);
    assert p + [a2] == [a0, [o1], a1, [o2], a2] && [a0, a1] + [a2] == [a0, a1, a2];
  }

  /** Then `o3`, not outranking `o2`: it pops `o2` only and takes its place. */
  lemma {:induction false} RisePop(table: Table, a0: string, o1: char, a1: string, o2: char, a2: string, o3: char)
    requires Symbols(table) && o1 in table && o2 in table && o3 in table
    requires Lexical.IsNumeric(a0) && Lexical.IsNumeric(a1) && Lexical.IsNumeric(a2)
    requires Precedence(table[o2]) > Precedence(table[o1]) && Precedence(table[o3]) <= Precedence(table[o2])
    ensures ShuntAll(table, [a0, [o1], a1, [o2], a2, [o3]]) == Shunt([a0, a1, a2, [o2]], [o1, o3])
  {
    SymbolToken(table, o1);
    SymbolToken(table, o2);
    SymbolToken(table, o3);
    var p := [a0, [o1], a1, [o2], a2];
    RiseSecond(table, a0, o1, a1, o2, a2);
    assert [o1, o2] == [o1] + [o2];
    ShuntPop(table, p, o3, [a0, a1, a2], [o1], o2);
    assert p + [[o3]] == [a0, [o1], a1, [o2], a2, [o3]];
    assert [o1] + [o3] == [o1, o3];
  }

  /** Then `a3`, which goes to the output. */
  lemma {:induction false} RiseThird(table: Table, a0: string, o1: char, a1: string, o2: char, a2: string,
                                     o3: char, a3: string)
    requires Symbols(table) && o1 in table && o2 in table && o3 in table
    requires Lexical.IsNumeric(a0) && Lexical.IsNumeric(a1) && Lexical.IsNumeric(a2) && Lexical.IsNumeric(a3)
    requires Precedence(table[o2]) > Precedence(table[o1]) && Precedence(table[o3]) <= Precedence(table[o2])
    ensures ShuntAll(table, [a0, [o1], a1, [o2], a2, [o3], a3]) == Shunt([a0, a1, a2, [o2], a3], [o1, o3])
  {
    SymbolToken(table, o1);
    SymbolToken(table, o2);
    SymbolToken(table, o3);
    var p := [a0, [o1], a1, [o2], a2, [o3]];
    RisePop(table, a0, o1, a1, o2, a2, o3);
    ShuntNumber(table, p, a3, [a0, a1, a2, [o2]], [o1, o3]);
    assert p + [a3] == [a0, [o1], a1, [o2], a2, [o3], a3];
    assert [a0, a1, a2, [o2]] + [a3] == [a0, a1, a2, [o2], a3];
  }

  /** `a0 o1 a1 o2 a2 o3 a3` where `o2` outranks `o1` and `o3` does not outrank
      `o2`: `o3` pops only `o2`, and `o1` is applied last. */
  lemma {:induction false} RisePostfix(table: Table, a0: string, o1: char, a1: string, o2: char, a2: string,
                                       o3: char, a3: string)
    requires Symbols(table) && o1 in table && o2 in table && o3 in table
    requires Lexical.IsNumeric(a0) && Lexical.IsNumeric(a1) && Lexical.IsNumeric(a2) && Lexical.IsNumeric(a3)
    requires Precedence(table[o2]) > Precedence(table[o1]) && Precedence(table[o3]) <= Precedence(table[o2])
    ensures ToPostfix(table, [a0, [o1], a1, [o2], a2, [o3], a3]) == [a0, a1, a2, [o2], a3, [o3], [o1]]
  {
    SymbolToken(table, o1);
    SymbolToken(table, o2);
    SymbolToken(table, o3);
    RiseThird(table, a0, o1, a1, o2, a2, o3, a3);
    UnwindTwo(o1, o3);
    assert [a0, a1, a2, [o2], a3] + [[o3], [o1]] == [a0, a1, a2, [o2], a3, [o3], [o1]];
  }

  /** The first four postfix tokens `a0 a1 a2 o2` leave `x0` and `o2` applied to `x1`, `x2`. */
  lemma {:induction false} RiseValueFirst(table: Table, a0: string, a1: string, a2: string, o2: char,
                                          x0: real, x1: real, x2: real, v: real)
    requires Symbols(table) && o2 in table
    requires Lexical.IsNumeric(a0) && Lexical.NumericValue(a0) == x0
    requires Lexical.IsNumeric(a1) && Lexical.NumericValue(a1) == x1
    requires Lexical.IsNumeric(a2) && Lexical.NumericValue(a2) == x2
    requires Apply(table[o2], x1, x2) == Ok(v)
    ensures EvalAll(table, [a0, a1, a2, [o2]]) == Ok([x0, v])
  {
    SymbolToken(table, o2);
    EvalFirst(table, a0, x0);
    EvalNumber(table, [a0], [x0], a1, x1);
    assert [a0] + [a1] == [a0, a1] && [x0] + [x1] == [x0, x1];
    EvalNumber(table, [a0, a1], [x0, x1], a2, x2);
    assert [a0, a1] + [a2] == [a0, a1, a2] && [x0, x1] + [x2] == [x0] + [x1, x2];
    EvalOperator(table, [a0, a1, a2], [x0], x1, x2, o2, v);
    assert [a0, a1, a2] + [[o2]] == [a0, a1, a2, [o2]] && [x0] + [v] == [x0, v];
  }

  /** Then `a3 o3` leave `x0` and `o3` applied to that value and `x3`. */
  lemma {:induction false} RiseValueSecond(table: Table, a0: string, a1: string, a2: string, o2: char, a3: string,
                                           o3: char, x0: real, x1: real, x2: real, x3: real, v: real, w: real)
    requires Symbols(table) && o2 in table && o3 in table
    requires Lexical.IsNumeric(a0) && Lexical.NumericValue(a0) == x0
    requires Lexical.IsNumeric(a1) && Lexical.NumericValue(a1) == x1
    requires Lexical.IsNumeric(a2) && Lexical.NumericValue(a2) == x2
    requires Lexical.IsNumeric(a3) && Lexical.NumericValue(a3) == x3
    requires Apply(table[o2], x1, x2) == Ok(v) && Apply(table[o3], v, x3) == Ok(w)
    ensures EvalAll(table, [a0, a1, a2, [o2], a3, [o3]]) == Ok([x0, w])
  {
    SymbolToken(table, o2);
    SymbolToken(table, o3);
    var p := [a0, a1, a2, [o2]];
    RiseValueFirst(table, a0, a1, a2, o2, x0, x1, x2, v);
    EvalNumber(table, p, [x0, v], a3, x3);
    assert [x0, v] + [x3] == [x0] + [v, x3];
    EvalOperator(table, p + [a3], [x0], v, x3, o3, w);
    assert p + [a3] + [[o3]] == [a0, a1, a2, [o2], a3, [o3]] && [x0] + [w] == [x0, w];
  }

  /** The postfix text of that shape applies `o2`, then `o3`, then `o1`. */
  lemma {:induction false} RiseValue(table: Table, a0: string, a1: string, a2: string, o2: char, a3: string,
                                     o3: char, o1: char, x0: real, x1: real, x2: real, x3: real,
                                     v: real, w: real, z: real)
    requires Symbols(table) && o1 in table && o2 in table && o3 in table
    requires Lexical.IsNumeric(a0) && Lexical.NumericValue(a0) == x0
    requires Lexical.IsNumeric(a1) && Lexical.NumericValue(a1) == x1
    requires Lexical.IsNumeric(a2) && Lexical.NumericValue(a2) == x2
    requires Lexical.IsNumeric(a3) && Lexical.NumericValue(a3) == x3
    requires Apply(table[o2], x1, x2) == Ok(v) && Apply(table[o3], v, x3) == Ok(w)
    requires Apply(table[o1], x0, w) == Ok(z)
    ensures EvalPostfix(table, [a0, a1, a2, [o2], a3, [o3], [o1]]) == Ok(z)
  {
    SymbolToken(table, o2);
    SymbolToken(table, o3);
    SymbolToken(table, o1);
    var e: seq<real> := [];
    var p := [a0, a1, a2, [o2], a3, [o3]];
    RiseValueSecond(table, a0, a1, a2, o2, a3, o3, x0, x1, x2, x3, v, w);
    assert [x0, w] == e + [x0, w];
    EvalOperator(table, p, e, x0, w, o1, z);
    assert p + [[o1]] == [a0, a1, a2, [o2], a3, [o3], [o1]] && e + [z] == [z];
  }

  /** `a0 o1 b` with a dropped token `b`: `a0` on the output, `o1` on the stack. */
  lemma {:induction false} GapFirst(table: Table, a0: string, o1: char, b: string)
    requires Symbols(table) && o1 in table && !IsKept(table, b) && Lexical.IsNumeric(a0)
    ensures ShuntAll(table, [a0, [o1], b]) == Shunt([a0], [o1])
  {
    SymbolToken(table, o1);
    var e: seq<char> := [];
    ShuntFirst(table, a0);
    ShuntPush(table, [a0], o1, [a0], e);
    assert [a0] + [[o1]] == [a0, [o1]] && e + [o1] == [o1];
    ShuntDrop(table, [a0, [o1]], b);
    assert [a0, [o1]] + [b] == [a0, [o1], b];
  }

  /** Then `o2`, not outranking `o1`: it moves `o1` to the output. */
  lemma {:induction false} GapPop(table: Table, a0: string, o1: char, b: string, o2: char)
    requires Symbols(table) && o1 in table && o2 in table && !IsKept(table, b) && Lexical.IsNumeric(a0)
    requires Precedence(table[o2]) <= Precedence(table[o1])
    ensures ShuntAll(table, [a0, [o1], b, [o2]]) == Shunt([a0, [o1]], [o2])
  {
    SymbolToken(table, o1);
    SymbolToken(table, o2);
    var e: seq<char> := [];
    GapFirst(table, a0, o1, b);
    assert [o1] == e + [o1];
    ShuntPop(table, [a0, [o1], b], o2, [a0], e, o1);
    assert [a0, [o1], b] + [[o2]] == [a0, [o1], b, [o2]] && [a0] + [[o1]] == [a0, [o1]] && e + [o2] == [o2];
  }

  /** `a0 o1 b o2 a1` with a dropped token `b` and `o2` not outranking `o1`:
      `o2` pops `o1` before `a1` reaches the output. */
  lemma {:induction false} GapPostfix(table: Table, a0: string, o1: char, b: string, o2: char, a1: string)
    requires Symbols(table) && o1 in table && o2 in table && !IsKept(table, b)
    requires Lexical.IsNumeric(a0) && Lexical.IsNumeric(a1)
    requires Precedence(table[o2]) <= Precedence(table[o1])
    ensures ToPostfix(table, [a0, [o1], b, [o2], a1]) == [a0, [o1], a1, [o2]]
  {
    SymbolToken(table, o1);
    SymbolToken(table, o2);
    var p := [a0, [o1], b, [o2]];
    GapPop(table, a0, o1, b, o2);
    ShuntNumber(table, p, a1, [a0, [o1]], [o2]);
    assert p + [a1] == [a0, [o1], b, [o2], a1] && [a0, [o1]] + [a1] == [a0, [o1], a1];
    assert Unwind([o2]) == [[o2]];
  }

  /** Its postfix text: `o1` finds one value, so 0 is its left operand. */
  lemma {:induction false} GapValue(table: Table, a0: string, o1: char, a1: string, o2: char,
                                    x0: real, x1: real, v: real, z: real)
    requires Symbols(table) && o1 in table && o2 in table
    requires Lexical.IsNumeric(a0) && Lexical.NumericValue(a0) == x0
    requires Lexical.IsNumeric(a1) && Lexical.NumericValue(a1) == x1
    requires Apply(table[o1], 0.0, x0) == Ok(v) && Apply(table[o2], v, x1) == Ok(z)
    ensures EvalPostfix(table, [a0, [o1], a1, [o2]]) == Ok(z)
  {
    SymbolToken(table, o1);
    SymbolToken(table, o2);
    var e: seq<real> := [];
    EvalFirst(table, a0, x0);
    EvalOperatorOne(table, [a0], x0, o1, v);
    assert [a0] + [[o1]] == [a0, [o1]];
    EvalNumber(table, [a0, [o1]], [v], a1, x1);
    assert [a0, [o1]] + [a1] == [a0, [o1], a1] && [v] + [x1] == e + [v, x1];
    EvalOperator(table, [a0, [o1], a1], e, v, x1, o2, z);
    assert [a0, [o1], a1] + [[o2]] == [a0, [o1], a1, [o2]] && e + [z] == [z];
  }

  // ---------------------------------------------------------------------------
  // the constructor's table and small numbers

  lemma {:induction false} DefaultSymbols()
    ensures Symbols(DefaultTable()) && DefaultTable().Keys == {'-', '+', '*', '/'}
    ensures DefaultTable()['-'] == Sub && DefaultTable()['+'] == Add
    ensures DefaultTable()['*'] == Mul && DefaultTable()['/'] == Div
  {
    assert forall c :: c in DefaultTable() ==> c in {'-', '+', '*', '/'};
  }

  lemma {:induction false} SmallNumbers()
    ensures Lexical.IsNumeric("2") && Lexical.NumericValue("2") == 2.0
    ensures Lexical.IsNumeric("3") && Lexical.NumericValue("3") == 3.0
    ensures Lexical.IsNumeric("4") && Lexical.NumericValue("4") == 4.0
    ensures Lexical.IsNumeric("5") && Lexical.NumericValue("5") == 5.0
    ensures Lexical.IsNumeric("8") && Lexical.NumericValue("8") == 8.0
  {
    assert "2"[..0] == [] && "3"[..0] == [] && "4"[..0] == [] && "5"[..0] == [] && "8"[..0] == [];
    Numeral("2", 2);
    Numeral("3", 3);
    Numeral("4", 4);
    Numeral("5", 5);
    Numeral("8", 8);
  }

  lemma {:induction false} NumberOneTwoThree()
    ensures Lexical.IsNumeric("123") && Lexical.NumericValue("123") == 123.0
  {
    assert Lexical.DigitsValue("123") == 123 by {
      assert "123"[..2] == "12" && "12"[..1] == "1" && "1"[..0] == [];
    }
    Numeral("123", 123);
  }

  // ---------------------------------------------------------------------------
  // the single pop: 1 - 2 * 3 + 4

  /** `+` pops only `*`, so the `-` below it stays until the end and applies
      last: the tokens convert to `1 2 3 * 4 + -`. */
  lemma {:induction false} SinglePopPostfix()
    ensures ToPostfix(DefaultTable(), ["1", "-", "2", "*", "3", "+", "4"]) ==
            ["1", "2", "3", "*", "4", "+", "-"]
  {
    DefaultSymbols();
    UnitNumber();
    SmallNumbers();
    RisePostfix(DefaultTable(), "1", '-', "2", '*', "3", '+', "4");
  }

  /** The postfix text of the single pop evaluates to 1 - (6 + 4). */
  lemma {:induction false} SinglePopValue()
    ensures EvalPostfix(DefaultTable(), ["1", "2", "3", "*", "4", "+", "-"]) == Ok(-9.0)
  {
    DefaultSymbols();
    UnitNumber();
    SmallNumbers();
    RiseValue(DefaultTable(), "1", "2", "3", '*', "4", '+', '-', 1.0, 2.0, 3.0, 4.0, 6.0, 10.0, -9.0);
  }

  /** Converting and evaluating `1 - 2 * 3 + 4` gives -9, not the -1 of the
      usual precedence rules. */
  lemma {:induction false} SinglePop()
    ensures EvalPostfix(DefaultTable(), ToPostfix(DefaultTable(), ["1", "-", "2", "*", "3", "+", "4"])) == Ok(-9.0)
  {
    SinglePopPostfix();
    SinglePopValue();
  }

  // ---------------------------------------------------------------------------
  // $c->solve('10 - 10 * 123 / 8') is -143.75 (line 187)

  /** The text, as runs and operators and as numbers and operators. */
  lemma {:induction false} Text187()
    ensures "10 " + ("-" + (" 10 " + ("*" + (" 123 " + ("/" + " 8"))))) == "10 - 10 * 123 / 8"
    ensures "10" + (" " + ("-" + (" " + ("10" + (" " + ("*" + (" " + ("123" + (" " + ("/" + (" " + "8"))))))))))) == "10 - 10 * 123 / 8"
  {
  }

  lemma {:induction false} Runs187()
    ensures NoOps("10 ", DemoTable().Keys) && NoOps(" 10 ", DemoTable().Keys)
    ensures NoOps(" 123 ", DemoTable().Keys) && NoOps(" 8", DemoTable().Keys)
    ensures Lexical.AllDigits("10") && Lexical.AllDigits("123") && Lexical.AllDigits("8")
  {
    DemoSymbols();
  }

  lemma {:induction false} Split187()
    ensures Lexical.Split("10 - 10 * 123 / 8", DemoTable().Keys) ==
            ["10 ", "-", " 10 ", "*", " 123 ", "/", " 8"]
  {
    DemoSymbols();
    Runs187();
    SplitChain7(DemoTable().Keys, "10 ", '-', " 10 ", '*', " 123 ", '/', " 8");
    Text187();
  }

  lemma {:induction false} Match187()
    ensures Lexical.Matches("10 - 10 * 123 / 8", DemoTable().Keys)
  {
    DemoSymbols();
    Runs187();
    MatchChain7(DemoTable().Keys, "10", '-', "10", '*', "123", '/', "8");
    Text187();
  }

  lemma {:induction false} SpacedNumberTrimmed()
    ensures Lexical.Trim(" 123 ") == "123"
  {
    TrimSpaced("123", " 123 ");
  }

  lemma {:induction false} SpaceEightTrimmed()
    ensures Lexical.Trim(" 8") == "8"
  {
    TrimSpaceBefore("8", " 8");
  }

  lemma {:induction false} Trims187()
    ensures Lexical.TrimAll(["10 ", "-", " 10 ", "*", " 123 ", "/", " 8"]) ==
            ["10", "-", "10", "*", "123", "/", "8"]
  {
    var p0, p1, p2, p3, p4, p5, p6 := "10 ", "-", " 10 ", "*", " 123 ", "/", " 8";
    var t0, t1, t2, t3, t4, t5, t6 := "10", "-", "10", "*", "123", "/", "8";
    TenSpaceTrimmed();
    MinusTrimmed();
    SpacedTenTrimmed();
    SpacedNumberTrimmed();
    SpaceEightTrimmed();
    OperatorPieces();
    TrimsTo7(p0, p1, p2, p3, p4, p5, p6, t0, t1, t2, t3, t4, t5, t6);
  }

  /** No `-` stands where the fix looks. */
  lemma {:induction false} Fix187()
    ensures Negatives.Fix(["10", "-", "10", "*", "123", "/", "8"]) == ["10", "-", "10", "*", "123", "/", "8"]
  {
    var t := ["10", "-", "10", "*", "123", "/", "8"];
    forall k | 0 <= k < |t| && k % 2 == 0
      ensures t[k] != "-"
    {
      assert k == 0 || k == 2 || k == 4 || k == 6;
    }
    Negatives.FixIdentity(t);
  }

  lemma {:induction false} Tokens187()
    ensures Tokens(DemoTable(), "10 - 10 * 123 / 8") == ["10", "-", "10", "*", "123", "/", "8"]
  {
    Split187();
    Trims187();
    Fix187();
  }

  /** `*` outranks `-` and is pushed; `/` pops only `*`. */
  lemma {:induction false} Postfix187()
    ensures ToPostfix(DemoTable(), ["10", "-", "10", "*", "123", "/", "8"]) ==
            ["10", "10", "123", "*", "8", "/", "-"]
  {
    DemoSymbols();
    TenNumber();
    NumberOneTwoThree();
    SmallNumbers();
    RisePostfix(DemoTable(), "10", '-', "10", '*', "123", '/', "8");
  }

  /** `10 10 123 * 8 / -` is 10 - 1230 / 8. */
  lemma {:induction false} Value187()
    ensures EvalPostfix(DemoTable(), ["10", "10", "123", "*", "8", "/", "-"]) == Ok(-143.75)
  {
    DemoSymbols();
    TenNumber();
    NumberOneTwoThree();
    SmallNumbers();
    assert Apply(Div, 1230.0, 8.0) == Ok(153.75);
    RiseValue(DemoTable(), "10", "10", "123", '*', "8", '/', '-', 10.0, 10.0, 123.0, 8.0, 1230.0, 153.75, -143.75);
  }

  /** `solve('10 - 10 * 123 / 8')` returns -143.75: `-` applies last. */
  lemma {:induction false} Demo187()
    ensures Evaluate(DemoTable(), "10 - 10 * 123 / 8") == Ok(-143.75)
  {
    var s, t := "10 - 10 * 123 / 8", ["10", "-", "10", "*", "123", "/", "8"];
    DemoSymbols();
    TrimKeeps(s);
    Match187();
    Tokens187();
    EvaluateOf(DemoTable(), s, t);
    Postfix187();
    Value187();
  }

  // ---------------------------------------------------------------------------
  // a space before a negative operand: '10 * -5' is -5, '10*-5' is -50

  lemma {:induction false} TextSpaced()
    ensures "10 " + ("*" + (" " + ("-" + "5"))) == "10 * -5"
  {
  }

  lemma {:induction false} SplitSpaced()
    ensures Lexical.Split("10 * -5", DemoTable().Keys) == ["10 ", "*", " ", "-", "5"]
  {
    var ops := DemoTable().Keys;
    DemoSymbols();
    assert NoOps("10 ", ops) && NoOps(" ", ops) && NoOps("5", ops);
    SplitLast("5", ops);
    SplitPair(" ", '-', "5", ops);
    SplitPair("10 ", '*', " " + ("-" + "5"), ops);
    TextSpaced();
  }

  lemma {:induction false} MatchSpaced()
    ensures Lexical.Matches("10 * -5", DemoTable().Keys)
  {
    var l, m := Lexical.Literal(false, "10", ""), Lexical.Literal(true, "5", "");
    var e := Lexical.Expression(l, " ", [Lexical.Term('*', " ", m, "")]);
    assert Lexical.LiteralThen(m, "") == "-5";
    assert Lexical.RenderTerms([Lexical.Term('*', " ", m, "")]) == "* -5";
    assert Lexical.Render(e) == "10 * -5";
    DemoSymbols();
    Lexical.ParseOfRender(e, DemoTable().Keys);
  }

  lemma {:induction false} BlankTrimmed()
    ensures Lexical.Trim(" ") == ""
  {
    assert " "[1..] == [];
  }

  lemma {:induction false} TrimsSpaced()
    ensures Lexical.TrimAll(["10 ", "*", " ", "-", "5"]) == ["10", "*", "", "-", "5"]
  {
    TenSpaceTrimmed();
    OperatorPieces();
    BlankTrimmed();
    MinusTrimmed();
    FiveTrimmed();
    TrimsTo5("10 ", "*", " ", "-", "5", "10", "*", "", "-", "5");
  }

  /** The fix looks at positions 0, 2 and 4: the empty piece stands where the
      `-` would be glued, so nothing changes. */
  lemma {:induction false} FixSpaced()
    ensures Negatives.Fix(["10", "*", "", "-", "5"]) == ["10", "*", "", "-", "5"]
  {
    var t := ["10", "*", "", "-", "5"];
    forall k | 0 <= k < |t| && k % 2 == 0
      ensures t[k] != "-"
    {
      assert k == 0 || k == 2 || k == 4;
    }
    Negatives.FixIdentity(t);
  }

  lemma {:induction false} TokensSpaced()
    ensures Tokens(DemoTable(), "10 * -5") == ["10", "*", "", "-", "5"]
  {
    SplitSpaced();
    TrimsSpaced();
    FixSpaced();
  }

  /** The empty piece is neither a number nor an operator. */
  lemma {:induction false} BlankDropped(table: Table)
    ensures !IsKept(table, "")
  {
    assert Lexical.SpanFrom("", 0, Lexical.Spaces) == 0;
    assert Lexical.ParseLiteralAt("", 0).None?;
  }

  /** The empty piece is dropped and `-` pops `*`: `10 * 5 -`. */
  lemma {:induction false} PostfixSpaced()
    ensures ToPostfix(DemoTable(), ["10", "*", "", "-", "5"]) == ["10", "*", "5", "-"]
  {
    DemoSymbols();
    TenNumber();
    SmallNumbers();
    BlankDropped(DemoTable());
    GapPostfix(DemoTable(), "10", '*', "", '-', "5");
  }

  /** `*` finds one value and multiplies it into 0; `-` then gives 0 - 5. */
  lemma {:induction false} ValueSpaced()
    ensures EvalPostfix(DemoTable(), ["10", "*", "5", "-"]) == Ok(-5.0)
  {
    DemoSymbols();
    TenNumber();
    SmallNumbers();
    GapValue(DemoTable(), "10", '*', "5", '-', 10.0, 5.0, 0.0, -5.0);
  }

  /** `solve('10 * -5')` returns -5. */
  lemma {:induction false} SpacedNegative()
    ensures Evaluate(DemoTable(), "10 * -5") == Ok(-5.0)
  {
    var s, t := "10 * -5", ["10", "*", "", "-", "5"];
    DemoSymbols();
    TrimKeeps(s);
    MatchSpaced();
    TokensSpaced();
    EvaluateOf(DemoTable(), s, t);
    PostfixSpaced();
    ValueSpaced();
  }

  lemma {:induction false} SplitGlued()
    ensures Lexical.Split("10*-5", DemoTable().Keys) == ["10", "*", "-", "5"]
  {
    var ops := DemoTable().Keys;
    DemoSymbols();
    assert NoOps("10", ops) && NoOps("5", ops);
    SplitLast("5", ops);
    SplitOpThen('-', "5", ops);
    SplitPair("10", '*', "-" + "5", ops);
    assert "10" + ("*" + ("-" + "5")) == "10*-5";
  }

  lemma {:induction false} MatchGlued()
    ensures Lexical.Matches("10*-5", DemoTable().Keys)
  {
    var l, m := Lexical.Literal(false, "10", ""), Lexical.Literal(true, "5", "");
    var e := Lexical.Expression(l, "", [Lexical.Term('*', "", m, "")]);
    assert Lexical.LiteralThen(m, "") == "-5";
    assert Lexical.RenderTerms([Lexical.Term('*', "", m, "")]) == "*-5";
    assert Lexical.Render(e) == "10*-5";
    DemoSymbols();
    Lexical.ParseOfRender(e, DemoTable().Keys);
  }

  /** Position 2 holds the `-`, which is glued to `5`. */
  lemma {:induction false} FixGlued()
    ensures Negatives.Fix(["10", "*", "-", "5"]) == ["10", "*", "-5"]
  {
    var t := ["10", "*", "-", "5"];
    assert t[2] == "-" && t[3] == "5" && "-" + "5" == "-5";
    assert Negatives.FixFrom(t, 5) == [] && t[4..4] == [];
    assert Negatives.FixFrom(t, 2) == ["-5"] + [] + [];
    assert t[0] != "-" && t[0..2] == ["10", "*"];
  }

  lemma {:induction false} TokensGlued()
    ensures Tokens(DemoTable(), "10*-5") == ["10", "*", "-5"]
  {
    SplitGlued();
    TenTrimmed();
    OperatorPieces();
    MinusTrimmed();
    FiveTrimmed();
    assert Lexical.TrimAll(["10", "*", "-", "5"]) == ["10", "*", "-", "5"] by {
      Join4("10", "*", "-", "5");
      Lexical.TrimAllAppend(["10", "*"], ["-", "5"]);
      TrimPair("10", "*");
      TrimPair("-", "5");
    }
    FixGlued();
  }

  lemma {:induction false} FiveTrimmed()
    ensures Lexical.Trim("5") == "5"
  {
    TrimKeeps("5");
  }

  lemma {:induction false} TenTrimmed()
    ensures Lexical.Trim("10") == "10"
  {
    TrimKeeps("10");
  }

  lemma {:induction false} Join4<T>(x0: T, x1: T, x2: T, x3: T)
    ensures [x0, x1] + [x2, x3] == [x0, x1, x2, x3]
  {
  }

  lemma {:induction false} MinusFive()
    ensures Lexical.IsNumeric("-5") && Lexical.NumericValue("-5") == -5.0
  {
    var l := Lexical.Literal(true, "5", "");
    assert Lexical.LiteralThen(l, "") == "-5";
    assert Lexical.DigitsValue("5") == 5 by {
      assert "5"[..0] == [];
    }
    Number("-5", l);
  }

  /** `solve('10*-5')` returns -50: without the space the `-` is glued. */
  lemma {:induction false} GluedNegative()
    ensures Evaluate(DemoTable(), "10*-5") == Ok(-50.0)
  {
    var s := "10*-5";
    DemoSymbols();
    TrimKeeps(s);
    MatchGlued();
    TokensGlued();
    EvaluateOf(DemoTable(), s, ["10", "*", "-5"]);
    GluedValue();
  }

  /** `10 * -5` as three tokens is 10 times -5. */
  lemma {:induction false} GluedValue()
    ensures EvalPostfix(DemoTable(), ToPostfix(DemoTable(), ["10", "*", "-5"])) == Ok(-50.0)
  {
    DemoSymbols();
    TenNumber();
    MinusFive();
    BinaryEvaluates(DemoTable(), "10", '*', "-5");
    assert Apply(Mul, 10.0, -5.0) == Ok(-50.0);
  }
}
