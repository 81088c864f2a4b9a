/** The calls at the end of calculator.php, worked through the model, on the
    calculator they use: the constructor's four operators and `%` (line 171). */
module Demos {
  import opened Operators
  import Lexical
  import Negatives
  import opened Postfix
  import opened Calc

  /** The operator table after line 171. */
  function DemoTable(): Table
  {
    DefaultTable()['%' := Mod]
  }

  /** `defineOperator('%', 'ModulusOperator')` binds `%` to the modulus. */
  lemma {:induction false} ModulusDefined()
    ensures Define(DefaultTable(), '%', "ModulusOperator") == Ok(DemoTable())
  {
    ClassKindComplete("ModulusOperator", Mod);
  }

  /** The fully qualified `\\ModulusOperator` names the same class. */
  lemma {:induction false} QualifiedModulusDefined()
    ensures Define(DefaultTable(), '%', "\\ModulusOperator") == Define(DefaultTable(), '%', "ModulusOperator")
    ensures Define(DefaultTable(), '%', "\\ModulusOperator") == Ok(DemoTable())
  {
    ClassKindQualified("ModulusOperator");
    ModulusDefined();
  }

  lemma {:induction false} DemoSymbols()
    ensures Symbols(DemoTable()) && '~' !in DemoTable() && PatternCompiles(DemoTable())
    ensures DemoTable().Keys == {'-', '+', '*', '/', '%'}
    ensures DemoTable()['-'] == Sub && DemoTable()['%'] == Mod
    ensures DemoTable()['+'] == Add && DemoTable()['*'] == Mul && DemoTable()['/'] == Div
  {
    assert forall c :: c in DemoTable() ==> c in {'-', '+', '*', '/', '%'};
    assert '%' in DemoTable();
  }

  // ---------------------------------------------------------------------------
  // steps that hold for any text

  /** A literal written out alone is a numeric string of its value. */
  lemma {:induction false} Number(s: string, l: Lexical.Literal)
    requires Lexical.WellFormedLiteral(l) && s == Lexical.LiteralThen(l, "")
    ensures Lexical.IsNumeric(s) && Lexical.NumericValue(s) == Lexical.LiteralValue(l)
  {
    Lexical.NumericOfRender(s, "", l, "");
  }

  /** A text with no blank at either end is its own trim. */
  lemma {:induction false} TrimKeeps(s: string)
    requires s != [] && !Lexical.IsTrimChar(s[0]) && !Lexical.IsTrimChar(s[|s| - 1])
    ensures Lexical.Trim(s) == s
  {
    Lexical.TrimOfTrimmed(s);
  }

  /** One space after such a text is trimmed off. */
  lemma {:induction false} TrimSpaceAfter(s: string, t: string)
    requires s != [] && !Lexical.IsTrimChar(s[0]) && !Lexical.IsTrimChar(s[|s| - 1])
    requires t == s + " "
    ensures Lexical.Trim(t) == s
  {
    assert Lexical.TrimLeft(t) == t;
    assert t[..|t| - 1] == s;
    assert Lexical.TrimRight(t) == Lexical.TrimRight(s) == s;
  }

  /** One space before such a text is trimmed off. */
  lemma {:induction false} TrimSpaceBefore(s: string, t: string)
    requires s != [] && !Lexical.IsTrimChar(s[0]) && !Lexical.IsTrimChar(s[|s| - 1])
    requires t == " " + s
    ensures Lexical.Trim(t) == s
  {
    assert t[1..] == s;
    assert Lexical.TrimLeft(t) == Lexical.TrimLeft(s) == s;
    assert Lexical.TrimRight(s) == s;
  }

  /** A run of digits is a numeric string with the value of its digits. */
  lemma {:induction false} Numeral(s: string, n: nat)
    requires s != [] && Lexical.AllDigits(s) && Lexical.DigitsValue(s) == n
    ensures Lexical.IsNumeric(s) && Lexical.NumericValue(s) == n as real
  {
    var l := Lexical.Literal(false, s, "");
    assert Lexical.LiteralThen(l, "") == s;
    assert Lexical.LiteralValue(l) == n as real;
    Number(s, l);
  }

  lemma {:induction false} TrimPair(a: string, b: string)
    ensures Lexical.TrimAll([a, b]) == [Lexical.Trim(a), Lexical.Trim(b)]
  {
    assert [a, b][1..] == [b];
    assert [b][1..] == [];
  }

  lemma {:induction false} TrimTriple(a: string, b: string, c: string)
    ensures Lexical.TrimAll([a, b, c]) == [Lexical.Trim(a), Lexical.Trim(b), Lexical.Trim(c)]
  {
    assert [a, b, c][1..] == [b, c];
    TrimPair(b, c);
  }

  /** `solve` on a trimmed text in the grammar, once its tokens are known. */
  lemma {:induction false} EvaluateOf(table: Table, expr: string, tokens: seq<string>)
    requires PatternCompiles(table) && Lexical.Trim(expr) == expr && Lexical.Matches(expr, table.Keys)
    requires Tokens(table, expr) == tokens
    ensures Evaluate(table, expr) == EvalPostfix(table, ToPostfix(table, tokens))
  {
  }

  /** A single number converts to itself and evaluates to its value. */
  lemma {:induction false} OneNumber(table: Table, v: string)
    requires Lexical.IsNumeric(v)
    ensures EvalPostfix(table, ToPostfix(table, [v])) == Ok(Lexical.NumericValue(v))
  {
    ShuntSnoc(table, [], v);
    assert ToPostfix(table, [v]) == [v];
    assert [v][..0] == [];
    var e: seq<real> := [];
    assert e + [Lexical.NumericValue(v)] == [Lexical.NumericValue(v)];
    assert EvalAll(table, [v]) == Ok([Lexical.NumericValue(v)]);
  }

  /** The trimmed pieces of a text that splits into a number, one operator and a number. */
  lemma {:induction false} BinaryPieces(table: Table, expr: string, p: string, r: string, a: string, c: char, b: string)
    requires Symbols(table) && c in table
    requires Lexical.Split(expr, table.Keys) == [p, [c], r]
    requires Lexical.Trim(p) == a && Lexical.Trim(r) == b
    ensures Lexical.TrimAll(Lexical.Split(expr, table.Keys)) == [a, [c], b]
  {
    assert Lexical.IsSymbol(c);
    TrimKeeps([c]);
    TrimTriple(p, [c], r);
  }

  /** The tokens of a text that splits into a number, one operator and a number. */
  lemma {:induction false} BinaryTokens(table: Table, expr: string, p: string, r: string, a: string, c: char, b: string)
    requires Symbols(table) && c in table
    requires Lexical.Split(expr, table.Keys) == [p, [c], r]
    requires Lexical.Trim(p) == a && Lexical.Trim(r) == b
    requires a != "-" && b != "-"
    ensures Tokens(table, expr) == [a, [c], b]
  {
    BinaryPieces(table, expr, p, r, a, c, b);
    FixTriple(a, [c], b);
  }

  /** A number is not a lone minus sign. */
  lemma {:induction false} NotMinus(a: string)
    requires Lexical.IsNumeric(a)
    ensures a != "-"
  {
    Lexical.SymbolNotNumeric('-');
  }

  /** Nothing to glue in `a op b` when neither number is a lone `-`. */
  lemma {:induction false} FixTriple(a: string, o: string, b: string)
    requires a != "-" && b != "-"
    ensures Negatives.Fix([a, o, b]) == [a, o, b]
  {
    var t := [a, o, b];
    assert Negatives.FixFrom(t, 4) == [];
    assert Negatives.FixFrom(t, 2) == [b] by {
      assert t[2..3] == [b];
    }
    assert t[0..2] == [a, o];
  }

  /** A text in the grammar that splits into a number, one operator and a
      number evaluates to that operator's `solve` on the two numbers. */
  lemma {:induction false} EvaluateBinary(table: Table, expr: string, p: string, r: string, a: string, c: char, b: string)
    requires Symbols(table) && '~' !in table && c in table
    requires Lexical.Trim(expr) == expr && Lexical.Matches(expr, table.Keys)
    requires Lexical.Split(expr, table.Keys) == [p, [c], r]
    requires Lexical.Trim(p) == a && Lexical.Trim(r) == b
    requires Lexical.IsNumeric(a) && Lexical.IsNumeric(b)
    ensures Evaluate(table, expr) == Apply(table[c], Lexical.NumericValue(a), Lexical.NumericValue(b))
  {
    NotMinus(a);
    NotMinus(b);
    BinaryTokens(table, expr, p, r, a, c, b);
    EvaluateOf(table, expr, [a, [c], b]);
    BinaryEvaluates(table, a, c, b);
  }

  // ---------------------------------------------------------------------------
  // $c->solve('11 % 2') is 1 (line 172)

  lemma {:induction false} ModSplit()
    ensures Lexical.Split("11 % 2", DemoTable().Keys) == ["11 ", "%", " 2"]
  {
    var s, ops := "11 % 2", DemoTable().Keys;
    DemoSymbols();
    assert Lexical.SpanFrom(s, 4, Lexical.NonOperators(ops)) == 6;
    assert s[4..6] == " 2";
    assert Lexical.SplitFrom(s, 4, ops) == [" 2"];
    assert Lexical.SplitFrom(s, 3, ops) == ["%", " 2"];
    assert Lexical.SpanFrom(s, 0, Lexical.NonOperators(ops)) == 3;
    assert s[0..3] == "11 ";
  }

  lemma {:induction false} ModMatch()
    ensures Lexical.Matches("11 % 2", DemoTable().Keys)
  {
    var l, m := Lexical.Literal(false, "11", ""), Lexical.Literal(false, "2", "");
    var e := Lexical.Expression(l, " ", [Lexical.Term('%', " ", m, "")]);
    assert Lexical.RenderTerms([Lexical.Term('%', " ", m, "")]) == "% 2";
    assert Lexical.Render(e) == "11 % 2";
    DemoSymbols();
    Lexical.ParseOfRender(e, DemoTable().Keys);
  }

  lemma {:induction false} ModTrimmed()
    ensures Lexical.Trim("11 % 2") == "11 % 2"
  {
    TrimKeeps("11 % 2");
  }

  lemma {:induction false} ElevenTrimmed()
    ensures Lexical.Trim("11 ") == "11"
  {
    TrimSpaceAfter("11", "11 ");
  }

  lemma {:induction false} TwoTrimmed()
    ensures Lexical.Trim(" 2") == "2"
  {
    TrimSpaceBefore("2", " 2");
  }

  lemma {:induction false} ModNumbers()
    ensures Lexical.IsNumeric("11") && Lexical.NumericValue("11") == 11.0
    ensures Lexical.IsNumeric("2") && Lexical.NumericValue("2") == 2.0
  {
    assert Lexical.DigitsValue("11") == 11 by {
      assert "11"[..1] == "1" && "1"[..0] == [];
    }
    assert Lexical.DigitsValue("2") == 2 by {
      assert "2"[..0] == [];
    }
    Numeral("11", 11);
    Numeral("2", 2);
  }

  lemma {:induction false} ModulusDemo()
    ensures Evaluate(DemoTable(), "11 % 2") == Ok(1.0)
  {
    var s, p, r, a, b := "11 % 2", "11 ", " 2", "11", "2";
    DemoSymbols();
    ModTrimmed();
    ModSplit();
    ModMatch();
    ElevenTrimmed();
    TwoTrimmed();
    ModNumbers();
    EvaluateBinary(DemoTable(), s, p, r, a, '%', b);
    ElevenModTwo();
  }

  lemma {:induction false} ElevenModTwo()
    ensures Apply(Mod, 11.0, 2.0) == Ok(1.0)
  {
    var x, y := 11.0, 2.0;
    assert x.Floor == 11 && y.Floor == 2;
    assert TruncToInt(x) == 11 && TruncToInt(y) == 2;
    assert IntRemainder(11, 2) == 1;
  }

  // ---------------------------------------------------------------------------
  // $c->solve('100-50') is 50 (line 176)

  lemma {:induction false} SubtractSplit()
    ensures Lexical.Split("100-50", DemoTable().Keys) == ["100", "-", "50"]
  {
    var s, ops := "100-50", DemoTable().Keys;
    DemoSymbols();
    assert Lexical.SpanFrom(s, 4, Lexical.NonOperators(ops)) == 6;
    assert s[4..6] == "50";
    assert Lexical.SplitFrom(s, 4, ops) == ["50"];
    assert Lexical.SplitFrom(s, 3, ops) == ["-", "50"];
    assert Lexical.SpanFrom(s, 0, Lexical.NonOperators(ops)) == 3;
    assert s[0..3] == "100";
  }

  lemma {:induction false} SubtractMatch()
    ensures Lexical.Matches("100-50", DemoTable().Keys)
  {
    var l, m := Lexical.Literal(false, "100", ""), Lexical.Literal(false, "50", "");
    var e := Lexical.Expression(l, "", [Lexical.Term('-', "", m, "")]);
    assert Lexical.RenderTerms([Lexical.Term('-', "", m, "")]) == "-50";
    assert Lexical.Render(e) == "100-50";
    DemoSymbols();
    Lexical.ParseOfRender(e, DemoTable().Keys);
  }

  lemma {:induction false} FiftyDigits()
    ensures Lexical.DigitsValue("50") == 50
  {
    assert "50"[..1] == "5" && "5"[..0] == [];
  }

  lemma {:induction false} HundredNumber()
    ensures Lexical.IsNumeric("100") && Lexical.NumericValue("100") == 100.0
  {
    assert Lexical.DigitsValue("100") == 100 by {
      assert "100"[..2] == "10" && "10"[..1] == "1" && "1"[..0] == [];
    }
    Numeral("100", 100);
  }

  lemma {:induction false} FiftyNumber()
    ensures Lexical.IsNumeric("50") && Lexical.NumericValue("50") == 50.0
  {
    FiftyDigits();
    Numeral("50", 50);
  }

  lemma {:induction false} SubtractDemo()
    ensures Evaluate(DemoTable(), "100-50") == Ok(50.0)
  {
    var s, a, b := "100-50", "100", "50";
    DemoSymbols();
    SubtractTrimmed();
    HundredTrimmed();
    FiftyTrimmed();
    SubtractSplit();
    SubtractMatch();
    HundredNumber();
    FiftyNumber();
    EvaluateBinary(DemoTable(), s, a, b, a, '-', b);
    assert Evaluate(DemoTable(), s) == Apply(Sub, 100.0, 50.0);
    HundredMinusFifty();
  }

  lemma {:induction false} SubtractTrimmed()
    ensures Lexical.Trim("100-50") == "100-50"
  {
    TrimKeeps("100-50");
  }

  lemma {:induction false} HundredTrimmed()
    ensures Lexical.Trim("100") == "100"
  {
    TrimKeeps("100");
  }

  lemma {:induction false} FiftyTrimmed()
    ensures Lexical.Trim("50") == "50"
  {
    TrimKeeps("50");
  }

  lemma {:induction false} HundredMinusFifty()
    ensures Apply(Sub, 100.0, 50.0) == Ok(50.0)
  {
  }

  // ---------------------------------------------------------------------------
  // $c->solve('-50') is -50 (line 177)

  lemma {:induction false} MinusSplit()
    ensures Lexical.Split("-50", DemoTable().Keys) == ["-", "50"]
  {
    var s, ops := "-50", DemoTable().Keys;
    DemoSymbols();
    assert Lexical.SpanFrom(s, 1, Lexical.NonOperators(ops)) == 3;
    assert s[1..3] == "50";
    assert Lexical.SplitFrom(s, 1, ops) == ["50"];
  }

  lemma {:induction false} MinusMatch()
    ensures Lexical.Matches("-50", DemoTable().Keys)
  {
    var l := Lexical.Literal(true, "50", "");
    var e := Lexical.Expression(l, "", []);
    assert Lexical.LiteralThen(l, "") == "-50";
    assert Lexical.Render(e) == "-50";
    DemoSymbols();
    Lexical.ParseOfRender(e, DemoTable().Keys);
  }

  lemma {:induction false} MinusFifty()
    ensures Lexical.IsNumeric("-50") && Lexical.NumericValue("-50") == -50.0
  {
    var l := Lexical.Literal(true, "50", "");
    assert Lexical.LiteralThen(l, "") == "-50";
    FiftyDigits();
    Number("-50", l);
  }

  lemma {:induction false} MinusTrimmed()
    ensures Lexical.Trim("-") == "-"
  {
    TrimKeeps("-");
  }

  lemma {:induction false} NegativeTrimmed()
    ensures Lexical.Trim("-50") == "-50"
  {
    TrimKeeps("-50");
  }

  /** `-50` splits into `-` and `50`, which the fix glues back together. */
  lemma {:induction false} MinusTokens()
    ensures Tokens(DemoTable(), "-50") == ["-50"]
  {
    var s, a, b := "-50", "-", "50";
    MinusSplit();
    MinusTrimmed();
    FiftyTrimmed();
    TrimPair(a, b);
    Negatives.FixNegativeNumber();
  }

  lemma {:induction false} NegativeDemo()
    ensures Evaluate(DemoTable(), "-50") == Ok(-50.0)
  {
    var s, v := "-50", "-50";
    DemoSymbols();
    NegativeTrimmed();
    MinusMatch();
    MinusTokens();
    EvaluateOf(DemoTable(), s, [v]);
    MinusFifty();
    OneNumber(DemoTable(), v);
  }

  // ---------------------------------------------------------------------------
  // $c->solve('fasdfasdf') throws "Invalid expression" (line 179)

  lemma {:induction false} RejectDemo()
    ensures Evaluate(DemoTable(), "fasdfasdf") == Err(InvalidExpression)
  {
    Lexical.TrimOfTrimmed("fasdfasdf");
  }
}
