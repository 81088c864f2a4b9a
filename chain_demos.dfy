/** The calls of lines 183-186 worked through the model. Their operators never
    rise in precedence, so each is its left-to-right value. */
module ChainDemos {
  import opened Operators
  import Lexical
  import opened Postfix
  import opened Calc
  import opened Chains
  import opened Demos

  /** `solve` on a trimmed text in the grammar whose trimmed pieces form a chain
      is the chain's left-to-right value. */
  lemma {:induction false} EvaluateChain(table: Table, expr: string, t: seq<string>)
    requires Symbols(table) && PatternCompiles(table)
    requires Lexical.Trim(expr) == expr && Lexical.Matches(expr, table.Keys)
    requires Lexical.TrimAll(Lexical.Split(expr, table.Keys)) == t && Chain(table, t)
    ensures Evaluate(table, expr) == LeftFold(table, t)
  {
    FixChain(table, t);
    EvaluateOf(table, expr, t);
    ChainEvaluates(table, t);
  }

  // ---------------------------------------------------------------------------
  // splitting texts built from runs and operators

  /** No character of `a` is an operator. */
  predicate NoOps(a: string, ops: set<char>)
  {
    forall k :: 0 <= k < |a| ==> a[k] !in ops
  }

  /** A run of non-operators ends where an operator or the text ends. */
  lemma {:induction false} SpanTo(s: string, i: nat, j: nat, ops: set<char>)
    requires i <= j <= |s|
    requires forall k :: i <= k < j ==> s[k] !in ops
    requires j == |s| || s[j] in ops
    ensures Lexical.SpanFrom(s, i, Lexical.NonOperators(ops)) == j
    decreases j - i
  {
    if i < j {
      SpanTo(s, i + 1, j, ops);
    }
  }

  /** A run measured inside `y` is the same run after any text `x`. */
  lemma {:induction false} SpanShift(x: string, y: string, i: nat, cls: Lexical.CharClass)
    requires i <= |y|
    ensures Lexical.SpanFrom(x + y, |x| + i, cls) == |x| + Lexical.SpanFrom(y, i, cls)
    decreases |y| - i
  {
    if i < |y| {
      assert (x + y)[|x| + i] == y[i];
      if Lexical.InClass(y[i], cls) {
        SpanShift(x, y, i + 1, cls);
      }
    }
  }

  /** The pieces of `y` are the pieces of `x + y` after `x`. */
  lemma {:induction false} SplitShift(x: string, y: string, i: nat, ops: set<char>)
    requires i <= |y|
    ensures Lexical.SplitFrom(x + y, |x| + i, ops) == Lexical.SplitFrom(y, i, ops)
    decreases |y| - i
  {
    if i < |y| {
      var s := x + y;
      assert s[|x| + i] == y[i];
      if y[i] in ops {
        SplitShift(x, y, i + 1, ops);
        assert Lexical.SplitFrom(s, |x| + i, ops) == [[y[i]]] + Lexical.SplitFrom(s, |x| + i + 1, ops);
        assert Lexical.SplitFrom(y, i, ops) == [[y[i]]] + Lexical.SplitFrom(y, i + 1, ops);
      } else {
        var cls := Lexical.NonOperators(ops);
        var j := Lexical.SpanFrom(y, i, cls);
        SpanShift(x, y, i, cls);
        assert j == Lexical.SpanFrom(y, i + 1, cls);
        assert s[|x| + i..|x| + j] == y[i..j];
        SplitShift(x, y, j, ops);
        assert Lexical.SplitFrom(s, |x| + i, ops) == [y[i..j]] + Lexical.SplitFrom(s, |x| + j, ops);
        assert Lexical.SplitFrom(y, i, ops) == [y[i..j]] + Lexical.SplitFrom(y, j, ops);
      }
    }
  }

  /** A run of non-operators up to an operator or the end is one piece. */
  lemma {:induction false} SplitRunThen(a: string, rest: string, ops: set<char>)
    requires a != [] && NoOps(a, ops) && (rest == [] || rest[0] in ops)
    ensures Lexical.Split(a + rest, ops) == [a] + Lexical.Split(rest, ops)
  {
    var s := a + rest;
    SpanTo(s, 0, |a|, ops);
    assert s[0..|a|] == a;
    SplitShift(a, rest, 0, ops);
  }

  /** An operator is a piece of its own. */
  lemma {:induction false} SplitOpThen(o: char, rest: string, ops: set<char>)
    requires o in ops
    ensures Lexical.Split([o] + rest, ops) == [[o]] + Lexical.Split(rest, ops)
  {
    SplitShift([o], rest, 0, ops);
  }

  lemma {:induction false} SplitLast(a: string, ops: set<char>)
    requires a != [] && NoOps(a, ops)
    ensures Lexical.Split(a, ops) == [a]
  {
    SplitRunThen(a, [], ops);
    assert a + [] == a;
  }

  /** A run and an operator in front of a text are its first two pieces. */
  lemma {:induction false} SplitPair(a: string, o: char, r: string, ops: set<char>)
    requires a != [] && NoOps(a, ops) && o in ops
    ensures Lexical.Split(a + ([o] + r), ops) == [a, [o]] + Lexical.Split(r, ops)
  {
    SplitRunThen(a, [o] + r, ops);
    SplitOpThen(o, r, ops);
  }

  lemma {:induction false} SplitChain5(ops: set<char>, a0: string, o1: char, a1: string, o2: char, a2: string)
    requires a0 != [] && a1 != [] && a2 != [] && NoOps(a0, ops) && NoOps(a1, ops) && NoOps(a2, ops)
    requires o1 in ops && o2 in ops
    ensures Lexical.Split(a0 + ([o1] + (a1 + ([o2] + a2))), ops) == [a0, [o1], a1, [o2], a2]
  {
    SplitLast(a2, ops);
    SplitPair(a1, o2, a2, ops);
    SplitPair(a0, o1, a1 + ([o2] + a2), ops);
  }

  lemma {:induction false} SplitChain7(ops: set<char>, a0: string, o1: char, a1: string, o2: char, a2: string,
                    o3: char, a3: string)
    requires a0 != [] && a1 != [] && a2 != [] && a3 != []
    requires NoOps(a0, ops) && NoOps(a1, ops) && NoOps(a2, ops) && NoOps(a3, ops)
    requires o1 in ops && o2 in ops && o3 in ops
    ensures Lexical.Split(a0 + ([o1] + (a1 + ([o2] + (a2 + ([o3] + a3))))), ops) ==
            [a0, [o1], a1, [o2], a2, [o3], a3]
  {
    SplitChain5(ops, a1, o2, a2, o3, a3);
    SplitPair(a0, o1, a1 + ([o2] + (a2 + ([o3] + a3))), ops);
  }

  // ---------------------------------------------------------------------------
  // texts in the grammar: numbers with one space around each operator

  /** A whole number written out before `rest`. */
  lemma {:induction false} WholeThen(w: string, rest: string)
    ensures Lexical.LiteralThen(Lexical.Literal(false, w, ""), rest) == w + rest
  {
    assert Lexical.SignText(false) == [];
  }

  /** `w0 o1 w1 o2 w2`, with a space on each side of each operator, is in the grammar. */
  lemma {:induction false} MatchChain5(ops: set<char>, w0: string, o1: char, w1: string, o2: char, w2: string)
    requires Lexical.SymbolSet(ops) && o1 in ops && o2 in ops
    requires w0 != [] && w1 != [] && w2 != []
    requires Lexical.AllDigits(w0) && Lexical.AllDigits(w1) && Lexical.AllDigits(w2)
    ensures Lexical.Matches(w0 + (" " + ([o1] + (" " + (w1 + (" " + ([o2] + (" " + w2))))))), ops)
  {
    var t1 := Lexical.Term(o1, " ", Lexical.Literal(false, w1, ""), " ");
    var t2 := Lexical.Term(o2, " ", Lexical.Literal(false, w2, ""), "");
    var e := Lexical.Expression(Lexical.Literal(false, w0, ""), " ", [t1, t2]);
    WholeThen(w2, "" + "");
    assert "" + "" == "" && w2 + "" == w2;
    assert [t1, t2][1..] == [t2] && [t2][1..] == [];
    var r2 := [o2] + (" " + w2);
    assert Lexical.RenderTerms([t2]) == r2;
    WholeThen(w1, " " + r2);
    var r1 := [o1] + (" " + (w1 + (" " + r2)));
    assert Lexical.RenderTerms([t1, t2]) == r1;
    WholeThen(w0, " " + r1);
    assert Lexical.Render(e) == w0 + (" " + r1);
    assert Lexical.AllSpaces(" ") && Lexical.AllSpaces("");
    assert Lexical.WellFormedExpression(e, ops);
    Lexical.ParseOfRender(e, ops);
  }

  lemma {:induction false} MatchChain7(ops: set<char>, w0: string, o1: char, w1: string, o2: char, w2: string,
                    o3: char, w3: string)
    requires Lexical.SymbolSet(ops) && o1 in ops && o2 in ops && o3 in ops
    requires w0 != [] && w1 != [] && w2 != [] && w3 != []
    requires Lexical.AllDigits(w0) && Lexical.AllDigits(w1) && Lexical.AllDigits(w2) && Lexical.AllDigits(w3)
    ensures Lexical.Matches(w0 + (" " + ([o1] + (" " + (w1 + (" " + ([o2] + (" " + (w2 + (" " + ([o3] + (" " + w3))))))))))), ops)
  {
    var t1 := Lexical.Term(o1, " ", Lexical.Literal(false, w1, ""), " ");
    var t2 := Lexical.Term(o2, " ", Lexical.Literal(false, w2, ""), " ");
    var t3 := Lexical.Term(o3, " ", Lexical.Literal(false, w3, ""), "");
    var e := Lexical.Expression(Lexical.Literal(false, w0, ""), " ", [t1, t2, t3]);
    WholeThen(w3, "" + "");
    assert "" + "" == "" && w3 + "" == w3;
    assert [t1, t2, t3][1..] == [t2, t3] && [t2, t3][1..] == [t3] && [t3][1..] == [];
    var r3 := [o3] + (" " + w3);
    assert Lexical.RenderTerms([t3]) == r3;
    WholeThen(w2, " " + r3);
    var r2 := [o2] + (" " + (w2 + (" " + r3)));
    assert Lexical.RenderTerms([t2, t3]) == r2;
    WholeThen(w1, " " + r2);
    var r1 := [o1] + (" " + (w1 + (" " + r2)));
    assert Lexical.RenderTerms([t1, t2, t3]) == r1;
    WholeThen(w0, " " + r1);
    assert Lexical.Render(e) == w0 + (" " + r1);
    assert Lexical.AllSpaces(" ") && Lexical.AllSpaces("");
    assert Lexical.WellFormedExpression(e, ops);
    Lexical.ParseOfRender(e, ops);
  }

  // ---------------------------------------------------------------------------
  // trimming lists of pieces

  /** A space on each side of such a text is trimmed off. */
  lemma {:induction false} TrimSpaced(s: string, t: string)
    requires s != [] && !Lexical.IsTrimChar(s[0]) && !Lexical.IsTrimChar(s[|s| - 1])
    requires t == " " + s + " "
    ensures Lexical.Trim(t) == s
  {
    assert t[1..] == s + " ";
    assert Lexical.TrimLeft(t) == Lexical.TrimLeft(s + " ") == s + " ";
    var u := s + " ";
    assert u[..|u| - 1] == s;
    assert Lexical.TrimRight(u) == Lexical.TrimRight(s) == s;
  }

  lemma {:induction false} TrimsTo3(p0: string, p1: string, p2: string, t0: string, t1: string, t2: string)
    requires Lexical.Trim(p0) == t0 && Lexical.Trim(p1) == t1 && Lexical.Trim(p2) == t2
    ensures Lexical.TrimAll([p0, p1, p2]) == [t0, t1, t2]
  {
    TrimTriple(p0, p1, p2);
  }

  lemma {:induction false} Join5<T>(x0: T, x1: T, x2: T, x3: T, x4: T)
    ensures [x0, x1] + [x2, x3, x4] == [x0, x1, x2, x3, x4]
  {
  }

  lemma {:induction false} Join7<T>(x0: T, x1: T, x2: T, x3: T, x4: T, x5: T, x6: T)
    ensures [x0, x1] + [x2, x3, x4, x5, x6] == [x0, x1, x2, x3, x4, x5, x6]
  {
  }

  lemma {:induction false} TrimsTo5(p0: string, p1: string, p2: string, p3: string, p4: string,
                 t0: string, t1: string, t2: string, t3: string, t4: string)
    requires Lexical.Trim(p0) == t0 && Lexical.Trim(p1) == t1 && Lexical.Trim(p2) == t2
    requires Lexical.Trim(p3) == t3 && Lexical.Trim(p4) == t4
    ensures Lexical.TrimAll([p0, p1, p2, p3, p4]) == [t0, t1, t2, t3, t4]
  {
    Join5(p0, p1, p2, p3, p4);
    Join5(t0, t1, t2, t3, t4);
    Lexical.TrimAllAppend([p0, p1], [p2, p3, p4]);
    TrimPair(p0, p1);
    TrimsTo3(p2, p3, p4, t2, t3, t4);
  }

  lemma {:induction false} TrimsTo7(p0: string, p1: string, p2: string, p3: string, p4: string, p5: string, p6: string,
                 t0: string, t1: string, t2: string, t3: string, t4: string, t5: string, t6: string)
    requires Lexical.Trim(p0) == t0 && Lexical.Trim(p1) == t1 && Lexical.Trim(p2) == t2
    requires Lexical.Trim(p3) == t3 && Lexical.Trim(p4) == t4 && Lexical.Trim(p5) == t5
    requires Lexical.Trim(p6) == t6
    ensures Lexical.TrimAll([p0, p1, p2, p3, p4, p5, p6]) == [t0, t1, t2, t3, t4, t5, t6]
  {
    Join7(p0, p1, p2, p3, p4, p5, p6);
    Join7(t0, t1, t2, t3, t4, t5, t6);
    Lexical.TrimAllAppend([p0, p1], [p2, p3, p4, p5, p6]);
    TrimPair(p0, p1);
    TrimsTo5(p2, p3, p4, p5, p6, t2, t3, t4, t5, t6);
  }

  // ---------------------------------------------------------------------------
  // chains of three, five and seven tokens

  lemma {:induction false} Fold3(table: Table, a0: string, o1: string, a1: string, x0: real, x1: real, v1: real)
    requires Lexical.IsNumeric(a0) && Lexical.NumericValue(a0) == x0
    requires Lexical.IsNumeric(a1) && Lexical.NumericValue(a1) == x1
    requires IsOperatorToken(table, o1) && Apply(table[o1[0]], x0, x1) == Ok(v1)
    ensures Chain(table, [a0, o1, a1]) && LeftFold(table, [a0, o1, a1]) == Ok(v1)
  {
    assert Chain(table, [a0]) && LeftFold(table, [a0]) == Ok(x0);
    assert Link(table, [a0], o1, a1);
    ChainSnoc(table, [a0], o1, a1);
    assert [a0] + [o1, a1] == [a0, o1, a1];
  }

  lemma {:induction false} Fold5(table: Table, a0: string, o1: string, a1: string, o2: string, a2: string,
              x0: real, x1: real, x2: real, v1: real, v2: real)
    requires Lexical.IsNumeric(a0) && Lexical.NumericValue(a0) == x0
    requires Lexical.IsNumeric(a1) && Lexical.NumericValue(a1) == x1
    requires Lexical.IsNumeric(a2) && Lexical.NumericValue(a2) == x2
    requires IsOperatorToken(table, o1) && IsOperatorToken(table, o2)
    requires Precedence(table[o2[0]]) <= Precedence(table[o1[0]])
    requires Apply(table[o1[0]], x0, x1) == Ok(v1) && Apply(table[o2[0]], v1, x2) == Ok(v2)
    ensures Chain(table, [a0, o1, a1, o2, a2]) && LeftFold(table, [a0, o1, a1, o2, a2]) == Ok(v2)
  {
    Fold3(table, a0, o1, a1, x0, x1, v1);
    assert Link(table, [a0, o1, a1], o2, a2);
    ChainSnoc(table, [a0, o1, a1], o2, a2);
    assert [a0, o1, a1] + [o2, a2] == [a0, o1, a1, o2, a2];
  }

  lemma {:induction false} Fold7(table: Table, a0: string, o1: string, a1: string, o2: string, a2: string,
              o3: string, a3: string, x0: real, x1: real, x2: real, x3: real,
              v1: real, v2: real, v3: real)
    requires Lexical.IsNumeric(a0) && Lexical.NumericValue(a0) == x0
    requires Lexical.IsNumeric(a1) && Lexical.NumericValue(a1) == x1
    requires Lexical.IsNumeric(a2) && Lexical.NumericValue(a2) == x2
    requires Lexical.IsNumeric(a3) && Lexical.NumericValue(a3) == x3
    requires IsOperatorToken(table, o1) && IsOperatorToken(table, o2) && IsOperatorToken(table, o3)
    requires Precedence(table[o2[0]]) <= Precedence(table[o1[0]])
    requires Precedence(table[o3[0]]) <= Precedence(table[o2[0]])
    requires Apply(table[o1[0]], x0, x1) == Ok(v1) && Apply(table[o2[0]], v1, x2) == Ok(v2)
    requires Apply(table[o3[0]], v2, x3) == Ok(v3)
    ensures Chain(table, [a0, o1, a1, o2, a2, o3, a3])
    ensures LeftFold(table, [a0, o1, a1, o2, a2, o3, a3]) == Ok(v3)
  {
    Fold5(table, a0, o1, a1, o2, a2, x0, x1, x2, v1, v2);
    assert Link(table, [a0, o1, a1, o2, a2], o3, a3);
    ChainSnoc(table, [a0, o1, a1, o2, a2], o3, a3);
    assert [a0, o1, a1, o2, a2] + [o3, a3] == [a0, o1, a1, o2, a2, o3, a3];
  }

  // ---------------------------------------------------------------------------
  // the numbers and pieces the four texts share

  /** The runs between the operators contain none of the demo table's symbols. */
  lemma {:induction false} DemoRuns()
    ensures NoOps("10 ", DemoTable().Keys) && NoOps(" 10 ", DemoTable().Keys)
    ensures NoOps(" 100 ", DemoTable().Keys) && NoOps(" 100", DemoTable().Keys)
    ensures NoOps(" 1", DemoTable().Keys)
    ensures Lexical.AllDigits("10") && Lexical.AllDigits("100") && Lexical.AllDigits("1")
  {
    DemoSymbols();
  }

  lemma {:induction false} TenNumber()
    ensures Lexical.IsNumeric("10") && Lexical.NumericValue("10") == 10.0
  {
    assert Lexical.DigitsValue("10") == 10 by {
      assert "10"[..1] == "1" && "1"[..0] == [];
    }
    Numeral("10", 10);
  }

  lemma {:induction false} UnitNumber()
    ensures Lexical.IsNumeric("1") && Lexical.NumericValue("1") == 1.0
  {
    assert Lexical.DigitsValue("1") == 1 by {
      assert "1"[..0] == [];
    }
    Numeral("1", 1);
  }

  lemma {:induction false} TenSpaceTrimmed()
    ensures Lexical.Trim("10 ") == "10"
  {
    TrimSpaceAfter("10", "10 ");
  }

  lemma {:induction false} SpacedTenTrimmed()
    ensures Lexical.Trim(" 10 ") == "10"
  {
    TrimSpaced("10", " 10 ");
  }

  lemma {:induction false} SpacedHundredTrimmed()
    ensures Lexical.Trim(" 100 ") == "100"
  {
    TrimSpaced("100", " 100 ");
  }

  lemma {:induction false} SpaceHundredTrimmed()
    ensures Lexical.Trim(" 100") == "100"
  {
    TrimSpaceBefore("100", " 100");
  }

  lemma {:induction false} SpaceUnitTrimmed()
    ensures Lexical.Trim(" 1") == "1"
  {
    TrimSpaceBefore("1", " 1");
  }

  /** An operator of the table is its own trimmed, non-numeric piece. */
  lemma {:induction false} OperatorPiece(table: Table, c: char)
    requires Symbols(table) && c in table
    ensures Lexical.Trim([c]) == [c] && IsOperatorOnly(table, [c])
  {
    assert Lexical.IsSymbol(c);
    TrimKeeps([c]);
    Lexical.SymbolNotNumeric(c);
  }

  /** The demo table's `*`, `/` and `+` as pieces. */
  lemma {:induction false} OperatorPieces()
    ensures Lexical.Trim("*") == "*" && Lexical.Trim("/") == "/" && Lexical.Trim("+") == "+"
    ensures IsOperatorOnly(DemoTable(), "*") && IsOperatorOnly(DemoTable(), "/")
    ensures IsOperatorOnly(DemoTable(), "+")
  {
    DemoSymbols();
    OperatorPiece(DemoTable(), '*');
    OperatorPiece(DemoTable(), '/');
    OperatorPiece(DemoTable(), '+');
  }

  // ---------------------------------------------------------------------------
  // $c->solve('10 * 10 / 100 / 1') is 1 (line 183)

  /** The text, as runs and operators and as numbers and operators. */
  lemma {:induction false} Text183()
    ensures "10 " + ("*" + (" 10 " + ("/" + (" 100 " + ("/" + " 1"))))) == "10 * 10 / 100 / 1"
    ensures "10" + (" " + ("*" + (" " + ("10" + (" " + ("/" + (" " + ("100" + (" " + ("/" + (" " + "1"))))))))))) == "10 * 10 / 100 / 1"
  {
  }

  lemma {:induction false} Split183()
    ensures Lexical.Split("10 * 10 / 100 / 1", DemoTable().Keys) ==
            ["10 ", "*", " 10 ", "/", " 100 ", "/", " 1"]
  {
    DemoSymbols();
    DemoRuns();
    SplitChain7(DemoTable().Keys, "10 ", '*', " 10 ", '/', " 100 ", '/', " 1");
    Text183();
  }

  lemma {:induction false} Match183()
    ensures Lexical.Matches("10 * 10 / 100 / 1", DemoTable().Keys)
  {
    DemoSymbols();
    DemoRuns();
    MatchChain7(DemoTable().Keys, "10", '*', "10", '/', "100", '/', "1");
    Text183();
  }

  lemma {:induction false} Trims183()
    ensures Lexical.TrimAll(["10 ", "*", " 10 ", "/", " 100 ", "/", " 1"]) ==
            ["10", "*", "10", "/", "100", "/", "1"]
  {
    var p0, p1, p2, p3, p4, p5, p6 := "10 ", "*", " 10 ", "/", " 100 ", "/", " 1";
    var t0, t1, t2, t3, t4, t5, t6 := "10", "*", "10", "/", "100", "/", "1";
    TenSpaceTrimmed();
    SpacedTenTrimmed();
    SpacedHundredTrimmed();
    SpaceUnitTrimmed();
    OperatorPieces();
    TrimsTo7(p0, p1, p2, p3, p4, p5, p6, t0, t1, t2, t3, t4, t5, t6);
  }

  lemma {:induction false} Pieces183()
    ensures Lexical.TrimAll(Lexical.Split("10 * 10 / 100 / 1", DemoTable().Keys)) ==
            ["10", "*", "10", "/", "100", "/", "1"]
  {
    Split183();
    Trims183();
  }

  lemma {:induction false} Chain183()
    ensures Chain(DemoTable(), ["10", "*", "10", "/", "100", "/", "1"])
    ensures LeftFold(DemoTable(), ["10", "*", "10", "/", "100", "/", "1"]) == Ok(1.0)
  {
    var table, a, m, d, h, u := DemoTable(), "10", "*", "/", "100", "1";
    DemoSymbols();
    OperatorPieces();
    TenNumber();
    HundredNumber();
    UnitNumber();
    assert Apply(Mul, 10.0, 10.0) == Ok(100.0) && Apply(Div, 100.0, 100.0) == Ok(1.0);
    assert Apply(Div, 1.0, 1.0) == Ok(1.0);
    Fold7(table, a, m, a, d, h, d, u, 10.0, 10.0, 100.0, 1.0, 100.0, 1.0, 1.0);
  }

  lemma {:induction false} Demo183()
    ensures Evaluate(DemoTable(), "10 * 10 / 100 / 1") == Ok(1.0)
  {
    var s, t := "10 * 10 / 100 / 1", ["10", "*", "10", "/", "100", "/", "1"];
    DemoSymbols();
    TrimKeeps(s);
    Match183();
    Pieces183();
    Chain183();
    EvaluateChain(DemoTable(), s, t);
  }
  // ---------------------------------------------------------------------------
  // $c->solve('10 / 10 + 100') is 101 (line 184)

  /** The text, as runs and operators and as numbers and operators. */
  lemma {:induction false} Text184()
    ensures "10 " + ("/" + (" 10 " + ("+" + " 100"))) == "10 / 10 + 100"
    ensures "10" + (" " + ("/" + (" " + ("10" + (" " + ("+" + (" " + "100"))))))) == "10 / 10 + 100"
  {
  }

  lemma {:induction false} Split184()
    ensures Lexical.Split("10 / 10 + 100", DemoTable().Keys) ==
            ["10 ", "/", " 10 ", "+", " 100"]
  {
    DemoSymbols();
    DemoRuns();
    SplitChain5(DemoTable().Keys, "10 ", '/', " 10 ", '+', " 100");
    Text184();
  }

  lemma {:induction false} Match184()
    ensures Lexical.Matches("10 / 10 + 100", DemoTable().Keys)
  {
    DemoSymbols();
    DemoRuns();
    MatchChain5(DemoTable().Keys, "10", '/', "10", '+', "100");
    Text184();
  }

  lemma {:induction false} Trims184()
    ensures Lexical.TrimAll(["10 ", "/", " 10 ", "+", " 100"]) ==
            ["10", "/", "10", "+", "100"]
  {
    var p0, p1, p2, p3, p4 := "10 ", "/", " 10 ", "+", " 100";
    var t0, t1, t2, t3, t4 := "10", "/", "10", "+", "100";
    TenSpaceTrimmed();
    SpacedTenTrimmed();
    SpaceHundredTrimmed();
    OperatorPieces();
    TrimsTo5(p0, p1, p2, p3, p4, t0, t1, t2, t3, t4);
  }

  lemma {:induction false} Pieces184()
    ensures Lexical.TrimAll(Lexical.Split("10 / 10 + 100", DemoTable().Keys)) ==
            ["10", "/", "10", "+", "100"]
  {
    Split184();
    Trims184();
  }

  lemma {:induction false} Chain184()
    ensures Chain(DemoTable(), ["10", "/", "10", "+", "100"])
    ensures LeftFold(DemoTable(), ["10", "/", "10", "+", "100"]) == Ok(101.0)
  {
    var table, a, d, p, h := DemoTable(), "10", "/", "+", "100";
    DemoSymbols();
    OperatorPieces();
    TenNumber();
    HundredNumber();
    assert Apply(Div, 10.0, 10.0) == Ok(1.0) && Apply(Add, 1.0, 100.0) == Ok(101.0);
    Fold5(table, a, d, a, p, h, 10.0, 10.0, 100.0, 1.0, 101.0);
  }

  lemma {:induction false} Demo184()
    ensures Evaluate(DemoTable(), "10 / 10 + 100") == Ok(101.0)
  {
    var s, t := "10 / 10 + 100", ["10", "/", "10", "+", "100"];
    DemoSymbols();
    TrimKeeps(s);
    Match184();
    Pieces184();
    Chain184();
    EvaluateChain(DemoTable(), s, t);
  }
  // ---------------------------------------------------------------------------
  // $c->solve('10 * 10 * 100') is 10000 (line 185)

  /** The text, as runs and operators and as numbers and operators. */
  lemma {:induction false} Text185()
    ensures "10 " + ("*" + (" 10 " + ("*" + " 100"))) == "10 * 10 * 100"
    ensures "10" + (" " + ("*" + (" " + ("10" + (" " + ("*" + (" " + "100"))))))) == "10 * 10 * 100"
  {
  }

  lemma {:induction false} Split185()
    ensures Lexical.Split("10 * 10 * 100", DemoTable().Keys) ==
            ["10 ", "*", " 10 ", "*", " 100"]
  {
    DemoSymbols();
    DemoRuns();
    SplitChain5(DemoTable().Keys, "10 ", '*', " 10 ", '*', " 100");
    Text185();
  }

  lemma {:induction false} Match185()
    ensures Lexical.Matches("10 * 10 * 100", DemoTable().Keys)
  {
    DemoSymbols();
    DemoRuns();
    MatchChain5(DemoTable().Keys, "10", '*', "10", '*', "100");
    Text185();
  }

  lemma {:induction false} Trims185()
    ensures Lexical.TrimAll(["10 ", "*", " 10 ", "*", " 100"]) ==
            ["10", "*", "10", "*", "100"]
  {
    var p0, p1, p2, p3, p4 := "10 ", "*", " 10 ", "*", " 100";
    var t0, t1, t2, t3, t4 := "10", "*", "10", "*", "100";
    TenSpaceTrimmed();
    SpacedTenTrimmed();
    SpaceHundredTrimmed();
    OperatorPieces();
    TrimsTo5(p0, p1, p2, p3, p4, t0, t1, t2, t3, t4);
  }

  lemma {:induction false} Pieces185()
    ensures Lexical.TrimAll(Lexical.Split("10 * 10 * 100", DemoTable().Keys)) ==
            ["10", "*", "10", "*", "100"]
  {
    Split185();
    Trims185();
  }

  lemma {:induction false} Chain185()
    ensures Chain(DemoTable(), ["10", "*", "10", "*", "100"])
    ensures LeftFold(DemoTable(), ["10", "*", "10", "*", "100"]) == Ok(10000.0)
  {
    var table, a, m, h := DemoTable(), "10", "*", "100";
    DemoSymbols();
    OperatorPieces();
    TenNumber();
    HundredNumber();
    assert Apply(Mul, 10.0, 10.0) == Ok(100.0) && Apply(Mul, 100.0, 100.0) == Ok(10000.0);
    Fold5(table, a, m, a, m, h, 10.0, 10.0, 100.0, 100.0, 10000.0);
  }

  lemma {:induction false} Demo185()
    ensures Evaluate(DemoTable(), "10 * 10 * 100") == Ok(10000.0)
  {
    var s, t := "10 * 10 * 100", ["10", "*", "10", "*", "100"];
    DemoSymbols();
    TrimKeeps(s);
    Match185();
    Pieces185();
    Chain185();
    EvaluateChain(DemoTable(), s, t);
  }
  // ---------------------------------------------------------------------------
  // $c->solve('10 * 10 * 100 / 100') is 100 (line 186)

  /** The text, as runs and operators and as numbers and operators. */
  lemma {:induction false} Text186()
    ensures "10 " + ("*" + (" 10 " + ("*" + (" 100 " + ("/" + " 100"))))) == "10 * 10 * 100 / 100"
    ensures "10" + (" " + ("*" + (" " + ("10" + (" " + ("*" + (" " + ("100" + (" " + ("/" + (" " + "100"))))))))))) == "10 * 10 * 100 / 100"
  {
  }

  lemma {:induction false} Split186()
    ensures Lexical.Split("10 * 10 * 100 / 100", DemoTable().Keys) ==
            ["10 ", "*", " 10 ", "*", " 100 ", "/", " 100"]
  {
    DemoSymbols();
    DemoRuns();
    SplitChain7(DemoTable().Keys, "10 ", '*', " 10 ", '*', " 100 ", '/', " 100");
    Text186();
  }

  lemma {:induction false} Match186()
    ensures Lexical.Matches("10 * 10 * 100 / 100", DemoTable().Keys)
  {
    DemoSymbols();
    DemoRuns();
    MatchChain7(DemoTable().Keys, "10", '*', "10", '*', "100", '/', "100");
    Text186();
  }

  lemma {:induction false} Trims186()
    ensures Lexical.TrimAll(["10 ", "*", " 10 ", "*", " 100 ", "/", " 100"]) ==
            ["10", "*", "10", "*", "100", "/", "100"]
  {
    var p0, p1, p2, p3, p4, p5, p6 := "10 ", "*", " 10 ", "*", " 100 ", "/", " 100";
    var t0, t1, t2, t3, t4, t5, t6 := "10", "*", "10", "*", "100", "/", "100";
    TenSpaceTrimmed();
    SpacedTenTrimmed();
    SpacedHundredTrimmed();
    SpaceHundredTrimmed();
    OperatorPieces();
    TrimsTo7(p0, p1, p2, p3, p4, p5, p6, t0, t1, t2, t3, t4, t5, t6);
  }

  lemma {:induction false} Pieces186()
    ensures Lexical.TrimAll(Lexical.Split("10 * 10 * 100 / 100", DemoTable().Keys)) ==
            ["10", "*", "10", "*", "100", "/", "100"]
  {
    Split186();
    Trims186();
  }

  lemma {:induction false} Chain186()
    ensures Chain(DemoTable(), ["10", "*", "10", "*", "100", "/", "100"])
    ensures LeftFold(DemoTable(), ["10", "*", "10", "*", "100", "/", "100"]) == Ok(100.0)
  {
    var table, a, m, d, h := DemoTable(), "10", "*", "/", "100";
    DemoSymbols();
    OperatorPieces();
    TenNumber();
    HundredNumber();
    assert Apply(Mul, 10.0, 10.0) == Ok(100.0) && Apply(Mul, 100.0, 100.0) == Ok(10000.0);
    assert Apply(Div, 10000.0, 100.0) == Ok(100.0);
    Fold7(table, a, m, a, m, h, d, h, 10.0, 10.0, 100.0, 100.0, 100.0, 10000.0, 100.0);
  }

  lemma {:induction false} Demo186()
    ensures Evaluate(DemoTable(), "10 * 10 * 100 / 100") == Ok(100.0)
  {
    var s, t := "10 * 10 * 100 / 100", ["10", "*", "10", "*", "100", "/", "100"];
    DemoSymbols();
    TrimKeeps(s);
    Match186();
    Pieces186();
    Chain186();
    EvaluateChain(DemoTable(), s, t);
  }
}
