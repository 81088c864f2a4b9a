/** Expressions whose operators never rise in precedence from left to right.
    For them the single pop of `infixToPostfix` keeps one operator on the
    stack, and `calcPostfix` evaluates the expression from left to right. */
module Chains {
  import opened Operators
  import Lexical
  import Negatives
  import opened Postfix

  /** `num (op num)*` where every operator's precedence is at most that of the
      operator before it. */
  predicate Chain(table: Table, t: seq<string>)
    decreases |t|
  {
    if |t| == 1 then Lexical.IsNumeric(t[0])
    else |t| >= 3 && Chain(table, t[..|t| - 2]) && Link(table, t[..|t| - 2], t[|t| - 2], t[|t| - 1])
  }

  /** An operator and a number that may follow the tokens `p` in a chain: the
      operator does not outrank the last operator of `p`. */
  predicate Link(table: Table, p: seq<string>, o: string, c: string)
  {
    IsOperatorToken(table, o) && Lexical.IsNumeric(c) &&
    (|p| >= 3 && IsOperatorToken(table, p[|p| - 2]) ==>
       Precedence(table[o[0]]) <= Precedence(table[p[|p| - 2][0]]))
  }

  /** Evaluation from left to right: each operator applied to the value so far
      and the number after it; the first error ends it. */
  function LeftFold(table: Table, t: seq<string>): Result<real>
    requires Chain(table, t)
    decreases |t|
  {
    if |t| == 1 then Ok(Lexical.NumericValue(t[0]))
    else
      match LeftFold(table, t[..|t| - 2])
      case Err(e) => Err(e)
      case Ok(x) => Apply(table[t[|t| - 2][0]], x, Lexical.NumericValue(t[|t| - 1]))
  }

  /** A value as the stack of one value it leaves. */
  function Lift(r: Result<real>): Result<seq<real>>
  {
    match r
    case Err(e) => Err(e)
    case Ok(x) => Ok([x])
  }

  /** A chain followed by an operator that does not outrank its last one and a
      number is a chain, whose left fold applies that operator last. */
  lemma {:induction false} ChainSnoc(table: Table, p: seq<string>, o: string, c: string)
    requires Chain(table, p) && Link(table, p, o, c)
    ensures Chain(table, p + [o, c])
    ensures LeftFold(table, p).Ok? ==>
              LeftFold(table, p + [o, c]) == Apply(table[o[0]], LeftFold(table, p).value, Lexical.NumericValue(c))
  {
    var t := p + [o, c];
    assert t[..|t| - 2] == p;
    assert t[|t| - 2] == o && t[|t| - 1] == c;
  }

  /** A sequence of two or more is its prefix and its last two elements. */
  lemma {:induction false} LastTwo<T>(t: seq<T>)
    requires |t| >= 2
    ensures t == t[..|t| - 2] + [t[|t| - 2], t[|t| - 1]]
  {
  }

  /** Two more elements after `p`, appended one at a time or together. */
  lemma {:induction false} SnocTwo<T>(p: seq<T>, o: T, c: T)
    ensures p + [o] + [c] == p + [o, c]
  {
  }

  lemma {:induction false} ModTwoStep(n: nat)
    ensures (n + 2) % 2 == n % 2
  {
  }

  /** Two more tokens are two more steps. */
  lemma {:induction false} ShuntPair(table: Table, p: seq<string>, o: string, c: string)
    ensures ShuntAll(table, p + [o, c]) == Step(table, Step(table, ShuntAll(table, p), o), c)
  {
    SnocTwo(p, o, c);
    ShuntSnoc(table, p, o);
    ShuntSnoc(table, p + [o], c);
  }

  /** An operator that does not outrank the one operator on the stack replaces
      it, and the number after it goes to the output. */
  lemma {:induction false} PairStep(table: Table, st: Shunt, o: string, c: string, r: Shunt)
    requires Symbols(table) && StackIn(table, st.stack) && IsOperatorToken(table, o) && Lexical.IsNumeric(c)
    requires st.stack == [] || (|st.stack| == 1 && Precedence(table[o[0]]) <= Precedence(table[st.stack[0]]))
    requires r == Step(table, Step(table, st, o), c)
    ensures r.stack == [o[0]]
    ensures r.output + Unwind(r.stack) == st.output + Unwind(st.stack) + [c, o]
  {
    assert o == [o[0]];
    assert Lexical.IsSymbol(o[0]);
    Lexical.SymbolNotNumeric(o[0]);
    if st.stack == [] {
      assert Step(table, st, o) == Shunt(st.output, [o[0]]);
      assert r == Shunt(st.output + [c], [o[0]]);
    } else {
      var q := st.stack[0];
      var e: seq<char> := [];
      assert st.stack[..0] == e && e + [o[0]] == [o[0]];
      assert Step(table, st, o) == Shunt(st.output + [[q]], [o[0]]);
      assert r == Shunt(st.output + [[q]] + [c], [o[0]]);
      assert Unwind(st.stack) == [[q]];
    }
    assert Unwind([o[0]]) == [o];
  }

  /** The last operator of a chain does not outrank the one before it, which
      is the last operator of the chain without its last two tokens. */
  lemma {:induction false} ChainOrder(table: Table, t: seq<string>, p: seq<string>)
    requires Chain(table, t) && |t| >= 3 && p == t[..|t| - 2]
    ensures Chain(table, p) && IsOperatorToken(table, t[|t| - 2]) && Lexical.IsNumeric(t[|t| - 1])
    ensures |p| >= 3 ==>
              IsOperatorToken(table, p[|p| - 2]) &&
              Precedence(table[t[|t| - 2][0]]) <= Precedence(table[p[|p| - 2][0]])
  {
    assert Link(table, p, t[|t| - 2], t[|t| - 1]);
    if |p| >= 3 {
      assert Link(table, p[..|p| - 2], p[|p| - 2], p[|p| - 1]);
    }
  }

  /** The operator stack after a chain: empty after one number, else its last operator. */
  lemma {:induction false} ChainStack(table: Table, t: seq<string>)
    requires Symbols(table) && Chain(table, t)
    ensures ShuntAll(table, t).stack == (if |t| == 1 then [] else [t[|t| - 2][0]])
    decreases |t|
  {
    if |t| == 1 {
      assert t[..0] == [];
    } else {
      var p, o, c := t[..|t| - 2], t[|t| - 2], t[|t| - 1];
      LastTwo(t);
      ChainStack(table, p);
      ChainOrder(table, t, p);
      ShuntPair(table, p, o, c);
      PairStep(table, ShuntAll(table, p), o, c, ShuntAll(table, t));
    }
  }

  /** Each operator and number of a chain add the number and then the operator
      to the postfix text. */
  lemma {:induction false} ChainPostfix(table: Table, t: seq<string>, p: seq<string>)
    requires Symbols(table) && Chain(table, t) && |t| >= 3 && p == t[..|t| - 2]
    ensures ToPostfix(table, t) == ToPostfix(table, p) + [t[|t| - 1], t[|t| - 2]]
  {
    var o, c := t[|t| - 2], t[|t| - 1];
    LastTwo(t);
    ChainStack(table, p);
    ChainOrder(table, t, p);
    ShuntPair(table, p, o, c);
    PairStep(table, ShuntAll(table, p), o, c, ShuntAll(table, t));
  }

  /** A number and an operator after a stack of one value apply the operator,
      the value being its left operand. */
  lemma {:induction false} EvalPair(table: Table, ps: seq<string>, x: real, c: string, o: string)
    requires Symbols(table) && Lexical.IsNumeric(c) && IsOperatorToken(table, o) && EvalAll(table, ps) == Ok([x])
    ensures EvalAll(table, ps + [c, o]) == Lift(Apply(table[o[0]], x, Lexical.NumericValue(c)))
  {
    var y := Lexical.NumericValue(c);
    assert o == [o[0]] && Lexical.IsSymbol(o[0]);
    Lexical.SymbolNotNumeric(o[0]);
    var u := ps + [c, o];
    assert u[..|u| - 1] == ps + [c] && u[|u| - 1] == o;
    assert (ps + [c])[..|ps|] == ps;
    assert EvalAll(table, ps + [c]) == Ok([x] + [y]);
    assert [x] + [y] == [x, y];
    var e: seq<real> := [];
    assert PopOrZero([x, y]) == (y, [x]) && PopOrZero([x]) == (x, e);
    assert forall z :: e + [z] == [z];
  }

  /** The machine on the postfix text of a chain leaves the value of the left fold. */
  lemma {:induction false} ChainEval(table: Table, t: seq<string>)
    requires Symbols(table) && Chain(table, t)
    ensures EvalAll(table, ToPostfix(table, t)) == Lift(LeftFold(table, t))
    decreases |t|
  {
    if |t| == 1 {
      var a := t[0];
      assert t[..0] == [] && ShuntAll(table, t) == Shunt([a], []);
      assert ToPostfix(table, t) == [a];
      assert [a][..0] == [];
      var e: seq<real> := [];
      assert e + [Lexical.NumericValue(a)] == [Lexical.NumericValue(a)];
    } else {
      var p, o, c := t[..|t| - 2], t[|t| - 2], t[|t| - 1];
      ChainPostfix(table, t, p);
      ChainEval(table, p);
      match LeftFold(table, p)
      case Err(e) =>
        assert LeftFold(table, t) == Err(e);
        EvalAllError(table, ToPostfix(table, p), [c, o]);
      case Ok(x) =>
        assert LeftFold(table, t) == Apply(table[o[0]], x, Lexical.NumericValue(c));
        EvalPair(table, ToPostfix(table, p), x, c, o);
    }
  }

  /** Converting and evaluating a chain is evaluating it from left to right. */
  lemma {:induction false} ChainEvaluates(table: Table, t: seq<string>)
    requires Symbols(table) && Chain(table, t)
    ensures EvalPostfix(table, ToPostfix(table, t)) == LeftFold(table, t)
  {
    ChainEval(table, t);
  }

  /** The tokens at even positions of a chain are its numbers. */
  lemma {:induction false} ChainNumber(table: Table, t: seq<string>, k: nat)
    requires Chain(table, t) && k < |t| && k % 2 == 0
    ensures Lexical.IsNumeric(t[k])
    decreases |t|
  {
    if |t| == 1 || k == |t| - 1 {
    } else if k < |t| - 2 {
      var p := t[..|t| - 2];
      ChainNumber(table, p, k);
      assert p[k] == t[k];
    } else {
      ChainOdd(table, t);
      ModTwoStep(k);
      assert false;
    }
  }

  /** Chains have odd length. */
  lemma {:induction false} ChainOdd(table: Table, t: seq<string>)
    requires Chain(table, t)
    ensures |t| % 2 == 1
    decreases |t|
  {
    if |t| > 1 {
      var p := t[..|t| - 2];
      ChainOdd(table, p);
      ModTwoStep(|p|);
      assert |t| == |p| + 2;
    }
  }

  /** The negative-number fix leaves a chain as it is: no number is a lone `-`. */
  lemma {:induction false} FixChain(table: Table, t: seq<string>)
    requires Chain(table, t)
    ensures Negatives.Fix(t) == t
  {
    Lexical.SymbolNotNumeric('-');
    forall k | 0 <= k < |t| && k % 2 == 0
      ensures t[k] != "-"
    {
      ChainNumber(table, t, k);
    }
    Negatives.FixIdentity(t);
  }
}
