/** `Calculator::infixToPostfix`, the conversion of the token list to postfix
    order, and `Calculator::calcPostfix`, the stack machine that evaluates it. */
module Postfix {
  import opened Wrappers
  import opened Operators
  import Lexical

  /** The `$operators` field: operator symbol to operator kind. */
  type Table = map<char, OpKind>

  /** Every symbol of the table is one the model admits as an operator. */
  predicate Symbols(table: Table)
  {
    forall c :: c in table ==> Lexical.IsSymbol(c)
  }

  /** `preg_match('~^[ops]$~', v)`: the token is one registered operator character. */
  predicate IsOperatorToken(table: Table, v: string)
  {
    |v| == 1 && v[0] in table
  }

  /** A token the conversion keeps: a number or a registered operator. */
  predicate IsKept(table: Table, v: string)
  {
    Lexical.IsNumeric(v) || IsOperatorToken(table, v)
  }

  /** An operator token that is not also a number; the number test comes first. */
  predicate IsOperatorOnly(table: Table, v: string)
  {
    !Lexical.IsNumeric(v) && IsOperatorToken(table, v)
  }

  // ---------------------------------------------------------------------------
  // filters over token lists

  /** The number tokens of `ps`, in order. */
  function Numbers(ps: seq<string>): seq<string>
  {
    if ps == [] then []
    else Numbers(ps[..|ps| - 1]) + (if Lexical.IsNumeric(ps[|ps| - 1]) then [ps[|ps| - 1]] else [])
  }

  /** The operator tokens of `ps`, in order. */
  function OperatorsOf(table: Table, ps: seq<string>): seq<string>
  {
    if ps == [] then []
    else OperatorsOf(table, ps[..|ps| - 1]) + (if IsOperatorOnly(table, ps[|ps| - 1]) then [ps[|ps| - 1]] else [])
  }

  /** The tokens of `ps` the conversion keeps, in order. */
  function Kept(table: Table, ps: seq<string>): seq<string>
  {
    if ps == [] then []
    else Kept(table, ps[..|ps| - 1]) + (if IsKept(table, ps[|ps| - 1]) then [ps[|ps| - 1]] else [])
  }

  lemma {:induction false} NumbersAppend(a: seq<string>, b: seq<string>)
    ensures Numbers(a + b) == Numbers(a) + Numbers(b)
    decreases |b|
  {
    if b != [] {
      var b' := b[..|b| - 1];
      assert (a + b)[..|a + b| - 1] == a + b';
      NumbersAppend(a, b');
    } else {
      assert a + b == a;
    }
  }

  lemma {:induction false} OperatorsAppend(table: Table, a: seq<string>, b: seq<string>)
    ensures OperatorsOf(table, a + b) == OperatorsOf(table, a) + OperatorsOf(table, b)
    decreases |b|
  {
    if b != [] {
      var b' := b[..|b| - 1];
      assert (a + b)[..|a + b| - 1] == a + b';
      OperatorsAppend(table, a, b');
    } else {
      assert a + b == a;
    }
  }

  lemma {:induction false} KeptAppend(table: Table, a: seq<string>, b: seq<string>)
    ensures Kept(table, a + b) == Kept(table, a) + Kept(table, b)
    decreases |b|
  {
    if b != [] {
      var b' := b[..|b| - 1];
      assert (a + b)[..|a + b| - 1] == a + b';
      KeptAppend(table, a, b');
    } else {
      assert a + b == a;
    }
  }

  /** Filtering a list with one more token at the end. */
  lemma {:induction false} Snoc(table: Table, ps: seq<string>, v: string)
    ensures Numbers(ps + [v]) == Numbers(ps) + (if Lexical.IsNumeric(v) then [v] else [])
    ensures OperatorsOf(table, ps + [v]) == OperatorsOf(table, ps) + (if IsOperatorOnly(table, v) then [v] else [])
    ensures Kept(table, ps + [v]) == Kept(table, ps) + (if IsKept(table, v) then [v] else [])
  {
    assert (ps + [v])[..|ps|] == ps;
  }

  // ---------------------------------------------------------------------------
  // the conversion

  /** Every symbol on the operator stack is in the table. */
  predicate StackIn(table: Table, stack: seq<char>)
  {
    forall k :: 0 <= k < |stack| ==> stack[k] in table
  }

  /** The `$resultStack` and the `$operatorStack` of the conversion; the
      operator stack holds the operator symbols. */
  datatype Shunt = Shunt(output: seq<string>, stack: seq<char>)

  /** One turn of the conversion loop: a number goes to the output; a registered
      operator pops the top of the stack to the output once, when its own
      precedence is not above the top's, and is then pushed; any other token is
      dropped. */
  function Step(table: Table, st: Shunt, v: string): (r: Shunt)
    requires StackIn(table, st.stack)
    ensures StackIn(table, r.stack)
  {
    if Lexical.IsNumeric(v) then Shunt(st.output + [v], st.stack)
    else if IsOperatorToken(table, v) then
      var c := v[0];
      var n := |st.stack|;
      if n > 0 && Precedence(table[c]) <= Precedence(table[st.stack[n - 1]]) then
        Shunt(st.output + [[st.stack[n - 1]]], st.stack[..n - 1] + [c])
      else
        Shunt(st.output, st.stack + [c])
    else st
  }

  /** The state of the conversion after the tokens `t`. */
  function ShuntAll(table: Table, t: seq<string>): (r: Shunt)
    ensures StackIn(table, r.stack)
  {
    if t == [] then Shunt([], [])
    else Step(table, ShuntAll(table, t[..|t| - 1]), t[|t| - 1])
  }

  /** The operator stack emptied from the top: `array_reverse`, then appended. */
  function Unwind(stack: seq<char>): (r: seq<string>)
    ensures |r| == |stack|
  {
    if stack == [] then []
    else [[stack[|stack| - 1]]] + Unwind(stack[..|stack| - 1])
  }

  /** `infixToPostfix`: the output of the loop, then the leftover operators,
      last pushed first. */
  function ToPostfix(table: Table, t: seq<string>): seq<string>
  {
    var st := ShuntAll(table, t);
    st.output + Unwind(st.stack)
  }

  lemma {:induction false} UnwindPush(stack: seq<char>, c: char)
    ensures Unwind(stack + [c]) == [[c]] + Unwind(stack)
  {
    assert (stack + [c])[..|stack|] == stack;
  }

  /** An operator symbol of the table is no number. */
  lemma {:induction false} SymbolToken(table: Table, c: char)
    requires Symbols(table) && c in table
    ensures !Lexical.IsNumeric([c]) && IsOperatorOnly(table, [c])
  {
    Lexical.SymbolNotNumeric(c);
  }

  /** The unwound operators are operator tokens and no numbers. */
  lemma {:induction false} UnwindFilters(table: Table, stack: seq<char>)
    requires Symbols(table) && StackIn(table, stack)
    ensures Numbers(Unwind(stack)) == [] && OperatorsOf(table, Unwind(stack)) == Unwind(stack)
    decreases |stack|
  {
    if stack != [] {
      var n := |stack|;
      var rest := stack[..n - 1];
      UnwindFilters(table, rest);
      SymbolToken(table, stack[n - 1]);
      NumbersAppend([[stack[n - 1]]], Unwind(rest));
      OperatorsAppend(table, [[stack[n - 1]]], Unwind(rest));
      Snoc(table, [], [stack[n - 1]]);
    }
  }

  /** One registered operator pops at most one operator, the top of the stack,
      and exactly when its precedence is not above the top's; it always ends up
      on top of the stack. */
  lemma {:induction false} StepPopsAtMostOnce(table: Table, st: Shunt, v: string)
    requires StackIn(table, st.stack) && IsOperatorOnly(table, v)
    ensures var r := Step(table, st, v);
            var n := |st.stack|;
            var pops := n > 0 && Precedence(table[v[0]]) <= Precedence(table[st.stack[n - 1]]);
            |r.output| == |st.output| + (if pops then 1 else 0) &&
            r.output[..|st.output|] == st.output &&
            (pops ==> r.output[|st.output|] == [st.stack[n - 1]]) &&
            r.stack == (if pops then st.stack[..n - 1] else st.stack) + [v[0]]
  {
  }

  /** The conversion of a list with one more token at the end is one more step. */
  lemma {:induction false} ShuntSnoc(table: Table, t: seq<string>, v: string)
    ensures ShuntAll(table, t + [v]) == Step(table, ShuntAll(table, t), v)
  {
    assert (t + [v])[..|t|] == t;
  }

  /** One step keeps the numbers: the output gains `v` exactly when it is a number. */
  lemma {:induction false} NumbersStep(table: Table, st: Shunt, v: string, r: Shunt)
    requires Symbols(table) && StackIn(table, st.stack) && r == Step(table, st, v)
    ensures Numbers(r.output) == Numbers(st.output) + (if Lexical.IsNumeric(v) then [v] else [])
  {
    if Lexical.IsNumeric(v) {
      Snoc(table, st.output, v);
    } else if IsOperatorToken(table, v) && |st.stack| > 0 {
      var top := st.stack[|st.stack| - 1];
      SymbolToken(table, top);
      Snoc(table, st.output, [top]);
    }
  }

  /** The conversion keeps the numbers in their order. */
  lemma {:induction false} ShuntNumbers(table: Table, t: seq<string>)
    requires Symbols(table)
    ensures Numbers(ShuntAll(table, t).output) == Numbers(t)
    decreases |t|
  {
    if t != [] {
      var init, v := t[..|t| - 1], t[|t| - 1];
      assert t == init + [v];
      ShuntNumbers(table, init);
      ShuntSnoc(table, init, v);
      Snoc(table, init, v);
      NumbersStep(table, ShuntAll(table, init), v, ShuntAll(table, t));
    }
  }

  /** The operators on the output and on the stack together. */
  function Pending(table: Table, out: seq<string>, stack: seq<char>): multiset<string>
  {
    multiset(OperatorsOf(table, out)) + multiset(Unwind(stack))
  }

  /** A number on the output adds no operator. */
  lemma {:induction false} PendingNumber(table: Table, out: seq<string>, stack: seq<char>, v: string)
    requires Lexical.IsNumeric(v)
    ensures Pending(table, out + [v], stack) == Pending(table, out, stack)
  {
    Snoc(table, out, v);
  }

  /** An operator `c` pushed without a pop goes on the stack. */
  lemma {:induction false} PendingPush(table: Table, out: seq<string>, stack: seq<char>, c: char)
    ensures Pending(table, out, stack + [c]) == Pending(table, out, stack) + multiset{[c]}
  {
    UnwindPush(stack, c);
  }

  /** An operator `c` popping `top`: `top` moves to the output, and `c` goes on the stack. */
  lemma {:induction false} PendingPop(table: Table, out: seq<string>, below: seq<char>, top: char, c: char)
    requires Symbols(table) && top in table
    ensures Pending(table, out + [[top]], below + [c]) == Pending(table, out, below + [top]) + multiset{[c]}
  {
    SymbolToken(table, top);
    Snoc(table, out, [top]);
    UnwindPush(below, c);
    UnwindPush(below, top);
  }

  /** One step moves operators between the stack and the output, and adds `v`
      when it is an operator. */
  lemma {:induction false} OperatorsStep(table: Table, st: Shunt, v: string, r: Shunt)
    requires Symbols(table) && StackIn(table, st.stack) && r == Step(table, st, v)
    ensures IsOperatorOnly(table, v) ==> Pending(table, r.output, r.stack) == Pending(table, st.output, st.stack) + multiset{v}
    ensures !IsOperatorOnly(table, v) ==> Pending(table, r.output, r.stack) == Pending(table, st.output, st.stack)
  {
    if Lexical.IsNumeric(v) {
      PendingNumber(table, st.output, st.stack, v);
    } else if IsOperatorToken(table, v) {
      var c, n := v[0], |st.stack|;
      assert v == [c];
      if n > 0 && Precedence(table[c]) <= Precedence(table[st.stack[n - 1]]) {
        var top, below := st.stack[n - 1], st.stack[..n - 1];
        assert st.stack == below + [top];
        PendingPop(table, st.output, below, top, c);
      } else {
        PendingPush(table, st.output, st.stack, c);
      }
    }
  }

  /** Every kept operator is on the output or on the stack, exactly once. */
  lemma {:induction false} ShuntOperators(table: Table, t: seq<string>)
    requires Symbols(table)
    ensures multiset(OperatorsOf(table, ShuntAll(table, t).output)) + multiset(Unwind(ShuntAll(table, t).stack)) ==
            multiset(OperatorsOf(table, t))
    decreases |t|
  {
    if t != [] {
      var init, v := t[..|t| - 1], t[|t| - 1];
      assert t == init + [v];
      ShuntOperators(table, init);
      ShuntSnoc(table, init, v);
      Snoc(table, init, v);
      OperatorsStep(table, ShuntAll(table, init), v, ShuntAll(table, t));
    }
  }

  /** One step lengthens output and stack together by one for a kept token, by none otherwise. */
  lemma {:induction false} LengthStep(table: Table, st: Shunt, v: string, r: Shunt)
    requires StackIn(table, st.stack) && r == Step(table, st, v)
    ensures |r.output| + |r.stack| == |st.output| + |st.stack| + (if IsKept(table, v) then 1 else 0)
  {
  }

  /** Every kept token is on the output or on the stack, and no other. */
  lemma {:induction false} ShuntLength(table: Table, t: seq<string>)
    ensures |ShuntAll(table, t).output| + |ShuntAll(table, t).stack| == |Kept(table, t)|
    decreases |t|
  {
    if t != [] {
      var init, v := t[..|t| - 1], t[|t| - 1];
      assert t == init + [v];
      ShuntLength(table, init);
      ShuntSnoc(table, init, v);
      Snoc(table, init, v);
      LengthStep(table, ShuntAll(table, init), v, ShuntAll(table, t));
    }
  }

  /** The postfix output holds the numbers of the input in their order. */
  lemma {:induction false} PostfixNumbers(table: Table, t: seq<string>)
    requires Symbols(table)
    ensures Numbers(ToPostfix(table, t)) == Numbers(t)
  {
    var st := ShuntAll(table, t);
    ShuntNumbers(table, t);
    UnwindFilters(table, st.stack);
    NumbersAppend(st.output, Unwind(st.stack));
  }

  /** The postfix output holds each registered operator of the input exactly once. */
  lemma {:induction false} PostfixOperators(table: Table, t: seq<string>)
    requires Symbols(table)
    ensures multiset(OperatorsOf(table, ToPostfix(table, t))) == multiset(OperatorsOf(table, t))
  {
    var st := ShuntAll(table, t);
    ShuntOperators(table, t);
    UnwindFilters(table, st.stack);
    OperatorsAppend(table, st.output, Unwind(st.stack));
  }

  /** The postfix output is as long as the kept tokens of the input. */
  lemma {:induction false} PostfixLength(table: Table, t: seq<string>)
    ensures |ToPostfix(table, t)| == |Kept(table, t)|
  {
    ShuntLength(table, t);
  }

  /** A token that is neither a number nor a registered operator changes nothing. */
  lemma {:induction false} DroppedStep(table: Table, st: Shunt, v: string)
    requires StackIn(table, st.stack) && !IsKept(table, v)
    ensures Step(table, st, v) == st
  {
  }

  /** Dropping the tokens that are neither numbers nor registered operators
      first changes nothing. */
  lemma {:induction false} ShuntKept(table: Table, t: seq<string>)
    ensures ShuntAll(table, Kept(table, t)) == ShuntAll(table, t)
    decreases |t|
  {
    if t != [] {
      var init, v := t[..|t| - 1], t[|t| - 1];
      assert t == init + [v];
      ShuntKept(table, init);
      ShuntSnoc(table, init, v);
      Snoc(table, init, v);
      if IsKept(table, v) {
        ShuntSnoc(table, Kept(table, init), v);
      } else {
        assert Kept(table, t) == Kept(table, init) + [];
        assert Kept(table, t) == Kept(table, init);
        DroppedStep(table, ShuntAll(table, init), v);
      }
    }
  }

  lemma {:induction false} PostfixKept(table: Table, t: seq<string>)
    ensures ToPostfix(table, Kept(table, t)) == ToPostfix(table, t)
  {
    ShuntKept(table, t);
  }

  /** Below its top, the operator stack holds operators of precedence 1 only. */
  predicate LowBelowTop(table: Table, s: seq<char>)
    requires StackIn(table, s)
  {
    forall k :: 0 <= k < |s| - 1 ==> Precedence(table[s[k]]) == 1
  }

  /** One step keeps the stack low below its top: an operator of precedence 3
      on top is popped by the next operator, or has one of precedence 3 pushed
      over it only when that one's precedence is above it, which cannot be. */
  lemma {:induction false} ShapeStep(table: Table, st: Shunt, v: string, r: Shunt)
    requires StackIn(table, st.stack) && LowBelowTop(table, st.stack) && r == Step(table, st, v)
    ensures LowBelowTop(table, r.stack)
  {
    if !Lexical.IsNumeric(v) && IsOperatorToken(table, v) {
      var c, n := v[0], |st.stack|;
      if n > 0 && Precedence(table[c]) <= Precedence(table[st.stack[n - 1]]) {
        assert r.stack == st.stack[..n - 1] + [c];
      } else if n > 0 {
        assert r.stack == st.stack + [c];
        assert Precedence(table[st.stack[n - 1]]) == 1;
      }
    }
  }

  /** Each operator below the top of the stack has precedence 1: an operator of
      precedence 3 is either popped by the next operator or pushed on top of it. */
  lemma {:induction false} ShuntStackShape(table: Table, t: seq<string>)
    ensures LowBelowTop(table, ShuntAll(table, t).stack)
    decreases |t|
  {
    if t != [] {
      var init, v := t[..|t| - 1], t[|t| - 1];
      assert t == init + [v];
      ShuntStackShape(table, init);
      ShuntSnoc(table, init, v);
      ShapeStep(table, ShuntAll(table, init), v, ShuntAll(table, t));
    }
  }

  // ---------------------------------------------------------------------------
  // the stack machine

  /** `array_pop`, where popping an empty stack gives `null`, which arithmetic reads as 0. */
  function PopOrZero(stack: seq<real>): (real, seq<real>)
  {
    if stack == [] then (0.0, []) else (stack[|stack| - 1], stack[..|stack| - 1])
  }

  /** One turn of `calcPostfix`: a number is pushed; otherwise the first pop is
      the right operand, the second the left, and the result is pushed. */
  function EvalStep(table: Table, stack: seq<real>, v: string): Result<seq<real>>
  {
    if Lexical.IsNumeric(v) then Ok(stack + [Lexical.NumericValue(v)])
    else
      var (a, s1) := PopOrZero(stack);
      var (b, s2) := PopOrZero(s1);
      if |v| == 1 && v[0] in table then
        match Apply(table[v[0]], b, a)
        case Err(e) => Err(e)
        case Ok(x) => Ok(s2 + [x])
      else Err(InvalidOperator(v))
  }

  /** The value stack after the tokens `ps`, or the first error. */
  function EvalAll(table: Table, ps: seq<string>): Result<seq<real>>
  {
    if ps == [] then Ok([])
    else
      match EvalAll(table, ps[..|ps| - 1])
      case Err(e) => Err(e)
      case Ok(stack) => EvalStep(table, stack, ps[|ps| - 1])
  }

  /** `calcPostfix`: the one value left on the stack; any other count is an invalid expression. */
  function EvalPostfix(table: Table, ps: seq<string>): Result<real>
  {
    match EvalAll(table, ps)
    case Err(e) => Err(e)
    case Ok(stack) => if |stack| != 1 then Err(InvalidExpression) else Ok(stack[0])
  }

  /** The operands of an operator: the value pushed last is the right one, and a
      missing operand reads as 0. */
  lemma {:induction false} OperandOrder(table: Table, s: seq<real>, l: real, r: real, c: char)
    requires c in table && !Lexical.IsNumeric([c])
    ensures EvalStep(table, s + [l, r], [c]) ==
            match Apply(table[c], l, r) case Err(e) => Err(e) case Ok(x) => Ok(s + [x])
    ensures EvalStep(table, [r], [c]) ==
            match Apply(table[c], 0.0, r) case Err(e) => Err(e) case Ok(x) => Ok([x])
    ensures EvalStep(table, [], [c]) ==
            match Apply(table[c], 0.0, 0.0) case Err(e) => Err(e) case Ok(x) => Ok([x])
  {
    assert (s + [l, r])[..|s| + 1] == s + [l];
    assert (s + [l])[..|s|] == s;
    var e: seq<real> := [];
    assert PopOrZero([r]) == (r, e);
    assert PopOrZero(e) == (0.0, e);
    forall x: real
      ensures e + [x] == [x]
    {
    }
  }

  /** An error stops the machine: whatever follows, it is the result. */
  lemma {:induction false} EvalAllError(table: Table, ps: seq<string>, rest: seq<string>)
    requires EvalAll(table, ps).Err?
    ensures EvalAll(table, ps + rest) == EvalAll(table, ps)
    decreases |rest|
  {
    if rest != [] {
      var r' := rest[..|rest| - 1];
      assert (ps + rest)[..|ps + rest| - 1] == ps + r';
      EvalAllError(table, ps, r');
    } else {
      assert ps + rest == ps;
    }
  }

  /** Every token is a number or a registered operator. */
  predicate AllKept(table: Table, ps: seq<string>)
  {
    forall k :: 0 <= k < |ps| ==> IsKept(table, ps[k])
  }

  lemma {:induction false} AllKeptSnoc(table: Table, ps: seq<string>, v: string)
    requires AllKept(table, ps) && IsKept(table, v)
    ensures AllKept(table, ps + [v])
  {
    assert forall k :: 0 <= k < |ps| ==> (ps + [v])[k] == ps[k];
  }

  /** The conversion writes only numbers and registered operators. */
  lemma {:induction false} ShuntAllKept(table: Table, t: seq<string>)
    ensures AllKept(table, ShuntAll(table, t).output)
    decreases |t|
  {
    if t != [] {
      var init, v := t[..|t| - 1], t[|t| - 1];
      assert t == init + [v];
      ShuntAllKept(table, init);
      ShuntSnoc(table, init, v);
      var st := ShuntAll(table, init);
      if Lexical.IsNumeric(v) {
        AllKeptSnoc(table, st.output, v);
      } else if IsOperatorToken(table, v) && |st.stack| > 0 {
        AllKeptSnoc(table, st.output, [st.stack[|st.stack| - 1]]);
      }
    }
  }

  /** The unwound stack holds registered operators only. */
  lemma {:induction false} UnwindKept(table: Table, stack: seq<char>)
    requires StackIn(table, stack)
    ensures AllKept(table, Unwind(stack))
    decreases |stack|
  {
    if stack != [] {
      var rest := Unwind(stack[..|stack| - 1]);
      UnwindKept(table, stack[..|stack| - 1]);
      var r := [[stack[|stack| - 1]]] + rest;
      forall k | 0 <= k < |r|
        ensures IsKept(table, r[k])
      {
        if k > 0 {
          assert r[k] == rest[k - 1];
        }
      }
    }
  }

  /** Two lists of numbers and registered operators, one after the other. */
  lemma {:induction false} AllKeptAppend(table: Table, a: seq<string>, b: seq<string>)
    requires AllKept(table, a) && AllKept(table, b)
    ensures AllKept(table, a + b)
  {
    forall k | 0 <= k < |a + b|
      ensures IsKept(table, (a + b)[k])
    {
      if k >= |a| {
        assert (a + b)[k] == b[k - |a|];
      } else {
        assert (a + b)[k] == a[k];
      }
    }
  }

  /** The postfix output holds only numbers and registered operators. */
  lemma {:induction false} PostfixAllKept(table: Table, t: seq<string>)
    ensures AllKept(table, ToPostfix(table, t))
  {
    var st := ShuntAll(table, t);
    assert ToPostfix(table, t) == st.output + Unwind(st.stack);
    ShuntAllKept(table, t);
    UnwindKept(table, st.stack);
    AllKeptAppend(table, st.output, Unwind(st.stack));
  }

  /** On numbers and registered operators the machine stops only at a division
      or a modulus by zero: the invalid-operator branch is never taken. */
  lemma {:induction false} EvalAllKept(table: Table, ps: seq<string>)
    requires AllKept(table, ps)
    ensures EvalAll(table, ps).Err? ==> EvalAll(table, ps).error == DivisionByZero || EvalAll(table, ps).error == ModuloByZero
    decreases |ps|
  {
    if ps != [] {
      var init := ps[..|ps| - 1];
      assert AllKept(table, init) by {
        assert forall k :: 0 <= k < |init| ==> init[k] == ps[k];
      }
      EvalAllKept(table, init);
    }
  }

  /** Evaluating the output of the conversion fails only with an invalid
      expression (a stack not of one value) or a division or modulus by zero. */
  lemma {:induction false} PostfixErrors(table: Table, t: seq<string>)
    ensures var r := EvalPostfix(table, ToPostfix(table, t));
            r.Err? ==> r.error == InvalidExpression || r.error == DivisionByZero || r.error == ModuloByZero
  {
    PostfixAllKept(table, t);
    EvalAllKept(table, ToPostfix(table, t));
  }

  // ---------------------------------------------------------------------------
  // stack depth

  /** The height of the value stack after `ps` when every operator finds two
      values to pop; `None` if one does not, or a token is neither kind. */
  function Depth(table: Table, ps: seq<string>): Option<nat>
  {
    if ps == [] then Some(0)
    else
      match Depth(table, ps[..|ps| - 1])
      case None => None
      case Some(d) => DepthAfter(table, d, ps[|ps| - 1])
  }

  /** The count of values after token `v`, from `d` values: a number adds one,
      an operator finding two takes two and leaves one. */
  function DepthAfter(table: Table, d: nat, v: string): Option<nat>
  {
    if Lexical.IsNumeric(v) then Some(d + 1)
    else if IsOperatorToken(table, v) && d >= 2 then Some(d - 1)
    else None
  }

  /** The count after one more token. */
  lemma {:induction false} DepthSnoc(table: Table, ps: seq<string>, v: string)
    ensures Depth(table, ps).None? ==> Depth(table, ps + [v]).None?
    ensures Depth(table, ps).Some? ==> Depth(table, ps + [v]) == DepthAfter(table, Depth(table, ps).value, v)
  {
    var u := ps + [v];
    assert u[..|u| - 1] == ps && u[|u| - 1] == v;
  }

  /** With enough values for every operator the machine runs to the end with
      `d` values, unless a division or a modulus by zero stops it. */
  lemma {:induction false} DepthEval(table: Table, ps: seq<string>, d: nat)
    requires Depth(table, ps) == Some(d)
    ensures EvalAll(table, ps) == Err(DivisionByZero) || EvalAll(table, ps) == Err(ModuloByZero) ||
            (EvalAll(table, ps).Ok? && |EvalAll(table, ps).value| == d)
    decreases |ps|
  {
    if ps != [] {
      var init, v := ps[..|ps| - 1], ps[|ps| - 1];
      var e := Depth(table, init).value;
      DepthEval(table, init, e);
    }
  }

  /** The token expected at position `k`: a number at even positions, an
      operator at odd ones. */
  predicate Fits(table: Table, k: nat, v: string)
  {
    if k % 2 == 0 then Lexical.IsNumeric(v) else IsOperatorOnly(table, v)
  }

  /** A token list alternating numbers and registered operators, from a number on. */
  predicate AlternatingPrefix(table: Table, t: seq<string>)
  {
    t == [] || (AlternatingPrefix(table, t[..|t| - 1]) && Fits(table, |t| - 1, t[|t| - 1]))
  }

  /** Alternation is a property of each position. */
  lemma {:induction false} AlternatingPrefixEach(table: Table, t: seq<string>)
    ensures AlternatingPrefix(table, t) <==> forall k :: 0 <= k < |t| ==> Fits(table, k, t[k])
    decreases |t|
  {
    if t != [] {
      var init := t[..|t| - 1];
      AlternatingPrefixEach(table, init);
      if AlternatingPrefix(table, t) {
        forall k | 0 <= k < |t|
          ensures Fits(table, k, t[k])
        {
          if k < |init| {
            assert init[k] == t[k];
            assert Fits(table, k, init[k]);
          } else {
            assert k == |t| - 1;
          }
        }
      }
      if forall k :: 0 <= k < |t| ==> Fits(table, k, t[k]) {
        forall k | 0 <= k < |init|
          ensures Fits(table, k, init[k])
        {
          assert init[k] == t[k];
        }
      }
    }
  }

  /** `num (op num)*`. */
  predicate Alternating(table: Table, t: seq<string>)
  {
    |t| % 2 == 1 && AlternatingPrefix(table, t)
  }

  /** A number after `ps` adds one value. */
  lemma {:induction false} DepthNumber(table: Table, ps: seq<string>, v: string, d: nat)
    requires Lexical.IsNumeric(v) && Depth(table, ps) == Some(d)
    ensures Depth(table, ps + [v]) == Some(d + 1)
  {
    DepthSnoc(table, ps, v);
  }

  /** An operator symbol after `ps` takes two values and leaves one. */
  lemma {:induction false} DepthOperator(table: Table, ps: seq<string>, c: char, d: nat)
    requires Symbols(table) && c in table && Depth(table, ps) == Some(d) && d >= 2
    ensures Depth(table, ps + [[c]]) == Some(d - 1)
  {
    SymbolToken(table, c);
    assert DepthAfter(table, d, [c]) == Some(d - 1);
    DepthSnoc(table, ps, [c]);
  }

  /** One step of the conversion on alternating tokens: after a number (`p == 0`)
      the output leaves one value more than the stack holds operators; after an
      operator (`p == 1`) as many, and the stack is not empty. */
  lemma {:induction false} DepthStep(table: Table, st: Shunt, v: string, p: nat, q: nat, r: Shunt)
    requires Symbols(table) && StackIn(table, st.stack) && r == Step(table, st, v) && p < 2 && q == 1 - p
    requires Depth(table, st.output) == Some(|st.stack| + p)
    requires p == 0 ==> Lexical.IsNumeric(v)
    requires p == 1 ==> IsOperatorOnly(table, v)
    ensures Depth(table, r.output) == Some(|r.stack| + q)
    ensures q == 0 ==> |r.stack| > 0
  {
    if p == 0 {
      NumberStepDepth(table, st, v, r);
    } else {
      OperatorStepDepth(table, st, v, r);
    }
  }

  /** A number goes to the output and adds one value. */
  lemma {:induction false} NumberStepDepth(table: Table, st: Shunt, v: string, r: Shunt)
    requires StackIn(table, st.stack) && r == Step(table, st, v) && Lexical.IsNumeric(v)
    requires Depth(table, st.output) == Some(|st.stack|)
    ensures Depth(table, r.output) == Some(|r.stack| + 1)
  {
    assert r == Shunt(st.output + [v], st.stack);
    DepthNumber(table, st.output, v, |st.stack|);
  }

  /** An operator either moves the top of the stack to the output and takes its
      place, or is pushed: either way the output leaves as many values as the
      stack then holds operators. */
  lemma {:induction false} OperatorStepDepth(table: Table, st: Shunt, v: string, r: Shunt)
    requires Symbols(table) && StackIn(table, st.stack) && r == Step(table, st, v) && IsOperatorOnly(table, v)
    requires Depth(table, st.output) == Some(|st.stack| + 1)
    ensures Depth(table, r.output) == Some(|r.stack|) && |r.stack| > 0
  {
    var n := |st.stack|;
    var c := v[0];
    if n > 0 && Precedence(table[c]) <= Precedence(table[st.stack[n - 1]]) {
      var top := st.stack[n - 1];
      assert r.output == st.output + [[top]] && |r.stack| == n;
      DepthOperator(table, st.output, top, n + 1);
    } else {
      assert r.output == st.output && |r.stack| == n + 1;
    }
  }

  lemma {:induction false} Parity(m: nat, n: nat)
    requires n == m + 1
    ensures n % 2 == 1 - m % 2
  {
  }

  /** The last of alternating tokens fits its position, the rest alternate. */
  lemma {:induction false} FitsLast(table: Table, t: seq<string>, init: seq<string>, v: string, p: nat)
    requires AlternatingPrefix(table, t) && t != []
    requires init == t[..|t| - 1] && v == t[|t| - 1] && p == |init| % 2
    ensures AlternatingPrefix(table, init)
    ensures p == 0 ==> Lexical.IsNumeric(v)
    ensures p == 1 ==> IsOperatorOnly(table, v)
  {
    assert Fits(table, |init|, v);
  }

  /** Converting alternating tokens, the output so far leaves one value more
      than the stack holds operators after a number, and as many after an operator. */
  lemma {:induction false} ShuntDepth(table: Table, t: seq<string>, st: Shunt, q: nat)
    requires Symbols(table) && AlternatingPrefix(table, t)
    requires st == ShuntAll(table, t) && q == |t| % 2
    ensures Depth(table, st.output) == Some(|st.stack| + q)
    ensures q == 0 && |t| > 0 ==> |st.stack| > 0
    decreases |t|
  {
    if t != [] {
      var init, v := t[..|t| - 1], t[|t| - 1];
      var p := |init| % 2;
      FitsLast(table, t, init, v, p);
      var prev := ShuntAll(table, init);
      assert st == Step(table, prev, v);
      ShuntDepth(table, init, prev, p);
      Parity(|init|, |t|);
      DepthStep(table, prev, v, p, q, st);
    } else {
      assert st == Shunt([], []);
      assert Depth(table, []) == Some(0);
    }
  }

  /** Unwinding a stack puts its top first. */
  lemma {:induction false} UnwindSplit(ps: seq<string>, stack: seq<char>, top: char, below: seq<char>)
    requires stack != [] && top == stack[|stack| - 1] && below == stack[..|stack| - 1]
    ensures ps + Unwind(stack) == (ps + [[top]]) + Unwind(below)
  {
    assert Unwind(stack) == [[top]] + Unwind(below);
  }

  /** Emptying the stack onto an output that leaves one value more than the
      stack holds operators leaves exactly one value. */
  lemma {:induction false} DepthUnwind(table: Table, ps: seq<string>, stack: seq<char>)
    requires Symbols(table) && StackIn(table, stack)
    requires Depth(table, ps) == Some(|stack| + 1)
    ensures Depth(table, ps + Unwind(stack)) == Some(1)
    decreases |stack|
  {
    if stack != [] {
      var n := |stack|;
      var top, below := stack[n - 1], stack[..n - 1];
      DepthOperator(table, ps, top, n + 1);
      UnwindSplit(ps, stack, top, below);
      DepthUnwind(table, ps + [[top]], below);
    } else {
      assert ps + Unwind(stack) == ps;
    }
  }

  /** For alternating tokens every operator of the postfix output finds two
      values, and one value is left. */
  lemma {:induction false} AlternatingDepth(table: Table, t: seq<string>)
    requires Symbols(table) && Alternating(table, t)
    ensures Depth(table, ToPostfix(table, t)) == Some(1)
  {
    var st := ShuntAll(table, t);
    ShuntDepth(table, t, st, 1);
    PostfixDepth(table, t, st);
  }

  /** An output leaving one value more than the stack holds operators gives
      postfix text leaving one value. */
  lemma {:induction false} PostfixDepth(table: Table, t: seq<string>, st: Shunt)
    requires Symbols(table) && st == ShuntAll(table, t)
    requires Depth(table, st.output) == Some(|st.stack| + 1)
    ensures Depth(table, ToPostfix(table, t)) == Some(1)
  {
    DepthUnwind(table, st.output, st.stack);
  }

  /** Converting and evaluating alternating tokens gives a value, or a division
      or modulus by zero: never an invalid expression or operator. */
  lemma {:induction false} AlternatingEvaluates(table: Table, t: seq<string>)
    requires Symbols(table) && Alternating(table, t)
    ensures var r := EvalPostfix(table, ToPostfix(table, t));
            r.Ok? || r == Err(DivisionByZero) || r == Err(ModuloByZero)
  {
    AlternatingDepth(table, t);
    DepthEval(table, ToPostfix(table, t), 1);
  }
}
