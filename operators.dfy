/** The operator kinds of the calculator: their precedences, their binary
    `solve`, and the class names under which they are registered. */
module Operators {
  import opened Wrappers

  /** The five operator classes; a closed set in place of a class looked up by name. */
  datatype OpKind = Add | Sub | Mul | Div | Mod

  /** The exceptions the calculator throws, by message. */
  datatype Error =
    | InvalidExpression
    | DivisionByZero
    | ModuloByZero
    | InvalidOperator(symbol: string)
    | InvalidClass(name: string)

  datatype Result<T> = Ok(value: T) | Err(error: Error)

  datatype Outcome = Pass | Fail(error: Error)

  /** The `$precedence` field of each operator class. */
  function Precedence(k: OpKind): nat
  {
    match k
    case Add => 1
    case Sub => 1
    case Mul => 3
    case Div => 3
    case Mod => 3
  }

  function Abs(n: int): nat
  {
    if n < 0 then -n else n
  }

  /** PHP's conversion of a number to an integer: truncation toward zero. */
  function TruncToInt(x: real): (n: int)
    ensures (n as real) <= x < (n as real) + 1.0 || (n as real) - 1.0 < x <= (n as real)
    ensures 0.0 <= x ==> 0 <= n && (n as real) <= x
    ensures x <= 0.0 ==> n <= 0 && x <= (n as real)
  {
    if x >= 0.0 then x.Floor else -((-x).Floor)
  }

  /** PHP's integer `%`: the remainder takes the sign of the dividend. */
  function IntRemainder(a: int, b: int): (r: int)
    requires b != 0
  {
    if a >= 0 then a % Abs(b) else -((-a) % Abs(b))
  }

  /** The quotient of division truncated toward zero, by a magnitude. */
  function TruncQuotient(a: int, m: nat): int
    requires m != 0
  {
    if a >= 0 then a / m else -((-a) / m)
  }

  /** `%` leaves the remainder of truncating division: `a == q * |b| + r`, with
      `r` smaller than `b` in magnitude and never of the opposite sign to `a`. */
  lemma {:induction false} IntRemainderIsTruncatedDivision(a: int, b: int)
    requires b != 0
    ensures var r := IntRemainder(a, b);
            Abs(r) < Abs(b) && (a >= 0 ==> r >= 0) && (a < 0 ==> r <= 0) &&
            a == TruncQuotient(a, Abs(b)) * Abs(b) + r
  {
    var m := Abs(b);
    if a < 0 {
      var p := -a;
      var q := p / m;
      assert p == q * m + p % m;
      assert (-q) * m == -(q * m);
    }
  }

  /** The `solve($a, $b)` of each operator class, `$a` being the left operand. */
  function Apply(k: OpKind, a: real, b: real): (r: Result<real>)
    ensures r.Err? <==> (k == Div && b == 0.0) || (k == Mod && TruncToInt(b) == 0)
    ensures r.Err? ==> r.error == (if k == Div then DivisionByZero else ModuloByZero)
  {
    match k
    case Add => Ok(a + b)
    case Sub => Ok(a - b)
    case Mul => Ok(a * b)
    case Div => if b == 0.0 then Err(DivisionByZero) else Ok(a / b)
    case Mod =>
      var d := TruncToInt(b);
      if d == 0 then Err(ModuloByZero) else Ok(IntRemainder(TruncToInt(a), d) as real)
  }

  /** Subtraction undoes addition, and division undoes multiplication by a non-zero value. */
  lemma {:induction false} ApplyInverses(a: real, b: real)
    ensures Apply(Add, a, b).Ok? && Apply(Sub, Apply(Add, a, b).value, b) == Ok(a)
    ensures b != 0.0 ==> Apply(Mul, a, b).Ok? && Apply(Div, Apply(Mul, a, b).value, b) == Ok(a)
  {
    if b != 0.0 {
      MulDivCancel(a, b);
      assert Apply(Mul, a, b) == Ok(a * b);
      assert Apply(Div, a * b, b) == Ok((a * b) / b);
    }
  }

  lemma {:induction false} MulDivCancel(a: real, b: real)
    requires b != 0.0
    ensures (a * b) / b == a
  {
    var p := a * b;
    var q := p / b;
    assert q * b == p;
    assert (q - a) * b == 0.0;
  }

  /** A successful division returns the quotient: multiplied back by the divisor it gives the dividend. */
  lemma {:induction false} DivisionQuotient(a: real, b: real)
    requires Apply(Div, a, b).Ok?
    ensures Apply(Div, a, b).value * b == a
  {
  }

  /** The modulus of two values is the PHP remainder of their truncations. */
  lemma {:induction false} ModulusOfTruncations(a: real, b: real)
    requires Apply(Mod, a, b).Ok?
    ensures var r := Apply(Mod, a, b).value;
            r == r.Floor as real &&
            Abs(r.Floor) < Abs(TruncToInt(b)) &&
            (a >= 0.0 ==> r >= 0.0) && (a <= 0.0 ==> r <= 0.0)
  {
    IntRemainderIsTruncatedDivision(TruncToInt(a), TruncToInt(b));
  }

  /** ASCII lower-casing of one character, as PHP applies to class names. */
  function LowerChar(c: char): char
  {
    if 'A' <= c <= 'Z' then (c as int + 32) as char else c
  }

  /** Two class names are the same name for PHP: equal up to ASCII case. */
  predicate SameName(a: string, b: string)
  {
    |a| == |b| && forall i :: 0 <= i < |a| ==> LowerChar(a[i]) == LowerChar(b[i])
  }

  /** The class declared for each kind. */
  function ClassName(k: OpKind): string
  {
    match k
    case Add => "AdditionOperator"
    case Sub => "SubtractionOperator"
    case Mul => "MultiplicationOperator"
    case Div => "DivisionOperator"
    case Mod => "ModulusOperator"
  }

  /** The name PHP's class lookup compares: one leading `\` (the global
      namespace) is dropped first. */
  function Unqualified(name: string): string
  {
    if |name| > 0 && name[0] == '\\' then name[1..] else name
  }

  /** `class_exists($class)` restricted to the operator classes: one leading
      `\` is dropped, then class names are compared without regard to ASCII case. */
  function ClassKind(name: string): Option<OpKind>
  {
    var n := Unqualified(name);
    if SameName(n, ClassName(Add)) then Some(Add)
    else if SameName(n, ClassName(Sub)) then Some(Sub)
    else if SameName(n, ClassName(Mul)) then Some(Mul)
    else if SameName(n, ClassName(Div)) then Some(Div)
    else if SameName(n, ClassName(Mod)) then Some(Mod)
    else None
  }

  /** The class names of two different kinds are different names. */
  lemma {:induction false} ClassNamesDistinct(j: OpKind, k: OpKind)
    requires j != k
    ensures !SameName(ClassName(j), ClassName(k))
  {
    var a, b := ClassName(j), ClassName(k);
    if |a| == |b| {
      // Only AdditionOperator and DivisionOperator share a length; they differ at the start.
      assert LowerChar(a[0]) != LowerChar(b[0]);
    }
  }

  /** A name selects kind `k` exactly when, without one leading `\`, it spells
      `k`'s class name in some ASCII case. */
  lemma {:induction false} ClassKindComplete(name: string, k: OpKind)
    ensures ClassKind(name) == Some(k) <==> SameName(Unqualified(name), ClassName(k))
  {
    var n := Unqualified(name);
    if SameName(n, ClassName(k)) {
      forall j | j != k
        ensures !SameName(n, ClassName(j))
      {
        ClassNamesDistinct(j, k);
      }
    }
  }

  /** The fully qualified spelling `\Name` finds the same class as `Name`. */
  lemma {:induction false} ClassKindQualified(name: string)
    requires name == [] || name[0] != '\\'
    ensures ClassKind("\\" + name) == ClassKind(name)
  {
    var q := "\\" + name;
    assert q[0] == '\\' && q[1..] == name;
  }

  /** Only one leading `\` is dropped: with two, no operator class is found. */
  lemma {:induction false} ClassKindOneQualifier(name: string)
    ensures ClassKind("\\\\" + name) == None
  {
    var q := "\\\\" + name;
    assert q[0] == '\\' && q[1..] == "\\" + name;
    forall k: OpKind
      ensures !SameName(q[1..], ClassName(k))
    {
      assert LowerChar(q[1..][0]) == '\\';
      assert ClassName(k)[0] != '\\' && LowerChar(ClassName(k)[0]) != '\\';
    }
  }
}
