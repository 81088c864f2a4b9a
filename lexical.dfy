/** Character classes, PHP's `trim`, the whole-expression grammar, the
    operator split and PHP's numeric strings, as `Calculator::solve` uses them. */
module Lexical {
  import opened Wrappers

  /** PCRE's `\s`, which is also the whitespace PHP allows around a numeric
      string: space, tab, line feed, vertical tab, form feed, carriage return. */
  predicate IsSpace(c: char)
  {
    c == ' ' || '\t' <= c <= '\r'
  }

  /** The characters PHP's `trim` strips: space, tab, line feed, carriage return,
      NUL and vertical tab. Form feed is not among them. */
  predicate IsTrimChar(c: char)
  {
    c == ' ' || c == '\0' || ('\t' <= c <= '\r' && c as int != 12)
  }

  /** PCRE's `\d` without the `u` flag. */
  predicate IsDigit(c: char)
  {
    '0' <= c <= '9'
  }

  /** The characters this model admits as operator symbols: one ASCII byte that
      is not a digit, not `.`, not PCRE whitespace and not NUL. */
  predicate IsSymbol(c: char)
  {
    c as int < 128 && !IsDigit(c) && c != '.' && !IsSpace(c) && c != '\0'
  }

  // ---------------------------------------------------------------------------
  // trim

  /** Strips the leading characters `trim` removes. */
  function TrimLeft(s: string): (r: string)
    ensures |r| <= |s| && r == s[|s| - |r|..]
    ensures forall k :: 0 <= k < |s| - |r| ==> IsTrimChar(s[k])
    ensures r == [] || !IsTrimChar(r[0])
  {
    if s != [] && IsTrimChar(s[0]) then TrimLeft(s[1..]) else s
  }

  /** Strips the trailing characters `trim` removes. */
  function TrimRight(s: string): (r: string)
    ensures |r| <= |s| && r == s[..|r|]
    ensures forall k :: |r| <= k < |s| ==> IsTrimChar(s[k])
    ensures r == [] || !IsTrimChar(r[|r| - 1])
  {
    if s != [] && IsTrimChar(s[|s| - 1]) then TrimRight(s[..|s| - 1]) else s
  }

  /** `r` is `s` from position `i` on with only strippable characters cut off either side. */
  predicate CutFrom(s: string, r: string, i: nat)
  {
    i + |r| <= |s| && r == s[i..i + |r|] &&
    (forall k :: 0 <= k < i ==> IsTrimChar(s[k])) &&
    (forall k :: i + |r| <= k < |s| ==> IsTrimChar(s[k]))
  }

  /** PHP's `trim`: the largest infix of `s` that neither starts nor ends with a
      character `trim` removes, all that is cut off on either side being such
      characters. */
  function Trim(s: string): (r: string)
    ensures |r| <= |s|
    ensures exists i :: 0 <= i <= |s| - |r| && CutFrom(s, r, i)
    ensures r == [] || (!IsTrimChar(r[0]) && !IsTrimChar(r[|r| - 1]))
  {
    var l := TrimLeft(s);
    var r := TrimRight(l);
    var i := |s| - |l|;
    assert r == s[i..i + |r|];
    assert r != [] ==> r[0] == l[0];
    assert CutFrom(s, r, i);
    r
  }

  /** A string with no strippable character at either end is its own trim. */
  lemma {:induction false} TrimOfTrimmed(s: string)
    requires s == [] || (!IsTrimChar(s[0]) && !IsTrimChar(s[|s| - 1]))
    ensures Trim(s) == s
  {
  }

  /** Trimming twice is trimming once (the second `trim` of line 137 changes nothing). */
  lemma {:induction false} TrimIdempotent(s: string)
    ensures Trim(Trim(s)) == Trim(s)
  {
    TrimOfTrimmed(Trim(s));
  }

  /** `array_map('trim', ...)`. */
  function TrimAll(ps: seq<string>): (r: seq<string>)
    ensures |r| == |ps|
  {
    if ps == [] then [] else [Trim(ps[0])] + TrimAll(ps[1..])
  }

  lemma {:induction false} TrimAllAt(ps: seq<string>, i: nat)
    requires i < |ps|
    ensures TrimAll(ps)[i] == Trim(ps[i])
  {
    if i > 0 {
      TrimAllAt(ps[1..], i - 1);
    }
  }

  lemma {:induction false} TrimAllAppend(a: seq<string>, b: seq<string>)
    ensures TrimAll(a + b) == TrimAll(a) + TrimAll(b)
  {
    if a != [] {
      assert (a + b)[1..] == a[1..] + b;
      TrimAllAppend(a[1..], b);
    } else {
      assert a + b == b;
    }
  }

  // ---------------------------------------------------------------------------
  // slices

  lemma {:induction false} DropConcat(x: string, y: string)
    ensures (x + y)[|x|..] == y && (x + y)[..|x|] == x
  {
  }

  lemma {:induction false} SliceOfSlice(s: string, i: nat, j: nat)
    requires i <= j <= |s|
    ensures s[i..][j - i..] == s[j..] && s[i..][..j - i] == s[i..j]
  {
  }

  lemma {:induction false} JoinAt(s: string, i: nat, j: nat)
    requires i <= j <= |s|
    ensures s[i..j] + s[j..] == s[i..]
  {
  }

  lemma {:induction false} ConsAt(s: string, i: nat)
    requires i < |s|
    ensures [s[i]] + s[i + 1..] == s[i..]
  {
  }

  /** Where the two parts of `x + y`, written from `i` on, sit in `s`. */
  lemma {:induction false} ConcatAt(s: string, i: nat, x: string, y: string)
    requires i <= |s| && s[i..] == x + y
    ensures i + |x| <= |s| && s[i..i + |x|] == x && s[i + |x|..] == y
  {
    DropConcat(x, y);
    SliceOfSlice(s, i, i + |x|);
  }

  // ---------------------------------------------------------------------------
  // maximal runs

  /** The character classes whose maximal runs the recognizer and the split measure. */
  datatype CharClass = Digits | Spaces | NonOperators(ops: set<char>)

  predicate InClass(c: char, cls: CharClass)
  {
    match cls
    case Digits => IsDigit(c)
    case Spaces => IsSpace(c)
    case NonOperators(ops) => c !in ops
  }

  predicate AllIn(s: string, cls: CharClass)
  {
    forall k :: 0 <= k < |s| ==> InClass(s[k], cls)
  }

  predicate AllDigits(s: string)
  {
    AllIn(s, Digits)
  }

  predicate AllSpaces(s: string)
  {
    AllIn(s, Spaces)
  }

  /** The end of the longest run of `cls` characters of `s` that starts at `i`. */
  function SpanFrom(s: string, i: nat, cls: CharClass): (j: nat)
    requires i <= |s|
    ensures i <= j <= |s|
    decreases |s| - i
  {
    if i < |s| && InClass(s[i], cls) then SpanFrom(s, i + 1, cls) else i
  }

  /** The run SpanFrom measures is all of `cls`, and it stops at a character outside `cls` or at the end. */
  lemma {:induction false} SpanFromAll(s: string, i: nat, cls: CharClass)
    requires i <= |s|
    ensures var j := SpanFrom(s, i, cls);
            AllIn(s[i..j], cls) && (j == |s| || !InClass(s[j], cls))
    decreases |s| - i
  {
    var j := SpanFrom(s, i, cls);
    if i < |s| && InClass(s[i], cls) {
      SpanFromAll(s, i + 1, cls);
      forall k | 0 <= k < j - i
        ensures InClass(s[i..j][k], cls)
      {
        if k > 0 {
          assert s[i..j][k] == s[i + 1..j][k - 1];
        }
      }
    }
  }

  /** A run of `cls` characters that stops at one outside `cls`, or at the end, is what SpanFrom measures. */
  lemma {:induction false} RunAt(s: string, i: nat, j: nat, cls: CharClass)
    requires i <= j <= |s| && AllIn(s[i..j], cls)
    requires j == |s| || !InClass(s[j], cls)
    ensures SpanFrom(s, i, cls) == j
    decreases j - i
  {
    if i < j {
      assert s[i] == s[i..j][0];
      var r, u := s[i + 1..j], s[i..j];
      assert AllIn(r, cls) by {
        forall k | 0 <= k < |r|
          ensures InClass(r[k], cls)
        {
          assert r[k] == u[k + 1];
        }
      }
      RunAt(s, i + 1, j, cls);
    }
  }

  // ---------------------------------------------------------------------------
  // the grammar of line 137: -?\d+(\.\d+)?\s*([ops]\s*-?\d+(\.\d+)?\s*)*

  /** A decimal literal `-?\d+(\.\d+)?`; an empty `fraction` means no `.` part. */
  datatype Literal = Literal(negative: bool, whole: string, fraction: string)

  /** One repetition `[ops]\s*` literal `\s*`. */
  datatype Term = Term(op: char, before: string, operand: Literal, after: string)

  /** A whole expression: a literal, the spaces after it, and the repetitions. */
  datatype Expression = Expression(head: Literal, after: string, tail: seq<Term>)

  predicate WellFormedLiteral(l: Literal)
  {
    |l.whole| > 0 && AllDigits(l.whole) && AllDigits(l.fraction)
  }

  predicate WellFormedTerm(t: Term, ops: set<char>)
  {
    t.op in ops && AllSpaces(t.before) && WellFormedLiteral(t.operand) && AllSpaces(t.after)
  }

  predicate WellFormedTerms(ts: seq<Term>, ops: set<char>)
  {
    forall i :: 0 <= i < |ts| ==> WellFormedTerm(ts[i], ops)
  }

  predicate WellFormedExpression(e: Expression, ops: set<char>)
  {
    WellFormedLiteral(e.head) && AllSpaces(e.after) && WellFormedTerms(e.tail, ops)
  }

  /** The sign of a literal as written. */
  function SignText(negative: bool): string
  {
    if negative then "-" else ""
  }

  /** The optional `.` part of a literal, followed by `rest`. */
  function FractionThen(fraction: string, rest: string): string
  {
    if fraction == [] then rest else ['.'] + (fraction + rest)
  }

  /** The text of a literal, followed by `rest`. */
  function LiteralThen(l: Literal, rest: string): string
  {
    SignText(l.negative) + (l.whole + FractionThen(l.fraction, rest))
  }

  /** The text of one repetition, followed by `rest`. */
  function TermThen(t: Term, rest: string): string
  {
    [t.op] + (t.before + LiteralThen(t.operand, t.after + rest))
  }

  function RenderTerms(ts: seq<Term>): string
  {
    if ts == [] then [] else TermThen(ts[0], RenderTerms(ts[1..]))
  }

  /** The text of an expression: the language of the grammar is the set of these. */
  function Render(e: Expression): string
  {
    LiteralThen(e.head, e.after + RenderTerms(e.tail))
  }

  /** Reads the decimal literal that starts at position `i` of `s`, returning it and
      the position after it. A `.` not followed by a digit is left unread, as the
      regex backtracks over the optional fraction. */
  function ParseLiteralAt(s: string, i: nat): (r: Option<(Literal, nat)>)
    requires i <= |s|
    ensures r.Some? ==> i < r.value.1 <= |s|
  {
    var neg := i < |s| && s[i] == '-';
    var a := if neg then i + 1 else i;
    var b := SpanFrom(s, a, Digits);
    if b == a then None
    else
      var f := if b < |s| && s[b] == '.' then SpanFrom(s, b + 1, Digits) else b + 1;
      var n := if f > b + 1 then f else b;
      Some((Literal(neg, s[a..b], if f > b + 1 then s[b + 1..n] else []), n))
  }

  /** What ParseLiteralAt reads is a well-formed literal, written out from `i` on,
      and it stops only where no digit follows. */
  lemma {:induction false} LiteralAtSound(s: string, i: nat, l: Literal, n: nat)
    requires i <= |s| && ParseLiteralAt(s, i) == Some((l, n))
    ensures WellFormedLiteral(l) && n <= |s| && LiteralThen(l, s[n..]) == s[i..]
    ensures n == |s| || !IsDigit(s[n])
  {
    var neg := i < |s| && s[i] == '-';
    var a := if neg then i + 1 else i;
    var b := SpanFrom(s, a, Digits);
    var f := if b < |s| && s[b] == '.' then SpanFrom(s, b + 1, Digits) else b + 1;
    var n' := if f > b + 1 then f else b;
    assert ParseLiteralAt(s, i) == Some((Literal(neg, s[a..b], if f > b + 1 then s[b + 1..n'] else []), n'));
    assert l.whole == s[a..b] && l.negative == neg && n == n';
    SpanFromAll(s, a, Digits);
    FractionSound(s, b, n, l.fraction);
    SignSound(s, i, a, b, neg);
  }

  /** The optional fraction read from `b` on, up to `n`. */
  lemma {:induction false} FractionSound(s: string, b: nat, n: nat, fraction: string)
    requires b <= n <= |s| && (b == |s| || !IsDigit(s[b]))
    requires fraction == [] ==> n == b
    requires fraction != [] ==> b < |s| && s[b] == '.' && n == SpanFrom(s, b + 1, Digits) && fraction == s[b + 1..n]
    ensures AllDigits(fraction) && FractionThen(fraction, s[n..]) == s[b..]
    ensures n == |s| || !IsDigit(s[n])
  {
    if fraction != [] {
      SpanFromAll(s, b + 1, Digits);
      JoinAt(s, b + 1, n);
      ConsAt(s, b);
    }
  }

  /** The sign and the digits read from `i` on, up to `b`. */
  lemma {:induction false} SignSound(s: string, i: nat, a: nat, b: nat, neg: bool)
    requires i <= a <= b <= |s| && a == (if neg then i + 1 else i)
    requires neg ==> i < |s| && s[i] == '-'
    ensures s[i..] == SignText(neg) + (s[a..b] + s[b..])
  {
    JoinAt(s, a, b);
    if neg {
      ConsAt(s, i);
    }
  }

  /** Reads one repetition `[ops]\s*-?\d+(\.\d+)?\s*` at position `i` of `s`,
      returning it and the position after it. */
  function ParseTermAt(s: string, i: nat, ops: set<char>): (r: Option<(Term, nat)>)
    requires i <= |s|
    ensures r.Some? ==> i < r.value.1 <= |s|
  {
    if i == |s| || s[i] !in ops then None
    else
      var j := SpanFrom(s, i + 1, Spaces);
      match ParseLiteralAt(s, j)
      case None => None
      case Some((lit, n)) =>
        var k := SpanFrom(s, n, Spaces);
        Some((Term(s[i], s[i + 1..j], lit, s[n..k]), k))
  }

  /** What ParseTermAt reads is a well-formed repetition, written out from `i` on. */
  lemma {:induction false} TermAtSound(s: string, i: nat, ops: set<char>)
    requires i <= |s| && ParseTermAt(s, i, ops).Some?
    ensures var (t, k) := ParseTermAt(s, i, ops).value;
            WellFormedTerm(t, ops) && TermThen(t, s[k..]) == s[i..]
  {
    var j := SpanFrom(s, i + 1, Spaces);
    var (lit, n) := ParseLiteralAt(s, j).value;
    var k := SpanFrom(s, n, Spaces);
    assert ParseTermAt(s, i, ops) == Some((Term(s[i], s[i + 1..j], lit, s[n..k]), k));
    LiteralAtSound(s, j, lit, n);
    SpanFromAll(s, i + 1, Spaces);
    SpanFromAll(s, n, Spaces);
    JoinAt(s, n, k);
    JoinAt(s, i + 1, j);
    ConsAt(s, i);
  }

  /** Reads the repetitions `([ops]\s*-?\d+(\.\d+)?\s*)*` that make up all of `s` from `i` on. */
  function ParseTermsAt(s: string, i: nat, ops: set<char>): (r: Option<seq<Term>>)
    requires i <= |s|
    decreases |s| - i
  {
    if i == |s| then Some([])
    else
      match ParseTermAt(s, i, ops)
      case None => None
      case Some((t, k)) =>
        match ParseTermsAt(s, k, ops)
        case None => None
        case Some(ts) => Some([t] + ts)
  }

  /** What ParseTermsAt reads is well formed, and written out it is the text read. */
  lemma {:induction false} TermsAtSound(s: string, i: nat, ops: set<char>)
    requires i <= |s| && ParseTermsAt(s, i, ops).Some?
    ensures RenderTerms(ParseTermsAt(s, i, ops).value) == s[i..]
    ensures WellFormedTerms(ParseTermsAt(s, i, ops).value, ops)
    decreases |s| - i
  {
    if i < |s| {
      var (t, k) := ParseTermAt(s, i, ops).value;
      var ts := ParseTermsAt(s, k, ops).value;
      assert ParseTermsAt(s, i, ops) == Some([t] + ts);
      TermAtSound(s, i, ops);
      TermsAtSound(s, k, ops);
      assert ([t] + ts)[1..] == ts;
    }
  }

  /** The hand-coded recognizer of line 137, returning the parse it found. */
  function Parse(s: string, ops: set<char>): Option<Expression>
  {
    match ParseLiteralAt(s, 0)
    case None => None
    case Some((lit, n)) =>
      var k := SpanFrom(s, n, Spaces);
      match ParseTermsAt(s, k, ops)
      case None => None
      case Some(ts) => Some(Expression(lit, s[n..k], ts))
  }

  /** What the recognizer accepts is the text of the parse it returns, and that
      parse is well formed. */
  lemma {:induction false} ParseSound(s: string, ops: set<char>)
    requires Parse(s, ops).Some?
    ensures Render(Parse(s, ops).value) == s && WellFormedExpression(Parse(s, ops).value, ops)
  {
    var (lit, n) := ParseLiteralAt(s, 0).value;
    var k := SpanFrom(s, n, Spaces);
    var ts := ParseTermsAt(s, k, ops).value;
    assert Parse(s, ops) == Some(Expression(lit, s[n..k], ts));
    LiteralAtSound(s, 0, lit, n);
    TermsAtSound(s, k, ops);
    SpanFromAll(s, n, Spaces);
    JoinAt(s, n, k);
  }

  /** `preg_match` of line 137 succeeds on `s`. */
  predicate Matches(s: string, ops: set<char>)
  {
    Parse(s, ops).Some?
  }

  predicate SymbolSet(ops: set<char>)
  {
    forall c :: c in ops ==> IsSymbol(c)
  }

  /** What may follow a literal: nothing, or neither a digit nor a `.`. */
  predicate EndsLiteral(rest: string)
  {
    rest == [] || (!IsDigit(rest[0]) && rest[0] != '.')
  }

  /** A literal opens with its sign or its first digit. */
  lemma {:induction false} LiteralStart(l: Literal, rest: string)
    requires WellFormedLiteral(l)
    ensures LiteralThen(l, rest) != []
    ensures LiteralThen(l, rest)[0] == (if l.negative then '-' else l.whole[0])
    ensures !IsSpace(LiteralThen(l, rest)[0])
  {
  }

  /** The length of a written-out literal. */
  function LiteralLength(l: Literal): nat
  {
    |SignText(l.negative)| + |l.whole| + (if l.fraction == [] then 0 else 1 + |l.fraction|)
  }

  lemma {:induction false} LiteralThenLength(l: Literal, rest: string)
    ensures |LiteralThen(l, rest)| == LiteralLength(l) + |rest|
  {
  }

  /** Literal `l` is written in `s` from `i` to `n`, and what follows cannot continue it. */
  predicate LiteralPlaced(s: string, i: nat, l: Literal, n: nat)
  {
    var a := if l.negative then i + 1 else i;
    var b := a + |l.whole|;
    WellFormedLiteral(l) && n == i + LiteralLength(l) && n <= |s| &&
    (s[i] == '-') == l.negative && s[a..b] == l.whole &&
    (l.fraction != [] ==> s[b] == '.' && s[b + 1..n] == l.fraction) &&
    (n == |s| || (!IsDigit(s[n]) && s[n] != '.'))
  }

  /** ParseLiteralAt once the run of whole digits is known and no fraction follows. */
  lemma {:induction false} WholeAt(s: string, i: nat, l: Literal, b: nat)
    requires i < |s| && (s[i] == '-') == l.negative && l.fraction == []
    requires var a := if l.negative then i + 1 else i;
             a < b <= |s| && SpanFrom(s, a, Digits) == b && s[a..b] == l.whole
    requires b == |s| || s[b] != '.'
    ensures ParseLiteralAt(s, i) == Some((l, b))
  {
  }

  /** ParseLiteralAt once the runs of digits around the `.` are known. */
  lemma {:induction false} FractionAt(s: string, i: nat, l: Literal, b: nat, n: nat)
    requires i < |s| && (s[i] == '-') == l.negative
    requires var a := if l.negative then i + 1 else i;
             a < b < |s| && SpanFrom(s, a, Digits) == b && s[a..b] == l.whole && s[b] == '.'
    requires b + 1 < n <= |s| && SpanFrom(s, b + 1, Digits) == n && s[b + 1..n] == l.fraction
    ensures ParseLiteralAt(s, i) == Some((l, n))
  {
  }

  /** A placed literal is read back. */
  lemma {:induction false} LiteralRead(s: string, i: nat, l: Literal, n: nat)
    requires LiteralPlaced(s, i, l, n)
    ensures ParseLiteralAt(s, i) == Some((l, n))
  {
    var a := if l.negative then i + 1 else i;
    var b := a + |l.whole|;
    RunAt(s, a, b, Digits);
    if l.fraction == [] {
      WholeAt(s, i, l, b);
    } else {
      RunAt(s, b + 1, n, Digits);
      FractionAt(s, i, l, b, n);
    }
  }

  /** Where the sign of a literal written out from `i` on sits in `s`; its
      digits start at `a`. */
  lemma {:induction false} SignLayout(s: string, i: nat, a: nat, l: Literal, rest: string)
    requires i <= |s| && WellFormedLiteral(l) && s[i..] == LiteralThen(l, rest)
    requires a == (if l.negative then i + 1 else i)
    ensures i < |s| && (s[i] == '-') == l.negative && a <= |s|
    ensures s[a..] == l.whole + FractionThen(l.fraction, rest)
  {
    LiteralStart(l, rest);
    assert s[i] == s[i..][0];
    ConcatAt(s, i, SignText(l.negative), l.whole + FractionThen(l.fraction, rest));
  }

  /** Where the optional fraction written out from `b` on sits in `s`, and what
      follows it from `n` on. */
  lemma {:induction false} FractionLayout(s: string, b: nat, n: nat, fraction: string, rest: string)
    requires b <= |s| && s[b..] == FractionThen(fraction, rest) && EndsLiteral(rest)
    requires n == b + (if fraction == [] then 0 else 1 + |fraction|)
    ensures n <= |s| && (fraction != [] ==> s[b] == '.' && s[b + 1..n] == fraction)
    ensures (n == |s| || (!IsDigit(s[n]) && s[n] != '.')) && s[n..] == rest
  {
    if fraction == [] {
      assert b == |s| || s[b] == rest[0];
    } else {
      ConcatAt(s, b, ['.'], fraction + rest);
      assert s[b] == s[b..b + 1][0];
      ConcatAt(s, b + 1, fraction, rest);
      assert n == |s| || s[n] == rest[0];
    }
  }

  /** Where the parts of a literal written out from `i` to `n` sit in `s`. */
  lemma {:induction false} LiteralLayout(s: string, i: nat, n: nat, l: Literal, rest: string)
    requires i <= |s| && WellFormedLiteral(l) && EndsLiteral(rest) && s[i..] == LiteralThen(l, rest)
    requires n == i + LiteralLength(l)
    ensures LiteralPlaced(s, i, l, n) && s[n..] == rest
  {
    var a := if l.negative then i + 1 else i;
    SignLayout(s, i, a, l, rest);
    ConcatAt(s, a, l.whole, FractionThen(l.fraction, rest));
    FractionLayout(s, a + |l.whole|, n, l.fraction, rest);
  }

  /** The literal reader reads back any written-out literal, up to whatever ends it. */
  lemma {:induction false} LiteralAtOfRender(s: string, i: nat, l: Literal, rest: string)
    requires i <= |s| && WellFormedLiteral(l) && EndsLiteral(rest) && s[i..] == LiteralThen(l, rest)
    ensures ParseLiteralAt(s, i) == Some((l, i + LiteralLength(l)))
  {
    var n := i + LiteralLength(l);
    LiteralLayout(s, i, n, l, rest);
    LiteralRead(s, i, l, n);
  }

  /** A repetition always opens with its operator. */
  lemma {:induction false} RenderTermsStart(ts: seq<Term>, ops: set<char>)
    requires WellFormedTerms(ts, ops) && SymbolSet(ops)
    ensures RenderTerms(ts) == [] || (RenderTerms(ts)[0] in ops && IsSymbol(RenderTerms(ts)[0]))
  {
  }

  /** Spaces followed by a text that is empty or opens with a symbol end a literal. */
  lemma {:induction false} SpacesEndLiteral(w: string, rest: string)
    requires AllSpaces(w) && (rest == [] || IsSymbol(rest[0]))
    ensures EndsLiteral(w + rest)
  {
    if w != [] {
      assert (w + rest)[0] == w[0];
    } else {
      assert w + rest == rest;
    }
  }

  /** Spaces written from `n` on, then nothing or a symbol. */
  lemma {:induction false} SpacesLayout(s: string, n: nat, after: string, tail: string)
    requires n <= |s| && s[n..] == after + tail
    requires AllSpaces(after) && (tail == [] || IsSymbol(tail[0]))
    ensures var k := n + |after|;
            k <= |s| && s[n..k] == after && s[k..] == tail && (k == |s| || !IsSpace(s[k]))
  {
    ConcatAt(s, n, after, tail);
    var k := n + |after|;
    assert k == |s| || s[k] == tail[0];
  }

  /** The length of a written-out repetition. */
  function TermLength(t: Term): nat
  {
    1 + |t.before| + LiteralLength(t.operand) + |t.after|
  }

  /** Repetition `t` is written in `s` from `i` to `k`, and no space follows it. */
  predicate TermPlaced(s: string, i: nat, t: Term, k: nat, ops: set<char>)
  {
    var j := i + 1 + |t.before|;
    var n := j + LiteralLength(t.operand);
    k == i + TermLength(t) && k <= |s| && t.op in ops && s[i] == t.op &&
    s[i + 1..j] == t.before && AllSpaces(t.before) &&
    LiteralPlaced(s, j, t.operand, n) &&
    s[n..k] == t.after && AllSpaces(t.after) && (k == |s| || !IsSpace(s[k]))
  }

  /** ParseTermAt once the pieces of the repetition are known. */
  lemma {:induction false} TermAt(s: string, i: nat, ops: set<char>, t: Term, j: nat, n: nat, k: nat)
    requires i < |s| && s[i] == t.op && t.op in ops
    requires j == SpanFrom(s, i + 1, Spaces) && s[i + 1..j] == t.before
    requires ParseLiteralAt(s, j) == Some((t.operand, n))
    requires k == SpanFrom(s, n, Spaces) && s[n..k] == t.after
    ensures ParseTermAt(s, i, ops) == Some((t, k))
  {
  }

  /** A placed repetition is read back. */
  lemma {:induction false} TermRead(s: string, i: nat, t: Term, k: nat, ops: set<char>)
    requires TermPlaced(s, i, t, k, ops)
    ensures ParseTermAt(s, i, ops) == Some((t, k))
  {
    var j := i + 1 + |t.before|;
    var n := j + LiteralLength(t.operand);
    var a := if t.operand.negative then j + 1 else j;
    assert !IsSpace(s[j]) by {
      if !t.operand.negative {
        assert s[j] == s[a..a + |t.operand.whole|][0];
      }
    }
    RunAt(s, i + 1, j, Spaces);
    LiteralRead(s, j, t.operand, n);
    RunAt(s, n, k, Spaces);
    TermAt(s, i, ops, t, j, n, k);
  }

  /** Where the operator and the spaces before the operand of a repetition
      written out from `i` on sit in `s`; `j` is where the operand starts. */
  lemma {:induction false} TermHead(s: string, i: nat, j: nat, t: Term, tail: string)
    requires i <= |s| && s[i..] == TermThen(t, tail) && j == i + 1 + |t.before|
    ensures i < |s| && s[i] == t.op && j <= |s| && s[i + 1..j] == t.before
    ensures s[j..] == LiteralThen(t.operand, t.after + tail)
  {
    var u := LiteralThen(t.operand, t.after + tail);
    ConcatAt(s, i, [t.op], t.before + u);
    assert s[i] == s[i..i + 1][0];
    ConcatAt(s, i + 1, t.before, u);
  }

  /** Where a literal and the spaces after it sit in `s`: the literal starts
      at `j` and ends at `n`, and the spaces end at `k`. */
  lemma {:induction false} LiteralSpacesLayout(s: string, j: nat, n: nat, k: nat, l: Literal, after: string, tail: string)
    requires j <= |s| && s[j..] == LiteralThen(l, after + tail)
    requires n == j + LiteralLength(l) && k == n + |after|
    requires WellFormedLiteral(l) && AllSpaces(after) && (tail == [] || IsSymbol(tail[0]))
    ensures LiteralPlaced(s, j, l, n)
    ensures k <= |s| && s[n..k] == after && s[k..] == tail && (k == |s| || !IsSpace(s[k]))
  {
    SpacesEndLiteral(after, tail);
    LiteralLayout(s, j, n, l, after + tail);
    SpacesLayout(s, n, after, tail);
  }

  /** The parts of a repetition in place make it placed. */
  lemma {:induction false} TermAssemble(s: string, i: nat, j: nat, n: nat, k: nat, t: Term, ops: set<char>)
    requires WellFormedTerm(t, ops)
    requires j == i + 1 + |t.before| && n == j + LiteralLength(t.operand) && k == n + |t.after|
    requires i < |s| && s[i] == t.op && j <= |s| && s[i + 1..j] == t.before
    requires LiteralPlaced(s, j, t.operand, n)
    requires k <= |s| && s[n..k] == t.after && (k == |s| || !IsSpace(s[k]))
    ensures k == i + TermLength(t) && TermPlaced(s, i, t, k, ops)
  {
  }

  /** Where the parts of a repetition written out from `i` on sit in `s`. */
  lemma {:induction false} TermLayout(s: string, i: nat, k: nat, t: Term, tail: string, ops: set<char>)
    requires i <= |s| && s[i..] == TermThen(t, tail) && k == i + TermLength(t)
    requires WellFormedTerm(t, ops) && (tail == [] || IsSymbol(tail[0]))
    ensures TermPlaced(s, i, t, k, ops) && k <= |s| && s[k..] == tail
  {
    var j := i + 1 + |t.before|;
    var n := j + LiteralLength(t.operand);
    TermHead(s, i, j, t, tail);
    LiteralSpacesLayout(s, j, n, k, t.operand, t.after, tail);
    TermAssemble(s, i, j, n, k, t, ops);
  }

  /** The repetitions `ts` are written in `s` from `i` to the end. */
  predicate TermsPlaced(s: string, i: nat, ts: seq<Term>, ops: set<char>)
    decreases ts
  {
    if ts == [] then i == |s|
    else
      var k := i + TermLength(ts[0]);
      k <= |s| && TermPlaced(s, i, ts[0], k, ops) && TermsPlaced(s, k, ts[1..], ops)
  }

  lemma {:induction false} TermsTail(ts: seq<Term>, ops: set<char>)
    requires ts != [] && WellFormedTerms(ts, ops)
    ensures WellFormedTerm(ts[0], ops) && WellFormedTerms(ts[1..], ops)
  {
    forall m | 0 <= m < |ts| - 1
      ensures ts[1..][m] == ts[m + 1]
    {
    }
  }

  /** Placed repetitions start with a placed first one. */
  lemma {:induction false} TermsCons(s: string, i: nat, k: nat, ts: seq<Term>, ops: set<char>)
    requires ts != [] && k == i + TermLength(ts[0])
    requires TermPlaced(s, i, ts[0], k, ops) && k <= |s| && TermsPlaced(s, k, ts[1..], ops)
    ensures TermsPlaced(s, i, ts, ops)
  {
  }

  /** Where the repetitions written out from `i` on sit in `s`. */
  lemma {:induction false} TermsLayout(s: string, i: nat, ts: seq<Term>, ops: set<char>)
    requires i <= |s| && s[i..] == RenderTerms(ts)
    requires WellFormedTerms(ts, ops) && SymbolSet(ops)
    ensures TermsPlaced(s, i, ts, ops)
    decreases ts
  {
    if ts == [] {
      assert |s[i..]| == 0;
    } else {
      var tail := RenderTerms(ts[1..]);
      var k := i + TermLength(ts[0]);
      TermsTail(ts, ops);
      RenderTermsStart(ts[1..], ops);
      TermLayout(s, i, k, ts[0], tail, ops);
      TermsLayout(s, k, ts[1..], ops);
      TermsCons(s, i, k, ts, ops);
    }
  }

  /** ParseTermsAt once its first repetition is known. */
  lemma {:induction false} TermsAt(s: string, i: nat, ops: set<char>, t: Term, k: nat, ts: seq<Term>)
    requires i < |s| && ParseTermAt(s, i, ops) == Some((t, k)) && ParseTermsAt(s, k, ops) == Some(ts)
    ensures ParseTermsAt(s, i, ops) == Some([t] + ts)
  {
  }

  /** Placed repetitions are read back. */
  lemma {:induction false} TermsRead(s: string, i: nat, ts: seq<Term>, ops: set<char>)
    requires i <= |s| && TermsPlaced(s, i, ts, ops)
    ensures ParseTermsAt(s, i, ops) == Some(ts)
    decreases ts
  {
    if ts == [] {
      assert i == |s|;
    } else {
      var k := i + TermLength(ts[0]);
      TermsUncons(s, i, k, ts, ops);
      TermRead(s, i, ts[0], k, ops);
      TermsRead(s, k, ts[1..], ops);
      TermsAt(s, i, ops, ts[0], k, ts[1..]);
      HeadTail(ts);
    }
  }

  /** Placed repetitions are a placed first one and placed others after it. */
  lemma {:induction false} TermsUncons(s: string, i: nat, k: nat, ts: seq<Term>, ops: set<char>)
    requires ts != [] && k == i + TermLength(ts[0]) && TermsPlaced(s, i, ts, ops)
    ensures i < k <= |s| && TermPlaced(s, i, ts[0], k, ops) && TermsPlaced(s, k, ts[1..], ops)
  {
  }

  lemma {:induction false} HeadTail<T>(ts: seq<T>)
    requires ts != []
    ensures [ts[0]] + ts[1..] == ts
  {
  }

  /** Expression `e` is written out as all of `s`. */
  predicate ExpressionPlaced(s: string, e: Expression, ops: set<char>)
  {
    var n := LiteralLength(e.head);
    var k := n + |e.after|;
    LiteralPlaced(s, 0, e.head, n) && k <= |s| && s[n..k] == e.after && AllSpaces(e.after) &&
    (k == |s| || !IsSpace(s[k])) && TermsPlaced(s, k, e.tail, ops)
  }

  /** The parts of an expression in place make it placed. */
  lemma {:induction false} ExpressionAssemble(s: string, n: nat, k: nat, e: Expression, ops: set<char>)
    requires n == LiteralLength(e.head) && k == n + |e.after|
    requires LiteralPlaced(s, 0, e.head, n) && AllSpaces(e.after)
    requires k <= |s| && s[n..k] == e.after && (k == |s| || !IsSpace(s[k]))
    requires TermsPlaced(s, k, e.tail, ops)
    ensures ExpressionPlaced(s, e, ops)
  {
  }

  /** Where the parts of an expression written out as all of `s` sit. */
  lemma {:induction false} ExpressionLayoutAt(s: string, e: Expression, tail: string, ops: set<char>)
    requires s == LiteralThen(e.head, e.after + tail) && tail == RenderTerms(e.tail)
    requires WellFormedExpression(e, ops) && SymbolSet(ops)
    ensures ExpressionPlaced(s, e, ops)
  {
    var n := LiteralLength(e.head);
    var k := n + |e.after|;
    RenderTermsStart(e.tail, ops);
    assert s[0..] == s;
    LiteralSpacesLayout(s, 0, n, k, e.head, e.after, tail);
    TermsLayout(s, k, e.tail, ops);
    ExpressionAssemble(s, n, k, e, ops);
  }

  lemma {:induction false} ExpressionLayout(e: Expression, ops: set<char>)
    requires WellFormedExpression(e, ops) && SymbolSet(ops)
    ensures ExpressionPlaced(Render(e), e, ops)
  {
    ExpressionLayoutAt(Render(e), e, RenderTerms(e.tail), ops);
  }

  /** Parse once the head literal and the spaces after it are known. */
  lemma {:induction false} ParseAt(s: string, e: Expression, ops: set<char>, n: nat, k: nat)
    requires ParseLiteralAt(s, 0) == Some((e.head, n)) && k == SpanFrom(s, n, Spaces) && s[n..k] == e.after
    requires ParseTermsAt(s, k, ops) == Some(e.tail)
    ensures Parse(s, ops) == Some(e)
  {
  }

  /** A placed expression is read back. */
  lemma {:induction false} ExpressionRead(s: string, e: Expression, ops: set<char>)
    requires ExpressionPlaced(s, e, ops)
    ensures Parse(s, ops) == Some(e)
  {
    var n := LiteralLength(e.head);
    var k := n + |e.after|;
    LiteralRead(s, 0, e.head, n);
    RunAt(s, n, k, Spaces);
    TermsRead(s, k, e.tail, ops);
    ParseAt(s, e, ops, n, k);
  }

  /** Completeness of the recognizer: every text in the grammar's language is
      accepted, with the parse it was written from. */
  lemma {:induction false} ParseOfRender(e: Expression, ops: set<char>)
    requires WellFormedExpression(e, ops) && SymbolSet(ops)
    ensures Parse(Render(e), ops) == Some(e)
  {
    ExpressionLayout(e, ops);
    ExpressionRead(Render(e), e, ops);
  }

  /** The recognizer accepts exactly the texts of well-formed expressions. */
  lemma {:induction false} MatchesIffInLanguage(s: string, ops: set<char>)
    requires SymbolSet(ops)
    ensures Matches(s, ops) <==> exists e :: WellFormedExpression(e, ops) && Render(e) == s
  {
    if Matches(s, ops) {
      ParseSound(s, ops);
    }
    if e :| WellFormedExpression(e, ops) && Render(e) == s {
      ParseOfRender(e, ops);
    }
  }

  // ---------------------------------------------------------------------------
  // preg_split('~([ops])~', ..., PREG_SPLIT_NO_EMPTY | PREG_SPLIT_DELIM_CAPTURE)

  function Concat(ps: seq<string>): string
  {
    if ps == [] then [] else ps[0] + Concat(ps[1..])
  }

  lemma {:induction false} ConcatAppend(a: seq<string>, b: seq<string>)
    ensures Concat(a + b) == Concat(a) + Concat(b)
  {
    if a != [] {
      assert (a + b)[1..] == a[1..] + b;
      ConcatAppend(a[1..], b);
    } else {
      assert a + b == b;
    }
  }

  /** A captured delimiter: one operator character. */
  predicate IsOperatorPiece(p: string, ops: set<char>)
  {
    |p| == 1 && p[0] in ops
  }

  /** A stretch between delimiters: non-empty, with no operator character. */
  predicate IsRunPiece(p: string, ops: set<char>)
  {
    |p| > 0 && AllIn(p, NonOperators(ops))
  }

  predicate ArePieces(ps: seq<string>, ops: set<char>)
  {
    forall i :: 0 <= i < |ps| ==> IsOperatorPiece(ps[i], ops) || IsRunPiece(ps[i], ops)
  }

  /** No two stretches are adjacent: each one runs up to a delimiter or the end. */
  predicate RunsMaximal(ps: seq<string>, ops: set<char>)
  {
    forall i :: 0 <= i < |ps| - 1 ==> IsOperatorPiece(ps[i], ops) || IsOperatorPiece(ps[i + 1], ops)
  }

  /** The pieces of `s` from position `i` on: every operator character alone, and the
      maximal non-empty stretches between them. */
  function SplitFrom(s: string, i: nat, ops: set<char>): seq<string>
    requires i <= |s|
    decreases |s| - i
  {
    if i == |s| then []
    else if s[i] in ops then [[s[i]]] + SplitFrom(s, i + 1, ops)
    else
      var j := SpanFrom(s, i, NonOperators(ops));
      [s[i..j]] + SplitFrom(s, j, ops)
  }

  /** The pieces of line 141. */
  function Split(s: string, ops: set<char>): seq<string>
  {
    SplitFrom(s, 0, ops)
  }

  /** Adding one piece in front keeps the pieces well formed. */
  lemma {:induction false} ConsPieces(p: string, ps: seq<string>, ops: set<char>)
    requires IsOperatorPiece(p, ops) || IsRunPiece(p, ops)
    requires ArePieces(ps, ops) && RunsMaximal(ps, ops)
    requires IsOperatorPiece(p, ops) || ps == [] || IsOperatorPiece(ps[0], ops)
    ensures ArePieces([p] + ps, ops) && RunsMaximal([p] + ps, ops)
    ensures Concat([p] + ps) == p + Concat(ps)
  {
    var r := [p] + ps;
    assert r[1..] == ps;
    forall m | 1 <= m < |r|
      ensures r[m] == ps[m - 1]
    {
    }
  }

  /** The pieces the split returns glue back to the text, are delimiters or stretches,
      and no two stretches touch. */
  lemma {:induction false} SplitFromSound(s: string, i: nat, ops: set<char>)
    requires i <= |s|
    ensures var r := SplitFrom(s, i, ops);
            Concat(r) == s[i..] && ArePieces(r, ops) && RunsMaximal(r, ops) &&
            (i < |s| && s[i] in ops ==> r != [] && r[0] == [s[i]])
    decreases |s| - i
  {
    if i < |s| {
      if s[i] in ops {
        SplitFromSound(s, i + 1, ops);
        ConsPieces([s[i]], SplitFrom(s, i + 1, ops), ops);
        ConsAt(s, i);
      } else {
        var j := SpanFrom(s, i, NonOperators(ops));
        SplitFromSound(s, j, ops);
        SpanFromAll(s, i, NonOperators(ops));
        assert s[i..j][0] == s[i];
        ConsPieces(s[i..j], SplitFrom(s, j, ops), ops);
        JoinAt(s, i, j);
      }
    }
  }

  /** The split of line 141: the pieces glue back to the text, each is a delimiter or
      a stretch, and no two stretches touch. */
  lemma {:induction false} SplitSound(s: string, ops: set<char>)
    ensures Concat(Split(s, ops)) == s
    ensures ArePieces(Split(s, ops), ops) && RunsMaximal(Split(s, ops), ops)
  {
    SplitFromSound(s, 0, ops);
    assert s[0..] == s;
  }

  /** The tail of well-formed pieces is well formed. */
  lemma {:induction false} PiecesTail(ps: seq<string>, ops: set<char>)
    requires ps != [] && ArePieces(ps, ops) && RunsMaximal(ps, ops)
    ensures ArePieces(ps[1..], ops) && RunsMaximal(ps[1..], ops)
  {
    forall m | 0 <= m < |ps| - 1
      ensures ps[1..][m] == ps[m + 1]
    {
    }
  }

  /** Where a non-empty piece written out from `i` on sits in `s`; it ends at `j`. */
  lemma {:induction false} PieceLayout(s: string, i: nat, j: nat, p: string, rest: string)
    requires i <= |s| && s[i..] == p + rest && p != [] && j == i + |p|
    ensures i < j <= |s| && s[i..j] == p && s[j..] == rest && s[i] == p[0]
    ensures j == |s| || s[j] == rest[0]
  {
    ConcatAt(s, i, p, rest);
    assert s[i] == s[i..j][0];
  }

  /** A stretch is followed by nothing or by a delimiter. */
  lemma {:induction false} AfterRun(ps: seq<string>, ops: set<char>)
    requires ps != [] && ArePieces(ps, ops) && RunsMaximal(ps, ops) && !IsOperatorPiece(ps[0], ops)
    ensures Concat(ps[1..]) == [] || Concat(ps[1..])[0] in ops
  {
    if |ps| > 1 {
      assert IsOperatorPiece(ps[1], ops);
      assert ps[1..][0] == ps[1];
    }
  }

  /** The split at a stretch of non-operators that runs from `i` to `j`. */
  lemma {:induction false} SplitRunStep(s: string, i: nat, j: nat, ops: set<char>)
    requires i < j <= |s| && AllIn(s[i..j], NonOperators(ops)) && (j == |s| || s[j] in ops)
    ensures SplitFrom(s, i, ops) == [s[i..j]] + SplitFrom(s, j, ops)
  {
    assert s[i] == s[i..j][0];
    RunAt(s, i, j, NonOperators(ops));
  }

  /** The split is the only way to cut a text into such pieces. */
  lemma {:induction false} SplitFromUnique(s: string, i: nat, ps: seq<string>, ops: set<char>)
    requires i <= |s| && s[i..] == Concat(ps)
    requires ArePieces(ps, ops) && RunsMaximal(ps, ops)
    ensures SplitFrom(s, i, ops) == ps
    decreases ps
  {
    if ps == [] {
      assert |s[i..]| == 0;
    } else {
      var p := ps[0];
      var rest := Concat(ps[1..]);
      assert IsOperatorPiece(p, ops) || IsRunPiece(p, ops);
      var j := i + |p|;
      PieceLayout(s, i, j, p, rest);
      PiecesTail(ps, ops);
      SplitFromUnique(s, j, ps[1..], ops);
      if IsOperatorPiece(p, ops) {
        assert p == [s[i]];
      } else {
        AfterRun(ps, ops);
        SplitRunStep(s, i, j, ops);
      }
      assert [p] + ps[1..] == ps;
    }
  }

  /** Cutting the glued pieces again gives the same pieces. */
  lemma {:induction false} SplitUnique(ps: seq<string>, ops: set<char>)
    requires ArePieces(ps, ops) && RunsMaximal(ps, ops)
    ensures Split(Concat(ps), ops) == ps
  {
    var s := Concat(ps);
    assert s[0..] == s;
    SplitFromUnique(s, 0, ps, ops);
  }

  // ---------------------------------------------------------------------------
  // numeric strings

  function DigitValue(c: char): nat
  {
    if IsDigit(c) then c as int - '0' as int else 0
  }

  function Pow10(n: nat): (p: nat)
    ensures p > 0
  {
    if n == 0 then 1 else 10 * Pow10(n - 1)
  }

  /** The value of a string of decimal digits. */
  function DigitsValue(ds: string): nat
  {
    if ds == [] then 0 else DigitsValue(ds[..|ds| - 1]) * 10 + DigitValue(ds[|ds| - 1])
  }

  /** `n` digits make a number below `10^n`. */
  lemma {:induction false} DigitsValueBound(ds: string)
    ensures DigitsValue(ds) < Pow10(|ds|)
  {
    if ds != [] {
      DigitsValueBound(ds[..|ds| - 1]);
    }
  }

  /** The exact value of a decimal literal. */
  function LiteralValue(l: Literal): real
  {
    var magnitude := DigitsValue(l.whole) as real + DigitsValue(l.fraction) as real / Pow10(|l.fraction|) as real;
    if l.negative then -magnitude else magnitude
  }

  lemma {:induction false} ProperFraction(f: real, p: real)
    requires 0.0 <= f < p
    ensures 0.0 <= f / p < 1.0
  {
    var q := f / p;
    assert q * p == f;
    assert (q - 1.0) * p == f - p;
  }

  /** The fraction part never carries into the integer part. */
  lemma {:induction false} LiteralValueBounds(l: Literal)
    ensures var v := LiteralValue(l);
            var w := DigitsValue(l.whole) as real;
            if l.negative then -w - 1.0 < v <= -w else w <= v < w + 1.0
  {
    DigitsValueBound(l.fraction);
    ProperFraction(DigitsValue(l.fraction) as real, Pow10(|l.fraction|) as real);
  }

  /** `is_numeric` on the strings the calculator produces: optional whitespace,
      a decimal literal, optional whitespace. */
  predicate IsNumeric(s: string)
  {
    var w := SpanFrom(s, 0, Spaces);
    match ParseLiteralAt(s, w)
    case None => false
    case Some((l, n)) => SpanFrom(s, n, Spaces) == |s|
  }

  /** The number a numeric string stands for (0 for any other string). */
  function NumericValue(s: string): real
  {
    var w := SpanFrom(s, 0, Spaces);
    match ParseLiteralAt(s, w)
    case None => 0.0
    case Some((l, n)) => LiteralValue(l)
  }

  /** Where a literal written out from `w` on, followed by whitespace, sits: it ends at `n`. */
  lemma {:induction false} LiteralSpacesToEnd(s: string, w: nat, n: nat, l: Literal, post: string)
    requires w <= |s| && s[w..] == LiteralThen(l, post) && n == w + LiteralLength(l)
    requires AllSpaces(post) && WellFormedLiteral(l)
    ensures w < |s| && !IsSpace(s[w]) && LiteralPlaced(s, w, l, n) && s[n..] == post
  {
    LiteralStart(l, post);
    assert s[w] == s[w..][0];
    assert EndsLiteral(post) by {
      if post != [] {
        assert IsSpace(post[0]);
      }
    }
    LiteralLayout(s, w, n, l, post);
  }

  /** Where a literal between runs of whitespace sits: the literal runs from `w` to `n`. */
  lemma {:induction false} NumericLayout(s: string, pre: string, l: Literal, post: string, w: nat, n: nat)
    requires s == pre + LiteralThen(l, post) && w == |pre| && n == w + LiteralLength(l)
    requires AllSpaces(pre) && AllSpaces(post) && WellFormedLiteral(l)
    ensures w < |s| && AllSpaces(s[0..w]) && !IsSpace(s[w])
    ensures LiteralPlaced(s, w, l, n) && AllSpaces(s[n..])
  {
    assert s[0..] == s;
    ConcatAt(s, 0, pre, LiteralThen(l, post));
    LiteralSpacesToEnd(s, w, n, l, post);
  }

  /** A literal placed between runs of whitespace makes the text numeric, with the literal's value. */
  lemma {:induction false} NumericRead(s: string, w: nat, l: Literal, n: nat)
    requires w < |s| && AllSpaces(s[0..w]) && !IsSpace(s[w])
    requires LiteralPlaced(s, w, l, n) && AllSpaces(s[n..])
    ensures IsNumeric(s) && NumericValue(s) == LiteralValue(l)
  {
    assert s[n..|s|] == s[n..];
    RunAt(s, 0, w, Spaces);
    LiteralRead(s, w, l, n);
    RunAt(s, n, |s|, Spaces);
  }

  /** A literal between runs of whitespace is numeric, with the literal's value. */
  lemma {:induction false} NumericOfRender(s: string, pre: string, l: Literal, post: string)
    requires s == pre + LiteralThen(l, post)
    requires AllSpaces(pre) && AllSpaces(post) && WellFormedLiteral(l)
    ensures IsNumeric(s) && NumericValue(s) == LiteralValue(l)
  {
    var w := |pre|;
    var n := w + LiteralLength(l);
    NumericLayout(s, pre, l, post, w, n);
    NumericRead(s, w, l, n);
  }

  /** The literal of a numeric string with no leading whitespace, and the
      position after it, from which only whitespace follows. */
  lemma {:induction false} NumericLiteral(t: string) returns (l: Literal, n: nat)
    requires IsNumeric(t) && t != [] && IsDigit(t[0])
    ensures ParseLiteralAt(t, 0) == Some((l, n)) && n <= |t| && SpanFrom(t, n, Spaces) == |t|
    ensures NumericValue(t) == LiteralValue(l)
  {
    assert SpanFrom(t, 0, Spaces) == 0;
    l, n := ParseLiteralAt(t, 0).value.0, ParseLiteralAt(t, 0).value.1;
  }

  /** A literal read from the start of a text that opens with a digit is unsigned
      and, written out, gives back the text. */
  lemma {:induction false} UnsignedLiteralAt(t: string, l: Literal, n: nat)
    requires t != [] && IsDigit(t[0]) && ParseLiteralAt(t, 0) == Some((l, n))
    ensures n <= |t| && !l.negative && WellFormedLiteral(l) && LiteralThen(l, t[n..]) == t
  {
    LiteralAtSound(t, 0, l, n);
    assert t[0..] == t;
  }

  /** Writing a literal out with its sign set puts a `-` in front. */
  lemma {:induction false} NegatedRender(t: string, l: Literal, post: string)
    requires !l.negative && LiteralThen(l, post) == t
    ensures LiteralThen(Literal(true, l.whole, l.fraction), post) == "-" + t
  {
  }

  /** A `-` in front of an unsigned literal followed by whitespace makes a numeric
      string with the negated value. */
  lemma {:induction false} NegatedLiteral(u: string, t: string, l: Literal, post: string)
    requires !l.negative && WellFormedLiteral(l) && AllSpaces(post) && LiteralThen(l, post) == t
    requires u == "-" + t
    ensures IsNumeric(u) && NumericValue(u) == -LiteralValue(l)
  {
    var m := Literal(true, l.whole, l.fraction);
    NegatedRender(t, l, post);
    assert u == [] + LiteralThen(m, post);
    NumericOfRender(u, [], m, post);
  }

  /** The literal read from the start of a text, and whitespace up to the end. */
  lemma {:induction false} UnsignedParts(t: string, l: Literal, n: nat) returns (post: string)
    requires t != [] && IsDigit(t[0]) && ParseLiteralAt(t, 0) == Some((l, n))
    requires n <= |t| && SpanFrom(t, n, Spaces) == |t|
    ensures !l.negative && WellFormedLiteral(l) && AllSpaces(post) && LiteralThen(l, post) == t
  {
    UnsignedLiteralAt(t, l, n);
    SpanFromAll(t, n, Spaces);
    post := t[n..];
  }

  /** The literal and trailing whitespace of a numeric string that opens with a digit. */
  lemma {:induction false} UnsignedNumeric(t: string) returns (l: Literal, post: string)
    requires IsNumeric(t) && t != [] && IsDigit(t[0])
    ensures !l.negative && WellFormedLiteral(l) && AllSpaces(post) && LiteralThen(l, post) == t
    ensures NumericValue(t) == LiteralValue(l)
  {
    var n;
    l, n := NumericLiteral(t);
    post := UnsignedParts(t, l, n);
  }

  /** Prefixing `-` to a numeric string that starts with a digit negates it
      (the merge of the negative-number fix). */
  lemma {:induction false} NegatedNumeric(t: string)
    requires IsNumeric(t) && t != [] && IsDigit(t[0])
    ensures IsNumeric("-" + t) && NumericValue("-" + t) == -NumericValue(t)
  {
    var l, post := UnsignedNumeric(t);
    NegatedLiteral("-" + t, t, l, post);
  }

  /** A single operator symbol is never a numeric string. */
  lemma {:induction false} SymbolNotNumeric(c: char)
    requires IsSymbol(c)
    ensures !IsNumeric([c])
  {
  }
}
