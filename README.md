# A verified model of `calculator.php`

`calculator.php` defines five operator classes (addition, subtraction,
multiplication, division, modulus), each with a precedence and a binary
`solve`. It also defines a `Calculator` class. `Calculator` holds a table from
one-character symbols to operator objects and evaluates an expression string
in these steps:

1. It trims the text.
2. It checks the whole text against one regular expression.
3. It splits the text at the operator symbols and trims each piece.
4. It glues a `-` token to the token after it, at the positions its loop
   inspects.
5. It converts the tokens to postfix with a variant of the shunting-yard
   algorithm. That variant pops at most one operator per incoming operator.
6. It runs a stack machine over the postfix tokens.

This project models that pipeline in Dafny and proves the following:

- what each stage computes;
- how the stages fit together: the operands reach the operators in the right
  order, the conversion keeps every number, every operator and nothing else,
  and alternating numbers and operators always leave exactly one value;
- the results of the demonstration calls at the end of the file.

Numbers are exact `real`s, parsed from their decimal digits.

## Modules

- `Wrappers` (`wrappers.dfy`): `Option`.
- `Operators` (`operators.dfy`):
  - the closed set of operator kinds, their precedences and their `solve`;
  - PHP's `%`, which truncates both operands to integers and keeps the sign
    of the dividend, modelled with `TruncToInt` and `IntRemainder`;
  - the exceptions;
  - `class_exists` restricted to the five classes, including PHP's ASCII
    case-insensitive class names.
- `Lexical` (`lexical.dfy`):
  - PHP's `trim`;
  - PCRE's `\s` and `\d`;
  - a hand-written recognizer `Parse`/`Matches` for the grammar of line 137,
    proved to accept exactly the texts `Render` produces from well-formed
    syntax trees;
  - the `preg_split` of line 141 as `Split`, with its round trip and
    uniqueness;
  - PHP's numeric strings (`IsNumeric`, `NumericValue`) for the forms that
    can reach them.
- `Negatives` (`negatives.dfy`): the fix-negatives loop. `FixNegatives` is
  a `while` loop over the token slots, where an `unset` slot is `None`,
  followed by `array_values`. It is proved equal to the recursive
  specification `Fix`.
- `Postfix` (`postfix.dfy`):
  - the conversion `infixToPostfix` as `Step`/`ShuntAll`/`ToPostfix`;
  - the machine `calcPostfix` as `EvalStep`/`EvalAll`/`EvalPostfix`;
  - the properties of both and of their composition.
- `Calc` (`calc.dfy`):
  - the constructor's table and `defineOperator`;
  - the whole of `solve` as the function `Evaluate`;
  - `class Calculator`, whose `operators` field is a `map<char, OpKind>` and
    whose methods are loops proved against the functions above.
- `Demos` (`demos.dfy`): the demonstration calls `11 % 2`, `100-50`, `-50`
  and `fasdfasdf`.
- `Chains` (`chains.dfy`): expressions whose operator precedences never rise
  from left to right. For these, the single pop still evaluates strictly from
  left to right. `ChainEvaluates` states this.
- `ChainDemos` (`chain_demos.dfy`): the four demonstration calls of lines
  183-186, evaluated through `Chains`.
- `Behaviours` (`behaviours.dfy`): two expression shapes where the single pop
  matters, the call of line 187, and `10 * -5` with and without the space.

### How the code behaves, by the model's definitions

These consequences of the code differ from what a reader of the expressions
might expect. The model follows the code in each case.

- **Single pop.** The conversion pops at most one operator per incoming
  operator, so `1 - 2 * 3 + 4` converts to `1 2 3 * 4 + -`. That is
  `1 - (6 + 4)`, or -9 (`Behaviours.SinglePop`).
- **Line 187.** `10 - 10 * 123 / 8` converts to `10 10 123 * 8 / -`, which
  is -143.75 (`Behaviours.Demo187`). The demonstration comment expects
  143.75.
- **Space before a negative operand.** In `10 * -5`, the space between `*`
  and `-` becomes a piece of its own, and trimming leaves it empty. The fix
  loop then inspects that empty piece instead of the `-`. The conversion
  drops the empty token, and the machine reads the missing operand as 0,
  so the result is -5 (`Behaviours.SpacedNegative`). Without the space,
  `10*-5` glues `-` to `5` and gives -50 (`Behaviours.GluedNegative`).
- **Missing operands.** A missing operand (an empty `array_pop`) reads as 0.
  So `"Invalid operator"` is never thrown from `solve`, and every error is
  one of the three that `Calc.EvaluateErrors` names.
- **A `~` symbol.** `~` is the pattern's delimiter and `preg_quote` does not
  escape it. A `~` operator therefore makes every expression invalid
  (`Calc.Evaluate`, `Calc.Calculator.Solve`).
- **No symbols.** With an empty table the character class of the pattern is
  left open, the pattern does not compile, and every expression is invalid
  (`Calc.PatternCompiles`). The constructor's four symbols are never
  removed, so a `Calculator` never reaches that case.

## Model

| member | source | states |
|---|---|---|
| Operators.Precedence | calculator.php:9-40 | Precedence 1 for addition and subtraction and 3 for multiplication, division and modulus, the values of lines 9, 16, 23, 30 and 40. `Postfix.StepPopsAtMostOnce` and `Postfix.ShuntStackShape` state what the conversion does with them. |
| Operators.Apply | calculator.php:8-44 | An operator's `solve` fails exactly when a division has a zero right operand or a modulus has a right operand that truncates to 0, with the matching exception. |
| Operators.TruncToInt | calculator.php:42 | PHP's integer conversion truncates toward zero: the result is within 1 of the value, on the side of 0. |
| Operators.IntRemainder | calculator.php:42 | The integer `%` of PHP on the truncated operands. `IntRemainderIsTruncatedDivision` proves it is the remainder of division truncated toward zero. |
| Operators.IntRemainderIsTruncatedDivision | calculator.php:42 | PHP's `%` is the remainder of division truncated toward zero: smaller than the divisor in magnitude, with the dividend's sign, and `a == q * abs(b) + r`. |
| Operators.ModulusOfTruncations | calculator.php:41-43 | A modulus result is an integer smaller in magnitude than the truncated divisor, and it carries the dividend's sign. |
| Operators.ApplyInverses | calculator.php:8-27 | Subtraction undoes addition, and division undoes multiplication by a non-zero value. |
| Operators.DivisionQuotient | calculator.php:29-37 | A successful division gives the quotient: multiplied by the divisor, it gives back the dividend. |
| Operators.ClassNamesDistinct | calculator.php:8-44 | No two operator classes share a name up to ASCII case. |
| Operators.ClassKind | calculator.php:59-60 | `class_exists` and `new $class` for the five classes of the file. `ClassKindComplete`, `ClassKindQualified` and `ClassKindOneQualifier` state which names it accepts. |
| Operators.ClassKindComplete | calculator.php:59 | `class_exists` finds kind `k` exactly when the name, after dropping one leading `\`, spells `k`'s class name in some ASCII case. |
| Operators.ClassKindQualified | calculator.php:59-60 | One leading `\` in front of an unqualified name changes nothing: the class is looked up in the global namespace. |
| Operators.ClassKindOneQualifier | calculator.php:59 | Only one leading `\` is dropped: a name starting with two names no class. |
| Lexical.TrimLeft | calculator.php:132 | Only strippable characters are cut from the front, and what is left does not start with one. |
| Lexical.TrimRight | calculator.php:132 | Only strippable characters are cut from the end, and what is left does not end with one. |
| Lexical.Trim | calculator.php:132 | `trim` gives an infix of its input with only strippable characters cut off on either side, and neither end of the result is strippable. |
| Lexical.TrimOfTrimmed | calculator.php:132 | A string with no strippable character at either end is its own trim. |
| Lexical.TrimIdempotent | calculator.php:132-137 | Trimming twice is trimming once, so the second `trim` at line 137 changes nothing. |
| Lexical.TrimAll | calculator.php:142 | `array_map('trim', ...)` keeps the number of pieces. |
| Lexical.TrimAllAt | calculator.php:142 | Each trimmed piece is the trim of the piece at the same position. |
| Lexical.TrimAllAppend | calculator.php:142 | Trimming every piece of a concatenation trims each part. |
| Lexical.Parse | calculator.php:137 | A recognizer for the pattern of line 137 that returns the syntax tree it read. `ParseSound` and `ParseOfRender` prove that it reads exactly the renderings of well-formed trees. |
| Lexical.Matches | calculator.php:137 | The `preg_match` of line 137. `MatchesIffInLanguage` proves it holds exactly for the texts of the grammar. |
| Lexical.ParseSound | calculator.php:137 | A text the recognizer accepts is rendered exactly by the well-formed syntax tree it returns. |
| Lexical.ParseOfRender | calculator.php:137 | The recognizer reads back every well-formed syntax tree from its text. |
| Lexical.MatchesIffInLanguage | calculator.php:137 | The recognizer accepts a text if and only if the text is the rendering of a well-formed expression of the grammar. |
| Lexical.Split | calculator.php:141 | The `preg_split` of line 141 with captured delimiters and no empty pieces. `SplitSound` and `SplitUnique` characterise its result completely. |
| Lexical.SplitSound | calculator.php:141 | Concatenating the split pieces gives the text back. Every piece is one operator symbol or a non-empty maximal run without operator symbols. |
| Lexical.SplitUnique | calculator.php:141 | Any list of such pieces is what splitting their concatenation gives, so the split is determined by those properties. |
| Lexical.IsNumeric | calculator.php:71 | `is_numeric`, also at line 100, for the strings that can reach it. `NumericOfRender` and `NegatedNumeric` prove that the literals of the grammar, with or without a glued `-`, are numeric, and `SymbolNotNumeric` proves that no operator symbol is. |
| Lexical.NumericValue | calculator.php:72 | The number a numeric string stands for when PHP converts it. `NumericOfRender` proves it is the literal's exact decimal value and `NegatedNumeric` that a glued `-` negates it. |
| Lexical.LiteralValueBounds | calculator.php:71-72 | The value of a numeric literal lies within 1 of its integer part, on the side its sign gives. |
| Lexical.NumericOfRender | calculator.php:71-72 | A decimal literal with whitespace around it is numeric, and its value is the literal's exact value. |
| Lexical.NegatedNumeric | calculator.php:149 | Gluing `-` to an unsigned numeric token gives a numeric token with the negated value. |
| Lexical.SymbolNotNumeric | calculator.php:99-101 | A symbol the model admits as an operator is never a numeric string, so the number test comes first without hiding an operator. |
| Negatives.FixFrom | calculator.php:145-156 | The fix loop from slot `x` on, as a recursive function. `FixFromLength` and `FixFromIdentity` state that it never adds tokens and, without a `-` at the inspected positions, changes nothing. |
| Negatives.Fix | calculator.php:145-159 | The whole fix. `FixNegatives` proves the loop computes it, and `FixConcat`, `FixIdentity` and `FixLeadingMinus` state what it does to the tokens. |
| Negatives.Values | calculator.php:159 | `array_values` on the slots, where an `unset` slot is absent. `ValuesKeep` proves it keeps the present tokens in their order. |
| Negatives.FixNegatives | calculator.php:145-159 | The loop over the token slots, followed by `array_values`, produces exactly `Fix`. `Fix` inspects position 0, then steps by 2, or by 3 after gluing a `-` to the next token. |
| Negatives.ValuesKeep | calculator.php:159 | `array_values` keeps the present tokens in their order. |
| Negatives.FixConcat | calculator.php:145-159 | The fix only glues tokens: their concatenation is unchanged. |
| Negatives.FixIdentity | calculator.php:145-156 | With no `-` at an even position, the fix changes nothing. |
| Negatives.FixLeadingMinus | calculator.php:148-150 | A leading `-` is glued to the first token. |
| Negatives.FixFromLength | calculator.php:145-159 | The fix never adds tokens. |
| Negatives.FixNegativeNumber | calculator.php:177 | The tokens of `-50` become the one token `-50`. |
| Postfix.ShuntAll | calculator.php:98-118 | The state of the conversion loop after a prefix of the tokens. Its contract states that the operator stack holds only registered symbols, and `ShuntStackShape` that every operator below the top has precedence 1. |
| Postfix.Step | calculator.php:98-117 | One conversion step leaves only registered symbols on the operator stack. |
| Postfix.StepPopsAtMostOnce | calculator.php:104-116 | An incoming operator pops at most one operator: the top, and only when the incoming precedence is at most the top's. The incoming operator is then pushed and the output is otherwise kept. |
| Postfix.Unwind | calculator.php:120-123 | The leftover operators, last pushed first. Its contract keeps the number of operators, and `UnwindPush` states the order. |
| Postfix.ToPostfix | calculator.php:94-125 | `infixToPostfix`. `PostfixNumbers`, `PostfixOperators`, `PostfixLength`, `PostfixKept` and `AlternatingDepth` state what its output holds, and `Calculator.InfixToPostfix` computes it. |
| Postfix.UnwindPush | calculator.php:120-123 | The leftover stack is appended in reverse, so the last operator pushed comes first. |
| Postfix.PostfixNumbers | calculator.php:98-123 | The postfix output holds the input's numbers in their input order. |
| Postfix.PostfixOperators | calculator.php:98-123 | The postfix output holds each registered operator of the input exactly once, as a multiset. |
| Postfix.PostfixLength | calculator.php:98-123 | The postfix output is exactly as long as the input's numbers and registered operators together. |
| Postfix.DroppedStep | calculator.php:98-117 | A token that is neither a number nor a registered operator changes nothing. |
| Postfix.PostfixKept | calculator.php:98-123 | Converting only the numbers and registered operators gives the same output as converting everything. |
| Postfix.ShuntStackShape | calculator.php:104-116 | Below the top of the operator stack every operator has precedence 1. |
| Postfix.PopOrZero | calculator.php:74-75 | `array_pop` whose missing value reads as 0 in the arithmetic. `OperandOrder` states which popped value is which operand. |
| Postfix.EvalStep | calculator.php:70-84 | One turn of the machine. `OperandOrder` states that the value pushed last is the right operand, and `EvalAllError` that an exception ends the run. |
| Postfix.EvalAll | calculator.php:69-85 | The stack after a prefix of the postfix tokens, or the first exception. `EvalAllKept` and `DepthEval` state when it fails and how many values it leaves. |
| Postfix.EvalPostfix | calculator.php:68-89 | `calcPostfix`. `PostfixErrors` and `AlternatingEvaluates` state which exceptions it can throw after the conversion, and `Calculator.CalcPostfix` computes it. |
| Postfix.OperandOrder | calculator.php:74-79 | The value pushed last is the right operand and the one below it the left. A missing operand reads as 0. |
| Postfix.EvalAllError | calculator.php:79 | An exception from an operator ends the machine: nothing after it changes the result. |
| Postfix.EvalAllKept | calculator.php:68-86 | On numbers and registered operators, the machine fails only with division or modulus by zero. |
| Postfix.PostfixErrors | calculator.php:68-127 | Evaluating a converted token list fails only with an invalid expression, a division by zero or a modulus by zero; never with an invalid operator. |
| Postfix.DepthEval | calculator.php:68-86 | When no operator of a token list finds fewer than two values, the machine ends with exactly the computed number of values, or fails with a division or modulus by zero. |
| Postfix.AlternatingPrefixEach | calculator.php:137 | Alternation of numbers and operators is a property of each position: even positions hold numbers and odd positions hold operators. |
| Postfix.AlternatingDepth | calculator.php:94-125 | Converting alternating numbers and operators gives postfix text in which every operator finds two values and one value remains. |
| Postfix.AlternatingEvaluates | calculator.php:68-127 | Converting and evaluating alternating numbers and operators gives a value, or a division or modulus by zero. It is never an invalid expression. |
| Calc.DefaultTable | calculator.php:51-56 | The constructor's table. `NamesKnown` proves that the four names of lines 52-55 name subtraction, addition, multiplication and division, and `Calculator.constructor` ends with exactly this table. |
| Calc.Define | calculator.php:58-63 | `defineOperator` on values: the new table or the class exception. `DefineBinds`, `DefineRejects` and `DefineTwice` state both outcomes. |
| Calc.DefineBinds | calculator.php:58-61 | Defining a known class binds exactly the given symbol to it, overwriting any earlier binding, and keeps every other symbol. |
| Calc.DefineRejects | calculator.php:58-63 | An unknown class name is rejected with the "Invalid class" exception, which carries the name. |
| Calc.DefineTwice | calculator.php:58-61 | Defining a symbol twice keeps the later class. |
| Calc.NamesKnown | calculator.php:51-56 | The four class names of the constructor name subtraction, addition, multiplication and division. |
| Calc.PatternCompiles | calculator.php:134-137 | The condition under which the pattern of line 137 is a valid PCRE pattern: at least one symbol, and no `~`. `Calculator.Solve` states that a valid calculator fails it only with a `~` symbol. |
| Calc.Tokens | calculator.php:141-159 | The tokens handed to `infixToPostfix`. `Demos.BinaryTokens`, `Behaviours.Tokens187`, `Behaviours.TokensSpaced` and `Behaviours.TokensGlued` state them for the shapes and calls of the demonstration. |
| Calc.Evaluate | calculator.php:129-164 | `solve` on values. `EvaluateErrors` states which exceptions it throws, `Calculator.Solve` computes it, and the demonstration lemmas state its results. |
| Calc.EvaluateErrors | calculator.php:129-164 | `solve` throws only the invalid-expression exception or a division or modulus by zero. |
| Calc.Calculator.constructor | calculator.php:51-56 | The new calculator's table is exactly `-`, `+`, `*`, `/` bound to their classes. |
| Calc.Calculator.DefineOperator | calculator.php:58-64 | The table becomes `Define`'s table and the call passes, or the table is unchanged and the class exception is returned. Symbols are only ever added, so a valid calculator stays valid. |
| Calc.Calculator.CalcPostfix | calculator.php:68-90 | The loop over the postfix tokens returns `EvalPostfix`: the one value left, the first error, or an invalid expression when the final stack count is not 1. |
| Calc.Calculator.InfixToPostfix | calculator.php:94-127 | The loop with its output and operator stacks returns `ToPostfix`. |
| Calc.Calculator.AppendReversed | calculator.php:120-123 | The leftover operators are appended in reverse stack order. |
| Calc.Calculator.Solve | calculator.php:129-164 | `solve` returns `Evaluate`: it rejects text outside the grammar before tokenising, and otherwise splits, trims, fixes the negatives, converts and evaluates. On a valid calculator the pattern fails to compile only when `~` is a symbol. |
| Calc.BinaryPostfix | calculator.php:94-125 | `a op b` converts to `a b op`. |
| Calc.BinaryEvaluates | calculator.php:68-125 | Converting and evaluating `a op b` applies the operator with `a` on the left. |
| Demos.ModulusDefined | calculator.php:171 | Defining `%` as the modulus class extends the constructor's table with `%`. |
| Demos.QualifiedModulusDefined | calculator.php:171 | Defining `%` as `\ModulusOperator` gives the same table as `ModulusOperator`. |
| Demos.DemoSymbols | calculator.php:170-171 | The demonstration table has exactly the five symbols, bound to their classes. |
| Demos.EvaluateBinary | calculator.php:129-164 | A valid text that splits into one number, an operator and one number evaluates to that operator applied to the two numbers. |
| Demos.ElevenModTwo | calculator.php:41-43 | 11 % 2 is 1. |
| Demos.ModulusDemo | calculator.php:172 | `solve('11 % 2')` returns 1. |
| Demos.SubtractDemo | calculator.php:176 | `solve('100-50')` returns 50. |
| Demos.NegativeDemo | calculator.php:177 | `solve('-50')` returns -50. |
| Demos.RejectDemo | calculator.php:178-182 | `solve('fasdfasdf')` throws "Invalid expression". |
| Chains.ChainSnoc | calculator.php:94-127 | A chain with one more operator, not outranking its last one, and one more number is a chain. Its left-to-right value applies that operator last. |
| Chains.ChainStack | calculator.php:104-116 | On a chain the operator stack holds only the latest operator: each incoming operator pops the one before it. |
| Chains.ChainPostfix | calculator.php:94-127 | Each operator and number of a chain append the number and then the operator to the postfix output. |
| Chains.ChainEval | calculator.php:68-89 | The machine run on a chain's postfix text leaves exactly the left-to-right value, or its error. |
| Chains.ChainEvaluates | calculator.php:68-127 | Converting and evaluating a chain is evaluating it from left to right. |
| Chains.ChainOdd | calculator.php:137 | A chain has odd length. |
| Chains.ChainNumber | calculator.php:137 | The tokens at even positions of a chain are numbers. |
| Chains.FixChain | calculator.php:145-159 | The negative fix leaves a chain unchanged. |
| ChainDemos.EvaluateChain | calculator.php:129-164 | A valid text whose trimmed pieces form a chain evaluates to the chain's left-to-right value. |
| ChainDemos.SplitChain5 | calculator.php:141 | A text of three operator-free runs and two operators splits into those five pieces. |
| ChainDemos.SplitChain7 | calculator.php:141 | A text of four operator-free runs and three operators splits into those seven pieces. |
| ChainDemos.MatchChain5 | calculator.php:137 | Three unsigned numbers separated by spaced operators match the grammar. |
| ChainDemos.MatchChain7 | calculator.php:137 | Four unsigned numbers separated by spaced operators match the grammar. |
| ChainDemos.Demo183 | calculator.php:183 | `solve('10 * 10 / 100 / 1')` returns 1. |
| ChainDemos.Demo184 | calculator.php:184 | `solve('10 / 10 + 100')` returns 101. |
| ChainDemos.Demo185 | calculator.php:185 | `solve('10 * 10 * 100')` returns 10000. |
| ChainDemos.Demo186 | calculator.php:186 | `solve('10 * 10 * 100 / 100')` returns 100. |
| Behaviours.RisePostfix | calculator.php:94-125 | In `a0 o1 a1 o2 a2 o3 a3`, where `o2` outranks `o1` and `o3` does not outrank `o2`, `o3` pops only `o2`, so the postfix text ends with `o3` and then `o1`. |
| Behaviours.RiseValue | calculator.php:68-89 | The postfix text of that shape applies `o2`, then `o3` to its result, then `o1` to the first number and that. |
| Behaviours.GapPostfix | calculator.php:94-125 | In `a0 o1 b o2 a1` with a token `b` that is neither a number nor an operator, `o2` pops `o1` before `a1` is output. |
| Behaviours.GapValue | calculator.php:68-89 | The postfix text of that shape applies `o1` to 0 and `a0`, then `o2` to that and `a1`. |
| Behaviours.SinglePopPostfix | calculator.php:94-125 | `1 - 2 * 3 + 4` converts to `1 2 3 * 4 + -`. |
| Behaviours.SinglePopValue | calculator.php:68-89 | `1 2 3 * 4 + -` evaluates to -9. |
| Behaviours.SinglePop | calculator.php:68-125 | Converting and evaluating `1 - 2 * 3 + 4` gives -9, where the usual rules give -1. |
| Behaviours.Tokens187 | calculator.php:141-159 | The text of line 187 becomes the seven tokens `10 - 10 * 123 / 8`. |
| Behaviours.Postfix187 | calculator.php:94-125 | Those tokens convert to `10 10 123 * 8 / -`. |
| Behaviours.Demo187 | calculator.php:187 | `solve('10 - 10 * 123 / 8')` returns -143.75, not the 143.75 the comment expects. |
| Behaviours.TokensSpaced | calculator.php:141-159 | `10 * -5` becomes the tokens `10`, `*`, the empty piece, `-` and `5`: the `-` is left unglued. |
| Behaviours.PostfixSpaced | calculator.php:94-125 | Those tokens convert to `10 * 5 -`: the empty token is dropped and `-` pops `*`. |
| Behaviours.SpacedNegative | calculator.php:129-164 | `solve('10 * -5')` returns -5. |
| Behaviours.TokensGlued | calculator.php:141-159 | `10*-5` becomes the tokens `10`, `*` and `-5`. |
| Behaviours.GluedNegative | calculator.php:129-164 | `solve('10*-5')` returns -50. |

## Left out

- The `echo` of line 131 and the demonstration code's own `echo` lines: output is
  not modelled.
- The demonstration call of line 175: it states no expected value.
- Floating point: numbers are exact reals. Rounding, overflow, infinities and
  PHP's conversion of results back to strings are not modelled.
- Numeric strings: only the forms that can reach `is_numeric` are modelled.
  A literal `-?\d+(\.\d+)?` with optional whitespace around it qualifies, as
  does the empty or operator token, which is not numeric. Exponents,
  hexadecimal and other loose forms cannot occur.
- Class lookup: `class_exists` and `new $class` stand for a closed set of five
  kinds. One leading `\` is dropped before the name is compared, as PHP does.
  Any other class name, including other classes of the file such as
  `Calculator` and names in other namespaces, is treated as unknown.
- Regular expressions: the grammar of line 137 and the split of line 141 are
  hand-written for this one pattern. The pattern failures modelled are a `~`
  symbol and an empty symbol set. Other PCRE errors are not modelled.
- Calc.Calculator.DefineOperator: the symbol must be one ASCII character that
  is not a digit, `.`, whitespace or NUL. PHP accepts any array key. With
  such characters the pattern would mean something else, for example a
  range or a class escape.
- PHP warnings, such as reading `$tokens[$x+1]` past the end in the fix loop,
  are not modelled. Their effect on the value (an empty string) is modelled.
