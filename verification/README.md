# Parser combinators, modelled in Dafny

A model of the parser-combinator library `parsing-combinators` and of the
example grammars written with it. A parser is a pure function from the
input string to a result. The result is either a failure carrying an error
or a success carrying a value and the unconsumed rest of the input. On that
type the model defines these pieces:

- the result constructors and tests;
- the monadic unit and bind (`succeed`, `fail`, `then`);
- the sequencing combinators (`first`, `second`, `map`, `pair`);
- the fluent aliases of the parser class;
- the `digit` primitive;
- the choice, repetition, sequence and lookahead combinators that the
  example grammars import (`char`, `or`, `any`, `maximalMunch`,
  `maximalMunchDiscard`, `maximalReduce`, `sequence`, `maps`, `end`,
  `cond`).

Seven grammars are built from these pieces:

- decimal digits;
- the letter `c`;
- natural numbers with leading zeroes;
- binary arithmetic expressions in prefix notation;
- n-ary arithmetic expressions;
- the language aⁿbⁿ;
- nests of round, square and curly brackets.

Every parser of the library consumes only a prefix of its input. The model
states this discipline as the predicates `Consumes` and `StrictlyConsumes`,
and every combinator's contract says when it keeps the discipline. The
grammars are proved against independent reference definitions:

- the numeral grammar reads the decimal value of the leading digits;
- both arithmetic grammars read back exactly what their printers print;
- aⁿbⁿ is accepted exactly when the counts agree;
- the bracket grammar is read by a closing-bracket matcher.

Modules, one per source concern:

| file | module | models |
|---|---|---|
| results.dfy | `Results` | the result values and the consumption discipline |
| core.dfy | `Core` | `src/index.js`: unit, bind, sequencing, `pair`, fluent aliases, `digit` |
| core_laws.dfy | `CoreLaws` | monad laws, how each combinator runs, the `pair` counterexample |
| combinators.dfy | `Combinators` | `char`, `end`, `or`, `any`, the repetitions, `sequence`, `maps`, `cond` |
| combinator_laws.dfy | `CombinatorLaws` | how the choices, repetitions and `cond` run |
| letters.dfy | `Letters` | `public/example1_letters.js` |
| numbers.dfy | `Numbers` | `public/example2_numbers.js` |
| balance.dfy | `Balance` | `public/example5_balanced_paren.js` |
| lexical.dfy | `Lexical` | the shared whitespace and operator parsers of examples 3 and 4 |
| binary_arith.dfy | `BinaryArith` | `public/example3_arith_binary_expressions.js` |
| arith.dfy | `Arith` | `public/example4_arith_expressions.js` |
| brackets.dfy | `Brackets` | `public/example6_balanced_parens.js` |

The library defines its recursive grammars through `Rec`, a thunk evaluated
at parse time. Here each recursive grammar is a function of the input `s`.
The expression inside brackets is read by `Below(s)`. That parser runs the
grammar on any strictly shorter input and fails on any other. Every inner
expression starts after an opening bracket, so the guard never fails in
practice. The lemmas that read the grammars (`ExpRoundTrip`, `ExprOnParen`,
`ExpOnOpener`) show the guard never fires on the inputs they cover.

Two places where the code reads differently from what its names and comments
suggest; the model follows the code:

- **Bracket nests.** The file `public/example6_balanced_parens.js` is named
  for balanced brackets, and its comment lines 4-8 list only single nests.
  The grammar reads one chain of nested brackets and does not read
  concatenations: on `"()()"` it reads `"()"` and leaves `"()"`
  (`Brackets.ConcatenationExample`). `Brackets.ExpAcceptsExactly` states
  exactly which whole texts the grammar reads.
- **`pair`.** The comment at `src/index.js:118-119` says both parsed values
  are returned when both parsers succeed, and the harness at
  `public/main.js:105-106` expects `pair` to fail when the second parser
  fails. The code does not check the second parser's result. This is the
  finding below.

## Model

| member | source | states |
|---|---|---|
| Results.HasFailed | src/index.js:18-20 | a result has failed exactly when it is not a success |
| Core.Succeed | src/index.js:137-139 | on every input, succeeds with the given value and consumes nothing |
| Core.Fail | src/index.js:142-144 | on every input, fails with the given error |
| Core.Then | src/index.js:67-76 | binding a prefix-consuming parser to continuations that consume prefixes only consumes a prefix; strictly, if the first parser does |
| CoreLaws.ThenRuns | src/index.js:67-76 | the bind returns the first parser's failure unchanged, else runs the continuation of its value on the rest it left |
| CoreLaws.LeftIdentity | src/index.js:137-139 | binding `succeed(a)` to `f` is `f(a)` |
| CoreLaws.RightIdentity | src/index.js:67-76 | binding a parser to `succeed` is the parser |
| CoreLaws.Associativity | src/index.js:67-76 | binds associate |
| CoreLaws.FailAbsorbs | src/index.js:142-144 | binding `fail(m)` to anything fails with `m` |
| Core.Second | src/index.js:79-88 | keeps consumption and strict consumption of the first parser |
| Core.First | src/index.js:91-105 | keeps consumption and strict consumption of the first parser |
| CoreLaws.FirstSecondRun | src/index.js:79-105 | `first` and `second` fail with the first failure; on success `first` keeps the first value, `second` the second, and both keep the second parser's rest |
| CoreLaws.SecondIsThen | src/index.js:79-88 | `second(p, q)` is `p` bound to the constant continuation `q` |
| CoreLaws.FirstIsThen | src/index.js:91-105 | `first(p, q)` is `p` bound to `q` mapped back to `p`'s value |
| Core.Map | src/index.js:108-117 | succeeds exactly when the parser does, leaves the same rest, keeps the consumption discipline |
| CoreLaws.MapRuns | src/index.js:108-117 | maps the value of a success and passes a failure on unchanged |
| CoreLaws.MapIsThen | src/index.js:108-117 | `map(p, f)` is `p` bound to `succeed` of `f` |
| CoreLaws.MapFunctor | src/index.js:108-117 | mapping the identity changes nothing; two maps compose |
| Core.PairAsWritten | src/index.js:123-133 | as written, `pair` succeeds exactly when its first parser succeeds |
| CoreLaws.PairAsWrittenAgrees | src/index.js:123-133 | as written, `pair` agrees with the corrected one except when the second parser fails |
| CoreLaws.PairAcceptsHalfParse | src/index.js:127-128 | as written, `pair(digit, digit)` accepts `"1foo"` with no second value and no rest; the corrected `pair` rejects it |
| Core.Pair | src/index.js:119-122 | succeeds exactly when both parsers succeed in turn; keeps the consumption discipline |
| CoreLaws.PairRuns | src/index.js:119-122 | the corrected `pair` fails with the first failure, else yields both values in order with the second parser's rest |
| CoreLaws.PairIsThen | src/index.js:119-122 | the corrected `pair` is a bind followed by a map |
| CoreLaws.FluentAliases | src/index.js:44-55 | the parser class's `then`, `_then`, `then_` and `map` are the free `then`, `second`, `first` and `map` |
| Core.IsDigitInList | src/index.js:153-166 | the code-point range test used for `isDigit` holds exactly for the ten characters the source lists |
| Core.DigitValuesAgree | src/index.js:168-179 | the table `digits2values` has exactly the digit characters as keys, each mapped to the value computed from its code point |
| Core.Digit | src/index.js:181-189 | succeeds exactly on a leading decimal digit, with its value 0 to 9 and the input after it |
| Core.DigitOn | public/example0_digits.js:34-42 | a digit in front of any text is read with its value, leaving the text |
| Core.ValuesOf | public/example0_digits.js:21-32 | each digit character has one value, in order |
| Core.DigitStrictlyConsumes | public/example0_digits.js:34-42 | `digit` consumes at least one character when it succeeds |
| CoreLaws.DigitExamples | public/main.js:47-62 | `digit` reads `1` from `"123 hi"`, `2` from `"23 hi"`, and rejects `"hi"` and `""` |
| CoreLaws.SequencingExamples | public/main.js:66-115 | the harness's expected results for `succeed`, `first`, `second`, `map` and `then` (`pair`'s are `PairExamples`) |
| CoreLaws.PairExamples | public/main.js:99-109 | the corrected `pair(digit, digit)` reads `"12foo"` as `(1, 2)` leaving `"foo"`, and rejects `"1foo"` and `"x2foo"` |
| Combinators.Char | public/example5_balanced_paren.js:19-20 | `char(c)` succeeds exactly on a leading `c`, consuming it |
| Combinators.End | public/main.js:329-331 | `end` succeeds exactly on the empty input |
| Combinators.Or | public/main.js:215-229 | `or` keeps the consumption discipline of its two alternatives |
| CombinatorLaws.OrRuns | public/main.js:215-229 | `or` keeps the first success; a failed first alternative leaves no trace; a double failure reports both errors in order |
| Combinators.AnyFrom | public/main.js:289-299 | `any` fails exactly when every alternative fails, reporting all errors in order; else it is the first alternative that succeeds |
| Combinators.Any | public/example6_balanced_parens.js:22-28 | `any` keeps the consumption discipline of its alternatives |
| CombinatorLaws.AnyOfTwoIsOr | public/main.js:289-295 | `any` of two alternatives is `or` of them |
| CombinatorLaws.AnyOfThree | public/example6_balanced_parens.js:22-28 | `any` of three alternatives takes the first success, and reports all three errors when none succeeds |
| CombinatorLaws.AnyOfNoneFails | public/main.js:297-299 | `any([])` fails |
| Combinators.MunchFrom | public/main.js:173-179 | `maximalMunch` never fails, leaves a suffix of its input, and stops where its parser fails |
| Combinators.MaximalMunch | public/example4_arith_expressions.js:87-88 | `maximalMunch` of a strictly consuming parser consumes a prefix |
| CombinatorLaws.MunchStopsAtFailure | public/main.js:177-188 | when the parser fails at once, `maximalMunch` yields nothing and `maximalMunchDiscard` consumes nothing |
| Combinators.MaximalReduce | public/example5_balanced_paren.js:22-23 | `maximalReduce` of a strictly consuming parser consumes a prefix |
| Combinators.ReduceFrom | public/main.js:191-198 | `maximalReduce` never fails and stops where its parser fails |
| CombinatorLaws.ReduceIsFoldedMunch | public/main.js:191-198 | `maximalReduce` folds exactly the values `maximalMunch` collects and stops at the same place |
| Combinators.MaximalMunchDiscard | public/example4_arith_expressions.js:71 | `maximalMunchDiscard` of a strictly consuming parser consumes a prefix |
| Combinators.SkipFrom | public/main.js:182-188 | `maximalMunchDiscard` never fails and stops where its parser fails |
| CombinatorLaws.DiscardIsMunch | public/main.js:182-188 | `maximalMunchDiscard` stops where `maximalMunch` stops |
| Combinators.SequenceFrom | public/main.js:152-158 | `sequence` yields one value per parser and, over prefix-consuming parsers, consumes a prefix |
| Combinators.Sequence | public/main.js:152-158 | a successful `sequence` yields exactly one value per parser |
| CombinatorLaws.SequenceRuns | public/main.js:152-158 | `sequence([])` consumes nothing; otherwise it fails with the first parser's failure, or runs the first parser and then the rest |
| Combinators.Maps | public/main.js:167-170 | `maps` succeeds exactly when `sequence` does |
| Combinators.Cond | public/main.js:251-257 | `cond` keeps the consumption discipline of both branches |
| CombinatorLaws.CondRuns | public/main.js:251-257 | `cond` runs the branch its probe selects on the original, unconsumed input |
| CombinatorLaws.LeadingCount | public/example2_numbers.js:4-11 | the count of leading copies of a character: all copies before it, none at it |
| CombinatorLaws.CountingReduce | public/example5_balanced_paren.js:22-23 | counting with `maximalReduce(char(c), k, +1)` adds the number of leading `c`s and leaves the input after them |
| CombinatorLaws.SkippingChars | public/example4_arith_expressions.js:71 | discarding `char(c)` repeatedly drops exactly the leading `c`s |
| CombinatorLaws.MunchDigits | public/main.js:173-175 | munching digits reads the values of every leading digit and stops at the first non-digit |
| CombinatorLaws.SequenceDigits | public/main.js:167-170 | a sequence of `n` digit parsers reads the values of `n` digits |
| CombinatorLaws.MunchExample | public/main.js:173-175 | `maximalMunch(digit)` reads `[1,2,3,4]` from `"1234foo"`, leaving `"foo"` |
| CombinatorLaws.MunchNothingExample | public/main.js:177-179 | `maximalMunch(digit)` reads nothing from `"foo"` and leaves all of it |
| CombinatorLaws.DiscardExample | public/main.js:182-184 | `maximalMunchDiscard(digit)` drops `"1234"` from `"1234foo"` |
| CombinatorLaws.DiscardNothingExample | public/main.js:186-188 | `maximalMunchDiscard(digit)` leaves `"foo"` whole |
| CombinatorLaws.ReduceExample | public/main.js:191-194 | summing digits of `"12345foo"` gives 15 |
| CombinatorLaws.ReduceOfNothing | public/main.js:196-198 | summing digits of `"foo"` gives the initial 0 |
| CombinatorLaws.ChoiceExamples | public/main.js:215-257 | the harness's expected results for `or(digit, digit)`, `any([])`, `cond` and `end` (the mixed `or` cases are `Letters.MixedOrExamples`) |
| CombinatorLaws.MapsExample | public/main.js:167-170 | `maps` of five digit parsers with a sum reads 15 from `"12345foo"` |
| Letters.CCharacter | public/example1_letters.js:20-28 | succeeds exactly on a leading `c`, yielding `"c"` and the input after it |
| Letters.CCharacterIsChar | public/example1_letters.js:20-28 | `cCharacter` agrees with `char('c')` |
| Letters.CCharacterExamples | public/main.js:201-212 | `cCharacter` reads `"c123"` and rejects `"123"` and `""` |
| Letters.DigitToken | src/index.js:180-189 | `digit` with its value tagged as a number token, so that it can share a choice with `cCharacter` (JavaScript values are untyped): succeeds exactly when `digit` does, with its value and rest |
| Letters.LetterToken | public/example1_letters.js:20-28 | the letter `c` read as a letter token: succeeds exactly when `cCharacter` does, leaving the input after it |
| Letters.MixedOrExamples | public/main.js:219-229 | `or(digit, cCharacter)` reads `"c"` from `"cxxx"` leaving `"xxx"`, and rejects `"xxxx"` and `""` |
| Letters.MixedAnyExamples | public/main.js:289-295 | `any([digit, cCharacter])` rejects `"xxxx"` and reads `"c"` from `"cxxx"` leaving `"xxx"` |
| Numbers.Zeroes | public/example2_numbers.js:11 | `zeroes` never fails, counts the leading zeroes and consumes them |
| Numbers.NatOfDigitsIsDecimal | public/example2_numbers.js:16-22 | `natOfDigits` of the digits of a numeral is its decimal value |
| Numbers.NatOfDigitsCons | public/example2_numbers.js:16-22 | a leading digit contributes its value times ten to the number of digits after it |
| Numbers.NatReads | public/example2_numbers.js:25-40 | `nat` fails exactly when no digit leads; else it reads the decimal value of every leading digit and leaves the input after them |
| Numbers.NatStrictlyConsumes | public/example2_numbers.js:25-40 | `nat` consumes at least one character when it succeeds |
| Numbers.NatStopsAtNonDigit | public/example2_numbers.js:30 | after `nat` no digit remains at the front |
| Numbers.NatRoundTrip | public/example2_numbers.js:25-40 | `nat` reads back the decimal printing of every natural number |
| Numbers.NatSkipsZeroes | public/example2_numbers.js:34-38 | leading zeroes are skipped; a run of only zeroes reads as 0 |
| Numbers.NatExample | public/example2_numbers.js:15 | `"123xxx"` reads as 123, leaving `"xxx"` |
| Numbers.NatRejects | public/example2_numbers.js:35 | `"xxx"`, `""` and `"-5"` are rejected |
| Numbers.NatZeroesExample | public/example2_numbers.js:26-31 | `"00123xxx"` reads as 123 |
| Numbers.NatOnlyZeroesExample | public/example2_numbers.js:36-37 | `"0xxx"` and `"00xxx"` read as 0 |
| Balance.As | public/example5_balanced_paren.js:22 | `as` never fails, counts the leading `a`s and consumes them |
| Balance.Bs | public/example5_balanced_paren.js:23 | `bs` never fails, counts the leading `b`s and consumes them |
| Balance.BalanceCounts | public/example5_balanced_paren.js:28 | `balance` gives the verdict on the two counts and the input after the `b`s |
| Balance.BalanceRuns | public/example5_balanced_paren.js:28-34 | `balance` equals its count-based reference definition on every input |
| Balance.BalanceSound | public/example5_balanced_paren.js:28-34 | a word `balance` reads to the end is aⁿbⁿ |
| Balance.BalanceComplete | public/example5_balanced_paren.js:28-34 | every aⁿbⁿ is read to the end |
| Balance.BalanceAcceptsExactly | public/example5_balanced_paren.js:4-17 | `balance` reads a whole word exactly when it is aⁿbⁿ for some n |
| Balance.CountExample | public/example5_balanced_paren.js:24 | `as` counts 3 in `"aaax"` |
| Balance.BalanceExamples | public/example5_balanced_paren.js:36 | `"aaabbb"` and `""` are accepted |
| Balance.UnbalancedExample | public/example5_balanced_paren.js:26-32 | `"aaaabbbbbbx"` is rejected with "they ain't the same" |
| Lexical.Ws | public/example4_arith_expressions.js:71 | `_` never fails and drops exactly the leading spaces |
| Lexical.Ws1 | public/example4_arith_expressions.js:73 | `$_` succeeds exactly on a leading space and then drops every leading space |
| Lexical.Operator | public/example4_arith_expressions.js:76 | `operator` succeeds exactly on a leading `+` or `*`, yielding it |
| Lexical.LexicalConsumption | public/example3_arith_binary_expressions.js:61-63 | `_` consumes a prefix; `$_` and `operator` consume at least one character |
| Lexical.WsStopsAtNonSpace | public/example3_arith_binary_expressions.js:61 | `_` drops a run of spaces and stops at the first non-space |
| Lexical.Ws1Reads | public/example3_arith_binary_expressions.js:63 | `$_` drops a whole nonempty run of spaces and stops at the first non-space |
| BinaryArith.OpTable | public/example3_arith_binary_expressions.js:55-58 | the node built for `+` evaluates to the sum and for `*` to the product, and prints with its operator |
| BinaryArith.Exp | public/example3_arith_binary_expressions.js:72-74 | `exp` consumes at least one character when it succeeds |
| BinaryArith.OpExpFrom | public/example3_arith_binary_expressions.js:79-81 | `opExp` consumes at least one character when it succeeds |
| BinaryArith.ExpOnParen | public/example3_arith_binary_expressions.js:72-74 | on a leading `(` the numeral alternative fails; `exp` is `opExp`, or fails with both errors |
| BinaryArith.OpExpReads | public/example3_arith_binary_expressions.js:76-81 | `opExp` reads `(`, spaces, the operator, at least one space, `x1`, at least one space, `x2`, spaces and `)`, for any such runs of spaces, when its operand parser reads `x1` and `x2`; it builds the operator's node |
| BinaryArith.OpenReadsPadded | public/example3_arith_binary_expressions.js:80 | `(`, `_` and the operator read `(`, any run of spaces and the operator |
| BinaryArith.OperandsReadsPadded | public/example3_arith_binary_expressions.js:80-81 | `$_ exp $_ exp _ )` read two operands after nonempty runs of spaces, then spaces and `)` |
| BinaryArith.CloseReadsPadded | public/example3_arith_binary_expressions.js:80 | the closing `_ )` reads any run of spaces and `)` |
| BinaryArith.OpExpNeedsSpace | public/example3_arith_binary_expressions.js:80 | `opExp` fails when the operator is not followed by a space |
| BinaryArith.ShowOpReads | public/example3_arith_binary_expressions.js:79-81 | `opExp` reads `(op x1 x2)`, the layout `show` prints, when its operands read `x1` and `x2` |
| BinaryArith.ExpReadsPadded | public/example3_arith_binary_expressions.js:72-81 | `exp` reads an operator node written with any spacing `opExp` allows, given that it reads both operand texts |
| BinaryArith.PrintedOperandsPadded | public/example3_arith_binary_expressions.js:72-81 | `exp` reads an operator node over two printed expressions written with any spacing `opExp` allows |
| BinaryArith.LeftNestedPadded | public/example3_arith_binary_expressions.js:72-81 | `exp` reads an operator node whose first operand text it reads and whose second is a printed expression, with any allowed spacing |
| BinaryArith.UnspacedOperatorExample | public/example3_arith_binary_expressions.js:76-80 | `"(+1 2)"` is rejected: the operator must be followed by a space |
| BinaryArith.ExpRoundTrip | public/example3_arith_binary_expressions.js:30-39 | `exp` reads back what `show` prints, leaving any text that does not start with a digit |
| BinaryArith.ShowInjective | public/example3_arith_binary_expressions.js:30-39 | different expressions print differently |
| BinaryArith.ExpRejects | public/example3_arith_binary_expressions.js:72-74 | text starting with neither `(` nor a digit is rejected |
| BinaryArith.Example0Facts | public/example3_arith_binary_expressions.js:52-53 | `example0` evaluates to 9 and prints as `"(* (+ 1 2) 3)"` |
| BinaryArith.Example0Parses | public/example3_arith_binary_expressions.js:52-53 | `exp` reads the printing of `example0` back to the end |
| BinaryArith.BinExp0Text | public/main.js:428 | the harness's input `"(  + ( * 3 4  ) (+ 5 6)  )"` is a sum node over a product node, with its runs of spaces |
| BinaryArith.BinExp0Parses | public/main.js:428-429 | `exp` reads the harness's input to the end as `(3 * 4) + (5 + 6)` |
| BinaryArith.PaddedNestReads | public/main.js:428-429 | `exp` reads a product nested as the first operand of a sum, with the harness's spacing, for any operands |
| BinaryArith.BinExp0Shows | public/main.js:431-433 | `show` prints the parsed value as `"(+ (* 3 4) (+ 5 6))"` |
| Arith.OpTable | public/example4_arith_expressions.js:65-68 | `+` builds an `Add` node and `*` a `Mul` node of the operands |
| Arith.EvalAll | public/example4_arith_expressions.js:55-57 | one value per operand, the `i`-th being the value of the `i`-th operand |
| Arith.Operand | public/example4_arith_expressions.js:88 | `$_` followed by a prefix-consuming parser consumes at least one character |
| Arith.PreDelimitedSeq | public/example4_arith_expressions.js:87-88 | `preDelimitedSeq(p)` consumes a prefix |
| Arith.MunchOperands | public/example4_arith_expressions.js:80-88 | `preDelimitedSeq(p)` reads back every operand of a space-separated list and stops where no operand follows |
| Arith.ListHead | public/example4_arith_expressions.js:98 | the head of a list, `(` then `_` then the operator, consumes at least one character when it succeeds |
| Arith.ListHeadReads | public/example4_arith_expressions.js:98 | the head of a list reads `(`, any run of spaces and the operator, leaving the operands |
| Arith.ListSteps | public/example4_arith_expressions.js:97-101 | a list whose head is followed by operands `preDelimitedSeq` reads, then spaces and `)`, reads as the operator's node over them |
| Arith.EmptyListReads | public/example4_arith_expressions.js:108-109 | a list with no operands reads as the operator's node over nothing |
| Arith.List | public/example4_arith_expressions.js:97-101 | `list(p)` consumes at least one character when it succeeds |
| Arith.ListReads | public/example4_arith_expressions.js:97-101 | `list(p)` reads back a printed list node when `p` reads back each operand |
| Arith.ListNeedsParen | public/example4_arith_expressions.js:106 | `list(p)` rejects text that does not start with `(` |
| Arith.ListNeedsOperator | public/example4_arith_expressions.js:107 | `list(p)` rejects `(` not followed by an operator |
| Arith.EmptyListExample | public/example4_arith_expressions.js:108 | `"(+)xx"` reads as `Add([])`, leaving `"xx"` |
| Arith.NoParenExample | public/example4_arith_expressions.js:106 | `"xx"` is rejected |
| Arith.NoOperatorExample | public/example4_arith_expressions.js:107 | `"()xx"` is rejected |
| Arith.NumeralOperand | public/example4_arith_expressions.js:87-88 | one operand of `preDelimitedSeq(natExpr)` reads a nonempty run of spaces and a numeral |
| Arith.NoNumeralOperand | public/example4_arith_expressions.js:87-88 | after a run of spaces, `)` starts no operand |
| Arith.NumeralCons | public/example4_arith_expressions.js:87-88 | `preDelimitedSeq(natExpr)` reads a numeral after spaces and then what the rest gives |
| Arith.OneNumeral | public/example4_arith_expressions.js:87-88 | `preDelimitedSeq(natExpr)` reads one spaced numeral and stops at the spaces before `)` |
| Arith.TwoNumerals | public/example4_arith_expressions.js:87-88 | the same for two spaced numerals |
| Arith.ThreeNumerals | public/example4_arith_expressions.js:87-88 | the same for three spaced numerals |
| Arith.ThreeNumeralList | public/example4_arith_expressions.js:97-101 | `list(natExpr)` reads three numerals with any runs of spaces the grammar allows |
| Arith.PaddedListReads | public/example4_arith_expressions.js:105 | the regrouped text of `"(  + 1 2  34  )xx"` reads as `Add([1, 2, 34])`, leaving `"xx"` |
| Arith.PaddedListExample | public/example4_arith_expressions.js:105 | `"(  + 1 2  34  )xx"` reads as `Add([1, 2, 34])`, leaving `"xx"` |
| Arith.PaddedEmptyListExample | public/example4_arith_expressions.js:109 | `"(  + )xx"` reads as `Add([])`, leaving `"xx"` |
| Arith.NatExpr | public/example4_arith_expressions.js:113 | `natExpr` consumes at least one character when it succeeds |
| Arith.ParseExpr | public/example4_arith_expressions.js:114-116 | `expr` consumes at least one character when it succeeds |
| Arith.ExprOnParen | public/example4_arith_expressions.js:114-116 | on a leading `(` the numeral alternative fails; `expr` is `list(expr)`, or fails with both errors |
| Arith.ExprRejects | public/example4_arith_expressions.js:114-116 | text starting with neither `(` nor a digit is rejected |
| Arith.ExprRoundTrip | public/example4_arith_expressions.js:21-30 | `expr` reads back what `show` prints, leaving any text that does not start with a digit |
| Arith.OperandsRoundTrip | public/example4_arith_expressions.js:17-19 | each operand of a printed list is read back with the rest of the list after it |
| Arith.ShowInjective | public/example4_arith_expressions.js:21-30 | different expressions print differently |
| Arith.ProgramRoundTrip | public/example4_arith_expressions.js:125 | `program` reads a printed expression surrounded by spaces to the end |
| Arith.ProgramNeedsEnd | public/example4_arith_expressions.js:125 | `program` rejects a printed expression followed by text other than spaces or digits |
| Arith.ProgramExample | public/example4_arith_expressions.js:128 | `"  (+ 1 2) "` reads as `Add([1, 2])` |
| Arith.SumProdPair | public/example4_arith_expressions.js:42-48 | `sum` and `prod` of two numbers are their sum and product |
| Arith.WidenAgrees | public/example4_arith_expressions.js:50-59 | each binary expression, as an n-ary one, evaluates and prints the same |
| Arith.WidenParses | public/example4_arith_expressions.js:114-116 | the n-ary grammar reads every printed binary expression as its n-ary form |
| Arith.Exp3Facts | public/example4_arith_expressions.js:39-40 | `exp3` evaluates to 36 and prints as `"(* (+ 1 2) 3 4)"` |
| Brackets.InsideParen | public/example6_balanced_parens.js:16-18 | `insideParen` of a prefix-consuming parser consumes at least one character |
| Brackets.InsideParenRuns | public/example6_balanced_parens.js:16-18 | after the opening bracket, `insideParen` runs its parser and then needs the closing bracket |
| Brackets.Paren | public/example6_balanced_parens.js:22-28 | `paren` keeps the consumption discipline |
| Brackets.ParenPicks | public/example6_balanced_parens.js:22-28 | on a leading opening bracket, `paren` succeeds exactly as the alternative for that kind |
| Brackets.ParenDigit | public/example6_balanced_parens.js:29-31 | `paren(digit)` reads a digit inside any kind of bracket |
| Brackets.OpenParen | public/example6_balanced_parens.js:33 | `openParen` succeeds exactly on a leading opening bracket, yielding it |
| Brackets.Exp | public/example6_balanced_parens.js:36-42 | `exp` consumes a prefix |
| Brackets.ExpOnNonOpener | public/example6_balanced_parens.js:39-40 | without a leading opening bracket, `exp` succeeds and consumes nothing |
| Brackets.ExpOnOpener | public/example6_balanced_parens.js:37-38 | after an opening bracket, `exp` reads an inner expression and needs the matching closing bracket |
| Brackets.ExpSpec | public/example6_balanced_parens.js:36-42 | after a run of opening brackets, `exp` succeeds exactly when the closing-bracket matcher does, with the same rest |
| Brackets.ExpSound | public/example6_balanced_parens.js:36-42 | everything `exp` reads is some brackets opened and then closed in reverse order |
| Brackets.ExpComplete | public/example6_balanced_parens.js:36-42 | `exp` reads every nest of brackets, leaving the text after it; after a nonempty nest that text is arbitrary, after the empty nest it must not start with an opening bracket |
| Brackets.ExpMovesOnOpener | public/example6_balanced_parens.js:36-42 | on a text that starts with an opening bracket, `exp` fails or reads at least that bracket |
| Brackets.ExpAcceptsExactly | public/example6_balanced_parens.js:4-8 | `exp` reads a whole text exactly when the text is one nest of brackets |
| Brackets.MatchClosesSound | public/example6_balanced_parens.js:36-42 | the matcher consumes exactly the closing brackets of the opened kinds |
| Brackets.MatchClosesComplete | public/example6_balanced_parens.js:36-42 | the matcher accepts the closing brackets of the opened kinds |
| Brackets.NestExample | public/example6_balanced_parens.js:43 | `"{([{}])}"` is read to the end |
| Brackets.MismatchExample | public/example6_balanced_parens.js:36-42 | `"([)]"` is rejected |
| Brackets.TrailingExample | public/example6_balanced_parens.js:36-42 | `"()x"` is read, leaving `"x"` |
| Brackets.ConcatenationExample | public/example6_balanced_parens.js:36-42 | `"()()"` is read as one nest, leaving `"()"` |

## Left out

- Text output is not modelled: the commented-out `console.log` calls and the printing loop at the end of `public/example4_arith_expressions.js`.
- The harness itself is not modelled: `public/main.js` and its `assert` and `arrayEq`. Its expected results appear as example lemmas.
- These combinators are not used by the core grammars and are not modelled: `take`, `takeUntil`, `string`, `range`, `satisfies`, `character`, `maybe`, `lookahead`, `ifFails`, `catch`, `setError`, `mapError`, `repeat`, `forEach`, `map2` and `doParsing`.
- `maximalMunch1` is imported by the bracket grammar but never used, so it is not modelled.
- `Rec`, the deferred thunk, is not modelled. Recursion goes through `Below(s)`, which runs the grammar only on strictly shorter inputs. Its "expression makes no progress" failure never happens on the inputs the grammars read.
- The repetition combinators (`MaximalMunch`, `MaximalReduce`, `MaximalMunchDiscard`) require a parser that consumes at least one character on success. The library loops forever on a parser that succeeds without consuming, and the model does not cover that case.
- The source defines `char`, `or`, `any`, `end`, `cond`, `sequence`, `maps` and the repetitions outside the files modelled here. They are defined from their uses and the harness's expected results.
- The error texts of `char`, `end` and `or`/`any` are assumptions. `end` fails with the unread input. `or` and `any` fail with the list of every alternative's error.
- Error texts are modelled as strings. The interpolated character in `digit`'s and `cCharacter`'s messages is kept.
- JavaScript numbers are modelled as unbounded naturals: no floating point and no loss of precision for long numerals.
- `natOfDigits` reverses its argument in place. The model uses a pure reversal, which has no visible effect on the caller here.
- BinaryArith: `maps` with nine parsers of different value types cannot be a Dafny sequence. `opExp` is modelled as the same nine steps run one after another, which is what `maps` does.
- Arith.OpTable: the JavaScript lookup `opTable[opSymbol]` is only reached with `+` or `*`, because `operator` reads nothing else. The model maps every other symbol to `Mul`, a case that never arises.
- Arith: `list(p)` is modelled for parsers of expressions only. The `list(nat)` examples in the comments use `natExpr`, which wraps each number in `Nat`.
- Brackets.ParenDigit: only the `(1)` example is stated on a literal string (`ParenDigitRoundExample`). The `[1]` and `{1}` cases are instances of `ParenDigit`.

## Findings

| source | as written | input that shows it | evidently intended | confidence | as-written member | corrected member |
|---|---|---|---|---|---|---|
| src/index.js:127-128 | `pair` returns a success built from the second parser's result without checking that it succeeded | `pair(digit, digit)` on `"1foo"`: the result is a success whose second value and rest are undefined | `pair` fails with the second parser's error, as the harness expects at `public/main.js:105-106` | not executed | CoreLaws.PairAcceptsHalfParse | Core.Pair |
