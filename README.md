# f_ops calculator core, modelled in Dafny

f_ops is a small calculator for arithmetic expressions, written in Rust. This project models the four source files that hold its logic, one Dafny module for each:

- **Lexer** (`src/tokenizer.rs`, module `Tokenizer`): turns a line of text into a flat token list. It peeks at one character and hands the scan to a symbol lexer, a number lexer or a name lexer. Spaces are skipped. Any other character is `IncorrectCharacter`.
- **Postfix evaluator** (`src/evaluator.rs`, module `Evaluator`): a stack machine over the flat token list. `Const` pushes, the four arithmetic operators pop two values and push one, and the result is the top of the final stack.
- **Token model** (`src/tokens.rs`, module `Tokens`): the nested `Token` / `Function` / `Value` / `Glyph` sum types and their `Display` text. It also holds the operator precedence table, the `Into` conversions and `ExpressionBuilder`, which appends one token per call and displays as `[a,b,c]`.
- **Variable store** (`src/app_context.rs`, module `AppContext`): a `Context` object that owns a map from name to value, with `var` and `set_var`.

The lexer and the evaluator use a flat token type: `Token::Const`, `Token::Name`, `Token::Add`, …, `Token::LBracket`. `src/tokens.rs` does not define that type. It defines the nested type instead. So the flat type has its own module, `FlatTokens`, built from how the two files use it. `Tokens` models the nested type as `src/tokens.rs` writes it. The two are not reconciled. `Wrappers` holds `Option` and `Result`.

Each component keeps the shape of the source:

- **Lexer.** `Tokenize` and the three sub-lexers are methods. They share the source's peekable iterator as an input string plus the index of the next unread character. `Tokenize`, `ReadNumber` and `ReadName` loop, and each is proved against a recursive specification: `LexFrom`, `NumberEnd` and `NameEnd`. `ReadSymbol` reads one character and has no loop; its specification is the symbol table `SymbolToken`.
- **Evaluator.** `Evaluate` is a method that pushes to and pops from a local stack. It is proved equal to `Evaluation`, which is built on the fold `Run`.
- **`ExpressionBuilder` and `Context`.** These are classes whose methods update a `seq` or `map` field in place.
- **Pure parts.** Precedence, the conversions and the renderings are functions.

These files are the lexer, the evaluator, the token types and the variable store. `src/main.rs` calls functions that they do not define, so what they do is taken from their own text alone. These files do not have:
- `Start`/`End` sentinels in the lexer output;
- unary minus (`-` always lexes as `Sub`);
- comma or `=` lexing;
- assignment, a function table, or pre-seeded constants;
- evaluation of `Pow`, brackets or names (all `NotImplemented`);
- a grammar validator or a shunting-yard converter.

## Model

| member | source | states |
|---|---|---|
| `Tokens.Precedence` | src/tokens.rs:154-168 | every precedence is between 0 and 3, and it is 3 exactly for a named function |
| `Tokens.PrecedenceTable` | src/tokens.rs:154-168 | Add = Sub = 0; Mul = Div = Neg = 1; Pow = 2; NamedFunc(name) = 3 for every name |
| `Tokens.NamedFuncBindsTightest` | src/tokens.rs:154-168 | a named function is strictly above every other operator, and Pow is the highest of the others |
| `Tokens.ConversionsCommute` | src/tokens.rs:147-279 | BinaryOp → Token equals BinaryOp → Function → Token, and the same for UnaryOp; distinct operators convert to distinct tokens; a Value becomes the `Val` and a Glyph the `Glyph` token wrapping it, injectively, and neither collides with an operator or with each other |
| `Tokens.ShowTokenReadsBack` | src/tokens.rs:116-272 | a non-numeric token renders as fixed text, the same whatever the float formatter: "Start", "Add", "Neg", "NamedFunc(name)", "Var(name)", "LBracket", "Comma", …; that text reads back to the token |
| `Tokens.ShowTokenInjective` | src/tokens.rs:116-272 | two non-numeric tokens with the same rendering are the same token |
| `Tokens.TextsAppend` | src/tokens.rs:13-20 | the texts of the tokens after one more append are the earlier texts followed by the new token's text |
| `Tokens.TerminatedIsJoinedComma` | src/tokens.rs:13-20 | writing every token's text followed by "," gives the texts joined by "," plus one trailing "," |
| `Tokens.TerminatedThenLastIsJoined` | src/tokens.rs:13-20 | writing every token's text but the last followed by ",", then the last one, gives the texts joined by "," |
| `Tokens.JoinedSnoc` | src/tokens.rs:13-20 | appending a text extends the comma-joined text by "," and that text |
| `Tokens.RenderedAfterAppend` | src/tokens.rs:9-26 | after one more append, the display is "[" + the earlier join + "," + the new token + "]" (or "[t]" for the first token) |
| `Tokens.ExpressionBuilder.Display` | src/tokens.rs:9-26 | on a non-empty builder, writes "[", then the tokens joined by ",", then "]" |
| `Tokens.ExpressionBuilder.constructor` | src/tokens.rs:4-7 | the builder holds exactly the given tokens |
| `Tokens.ExpressionBuilder.Start` | src/tokens.rs:29-32 | appends `Start` at the end and leaves earlier tokens unchanged |
| `Tokens.ExpressionBuilder.End` | src/tokens.rs:34-37 | appends `End` at the end and leaves earlier tokens unchanged |
| `Tokens.ExpressionBuilder.Binop` | src/tokens.rs:39-42 | appends `Func(BinaryOp(op))` and nothing else |
| `Tokens.ExpressionBuilder.Add` | src/tokens.rs:44-47 | appends `Func(BinaryOp(Add))` and nothing else |
| `Tokens.ExpressionBuilder.Sub` | src/tokens.rs:49-52 | appends `Func(BinaryOp(Sub))` and nothing else |
| `Tokens.ExpressionBuilder.Mul` | src/tokens.rs:54-57 | appends `Func(BinaryOp(Mul))` and nothing else |
| `Tokens.ExpressionBuilder.Div` | src/tokens.rs:59-62 | appends `Func(BinaryOp(Div))` and nothing else |
| `Tokens.ExpressionBuilder.Pow` | src/tokens.rs:64-67 | appends `Func(BinaryOp(Pow))` and nothing else |
| `Tokens.ExpressionBuilder.Neg` | src/tokens.rs:69-72 | appends `Func(UnaryOp(Neg))` and nothing else |
| `Tokens.ExpressionBuilder.Func` | src/tokens.rs:74-77 | appends `Func(NamedFunc(name))` and nothing else |
| `Tokens.ExpressionBuilder.Scalar` | src/tokens.rs:79-82 | appends `Val(Scalar(x))` and nothing else |
| `Tokens.ExpressionBuilder.Var` | src/tokens.rs:84-87 | appends `Val(Var(name))` and nothing else |
| `Tokens.ExpressionBuilder.LBracket` | src/tokens.rs:89-92 | appends `Glyph(LBracket)` and nothing else |
| `Tokens.ExpressionBuilder.RBracket` | src/tokens.rs:94-97 | appends `Glyph(RBracket)` and nothing else |
| `Tokens.ExpressionBuilder.Comma` | src/tokens.rs:99-102 | appends `Glyph(Comma)` and nothing else |
| `Tokens.ShortcutMatchesBinop` | src/tokens.rs:39-67 | `add`/`sub`/`mul`/`div`/`pow` leave a builder exactly as `binop` with the same operator does: one token appended |
| `Tokenizer.Message` | src/tokenizer.rs:36-44 | an error's text starts with "TokenizerError -> ", and an incorrect character's text ends with that character |
| `Tokenizer.NumberEnd` | src/tokenizer.rs:83-103 | a number scan stops within the input and, from a digit, takes at least one character |
| `Tokenizer.NameEnd` | src/tokenizer.rs:120-130 | a name scan stops within the input and, from a letter, takes at least one character |
| `Tokenizer.NumberEndIsMaximalRun` | src/tokenizer.rs:83-105 | the number lexeme is the maximal run of digits with at most one '.'; a second '.' ends it and is not consumed |
| `Tokenizer.NameEndIsMaximalRun` | src/tokenizer.rs:120-132 | the name lexeme is the maximal run of lowercase letters; the next character is not consumed |
| `Tokenizer.ReadSymbol` | src/tokenizer.rs:55-68 | on exhausted input gives `EmptyToken`; otherwise consumes exactly one character, maps a symbol to its fixed token (`-` to `Sub`), and gives `IncorrectCharacter` for any other character |
| `Tokenizer.ReadNumber` | src/tokenizer.rs:75-106 | on exhausted input gives `EmptyToken`; otherwise returns `Const` of the maximal number lexeme, stopping where `NumberEnd` says; the lexeme is one that `f32` parsing accepts |
| `Tokenizer.NumberLexemeParses` | src/tokenizer.rs:91-105 | from a valid start, the collected buffer is non-empty, has a digit and has at most one '.', so `parse().unwrap()` does not panic |
| `Tokenizer.ReadName` | src/tokenizer.rs:113-133 | on exhausted input gives `EmptyToken`; otherwise returns `Name` of the maximal letter run |
| `Tokenizer.Tokenize` | src/tokenizer.rs:137-159 | returns exactly `LexFrom(s, 0)`: the dispatch on the peeked character, with spaces skipped and the first error returned with no partial list; each loop turn consumes at least one character |
| `Tokenizer.NeverEmptyToken` | src/tokenizer.rs:142-148 | `tokenize` never returns `EmptyToken`, since a sub-lexer is called only after a character it accepts has been peeked |
| `Tokenizer.ErrorNamesARejectedCharacter` | src/tokenizer.rs:142-154 | every failure is `IncorrectCharacter` carrying a character of the input that is not a symbol, digit, lowercase letter or space |
| `Tokenizer.AcceptedInputLexes` | src/tokenizer.rs:142-158 | input made only of symbols, digits, lowercase letters and spaces always lexes |
| `Tokenizer.RejectedCharacterFails` | src/tokenizer.rs:142-154 | conversely, any character other than a symbol, digit, lowercase letter, space or '.' in the rest of the input makes the whole call fail, so no other whitespace is skipped |
| `Tokenizer.FirstRejectedIsReported` | src/tokenizer.rs:142-154 | when every character before position k is accepted and s[k] is rejected (and is not '.'), the call fails with `IncorrectCharacter` of exactly s[k], whatever follows: the first rejected character is the one reported |
| `Tokenizer.NumberEndPrefix` | src/tokenizer.rs:83-105 | a number scan that stops before a non-number character at k ends at the same place in `s[..k]` as in `s`: it never looks past k |
| `Tokenizer.NameEndPrefix` | src/tokenizer.rs:120-132 | a name scan that stops before a non-letter at k ends at the same place in `s[..k]` as in `s` |
| `Tokenizer.RejectedAfterLexedPrefix` | src/tokenizer.rs:142-154 | in general, when the input before position k lexes on its own (decimal numbers included) and s[k] is rejected (not '.'), the call fails with `IncorrectCharacter` of exactly s[k]: the first rejected character is the one reported |
| `Tokenizer.DecimalThenRejected` | src/tokenizer.rs:142-154 | "1.5#" fails with `IncorrectCharacter("#")`: the number takes "1.5" and '#' is reported |
| `Tokenizer.FirstOfTwoRejected` | src/tokenizer.rs:142-154 | "a#b$" fails with `IncorrectCharacter("#")`, not "$" |
| `Tokenizer.TabIsRejected` | src/tokenizer.rs:142-158 | "1\t2" fails with `IncorrectCharacter("\t")`, while "1 2" lexes to two constants |
| `Tokenizer.LexemesSpellInput` | src/tokenizer.rs:137-158 | on success, the tokens' lexemes concatenated give the input with its spaces removed |
| `Tokenizer.SecondDotEndsNumber` | src/tokenizer.rs:89-92 | "1.2.3" scans the number "1.2" and then fails on '.' |
| `Tokenizer.MinusIsAlwaysSub` | src/tokenizer.rs:60 | a '-' always produces `Sub`; there is no unary form |
| `Evaluator.Evaluate` | src/evaluator.rs:10-43 | returns exactly `Evaluation`: the first error of the stack machine, `MissingResult` on an empty final stack, or else the top of that stack |
| `Evaluator.StackHeight` | src/evaluator.rs:13-40 | while no error has occurred, the stack height is the starting height plus the number of `Const`s minus the number of binary operators |
| `Evaluator.RunSucceedsIff` | src/evaluator.rs:13-40 | a run succeeds exactly when every token is a `Const`, or a binary operator that finds at least two values on the stack |
| `Evaluator.FirstBadTokenDecidesError` | src/evaluator.rs:15-38 | the first token that cannot run decides the error: `MissingArgument` for an operator short of values, `NotImplemented` for `Pow`, brackets and names |
| `Evaluator.StepIgnoresDeeperValues` | src/evaluator.rs:16-35 | one token that applies to a stack applies the same way with more values beneath it, and leaves them untouched |
| `Evaluator.RunIgnoresDeeperValues` | src/evaluator.rs:15-35 | values below the starting stack are neither read nor changed |
| `Evaluator.RunAppend` | src/evaluator.rs:13-40 | running `a + b` is running `a`, then `b` from the stack `a` left |
| `Evaluator.PopOrder` | src/evaluator.rs:16-42 | `x y op` evaluates to `x op y` for each of `+ - * /`: the first value popped (`n1`, the top) is the right operand, so `-` and `/` are not swapped |
| `Evaluator.Compose` | src/evaluator.rs:16-35 | if `a` and `b` each evaluate to one value `x` and `y`, then `a b op` evaluates to `x op y` |
| `Evaluator.Examples` | src/evaluator.rs:15-42 | `[Const a]` gives `a`; `[Const a, Const b, Sub]` gives `a - b`; `[Const a, Const b]` gives `b` and discards `a`; `[Add]` gives `MissingArgument`; `Pow` gives `NotImplemented`; `[]` gives `MissingResult` |
| `AppContext.Context.constructor` | src/app_context.rs:9-11 | the map starts empty, so `var(n)` is `None` for every name |
| `AppContext.Context.Var` | src/app_context.rs:13-15 | is `Some(v)` exactly when the name is stored with value `v`; it only reads |
| `AppContext.Context.SetVar` | src/app_context.rs:17-19 | after `set_var(n, v)`, `var(n)` is `Some(v)` and `var(m)` is unchanged for every `m ≠ n`; a later write replaces an earlier one |
| `AppContext.Session` | src/app_context.rs:9-19 | on a fresh context: nothing is defined; a set name reads back its value; writing another name leaves it alone; a second write overwrites |

## Left out

- `src/main.rs` is not part of this model. It is the read-print loop on stdin/stdout. It also calls `shunting_yard`, `validate`, `EvalOutput` and a two-argument `evaluate`, none of which exists in these files.
- `src/parser.rs` is not part of this model. Its `Validator::validate` always succeeds. It has no grammar checks and no infix-to-postfix conversion.
- Tokenizer.ReadNumber: the `f32` value that `buffer.parse().unwrap()` produces is not modelled. The token keeps its lexeme, and the model proves only that the lexeme parses.
- Tokenizer.ReadNumber: requires that the scan starts at a digit, or at a '.' followed by a digit. From any other start the Rust code panics on `unwrap`. `tokenize` always calls it on a digit.
- Evaluator.Evaluate: `f32` arithmetic is a parameter (`Arith`). Rounding, overflow to infinity, NaN and division by zero are not modelled.
- Tokens.ShowTokenReadsBack: Rust's float formatting is a parameter (`showScalar`). Nothing is claimed about the text of a `Scalar`.
- Tokens.ExpressionBuilder.Display: requires a non-empty builder. In Rust, `len - 1` on an empty `Vec` underflows and the call panics. Write errors from the formatter (`fmt::Result`) are not modelled: the text is returned as a string.
- Tokens.ExpressionBuilder.Add: the Rust builder methods take the builder by value and return it. The model updates one object in place, which has the same effect on `vec`. Aliasing of builders is not modelled.
- The `Lexer` trait is not modelled as a trait. Its three implementations are three methods.
- The derived `Debug`, `Clone` and `PartialEq` impls are not modelled. Dafny's structural equality on the datatypes differs from the derived `PartialEq` on `Val(Scalar(NaN))`: an `f32` NaN is unequal to itself in Rust, while the model's `real` has no NaN and its equality is reflexive.
- The nested token type of `src/tokens.rs` and the flat token type of the lexer and evaluator are not reconciled.
