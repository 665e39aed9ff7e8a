/**
  The flat token type that src/tokenizer.rs produces and src/evaluator.rs
  consumes (`Token::Const`, `Token::Name`, `Token::Add`, ...). src/tokens.rs
  does not define it (that file holds the nested type of module Tokens), so
  it is given here from its uses.

  The payload of `Const` is a type parameter: the lexer keeps the digit
  lexeme (a `string`), the evaluator works over any value type together with
  the four arithmetic operations it is given.
*/
module FlatTokens {

  datatype Token<V> =
    | Const(value: V)
    | Name(name: string)
    | Add
    | Sub
    | Mul
    | Div
    | Pow
    | LBracket
    | RBracket
  {
    /** The four operators the evaluator implements, each of which pops two values. */
    predicate IsArithmetic() {
      Add? || Sub? || Mul? || Div?
    }
  }
}
