/** Tokens and the logits a model gives them. */
module Logits {
  type Token = int

  /** A logit: a finite number, or the minus infinity a grammar writes over a refused token. */
  datatype Logit = MinusInfinity | Finite(value: real)

  /** One logit per token of the vocabulary, in token order. */
  type LogitRow = seq<Logit>
}
