/**
 The interface to the llama.cpp inference engine, seen from the generation
 core. Every foreign call is an uninterpreted total function: the model fixes
 which calls happen and with which arguments, never what they compute.
 */
module Llama {
  import opened Common

  /** One foreign sampler call issued by `sampleTokenWithModel`, with its arguments. */
  datatype SamplerCall =
    | RepetitionPenalties(lastTokens: seq<Token>, lastN: int, freq: real, repeat: real, present: real)
    | Greedy
    | Temperature(temp: real)
    | Mirostat(tau: real, eta: real, mu: real, m: int)
    | MirostatV2(tau: real, eta: real, mu: real)
    | TopK(k: int, minKeep: nat)
    | TailFree(z: real, minKeep: nat)
    | Typical(p: real, minKeep: nat)
    | TopP(p: real, minKeep: nat)
    | Draw
  {
    /** The calls that return the sampled token id. */
    predicate Picks() { Greedy? || Mirostat? || MirostatV2? || Draw? }
  }

  /**
   The engine's primitives.
   - `evalStatus(history, batch, nPast)`: the status `llama_eval` returns when
     `batch` is evaluated after the tokens `history` with offset `nPast`;
   - `logits(history, batch, nPast, j)`: row `j` of `llama_get_logits` after
     that evaluation;
   - `choose(i, calls, row)`: the token id the `i`-th sampling call of a
     generation returns, given the issued sampler calls and the candidate
     logits (this also stands for the random source, indexed per generation);
   - `piece(t)`: the bytes of `tokenToByte(t)` (`llama_token_to_piece`);
   - `tokenize(s)`: `tokenizeFull(s)`; `bos`: `llama_token_bos`;
   - `decode(b)`: Python's `b.decode("utf8", errors="ignore")`.
   */
  datatype Engine = Engine(
    evalStatus: (seq<Token>, seq<Token>, int) -> int,
    logits: (seq<Token>, seq<Token>, int, nat) -> Row,
    choose: (nat, seq<SamplerCall>, Row) -> Token,
    piece: Token -> Bytes,
    tokenize: string -> seq<Token>,
    bos: Token,
    decode: Bytes -> string)

  /** The engine never reports an evaluation failure. */
  ghost predicate NeverFails(e: Engine)
  {
    forall h, b, p :: e.evalStatus(h, b, p) == 0
  }
}
