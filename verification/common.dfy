/**
 Shared vocabulary of the model: token ids, byte strings, logit rows, the
 exceptions the generation core can raise, and Python's substring search
 (`str.find`, `bytes.find`, the `in` operator and `bytes.index`).
 */
module Common {

  /** A `llama_token` is a C int. */
  type Token = int

  /** Raw bytes as produced by `llama_token_to_piece`. */
  type Bytes = seq<bv8>

  /** One row of logits; the floats are modelled as reals. */
  type Row = seq<real>

  /** The exceptions the core raises, each ending the generation call. */
  datatype Error =
    | EvaluationError   // llama_eval returned a non-zero status (warnAndExit raises RuntimeError)
    | ContextOverflow   // a slice does not fit into the inputIds/scores arrays (numpy raises ValueError)
    | WindowSizeError   // the ctypes penalty-window array cannot be built from its initialisers
    | IndexError        // a logit-bias key outside the vocabulary, or no scores row evaluated yet

  datatype Result<+T> = Ok(value: T) | Err(error: Error) {
    predicate IsFailure() { Err? }

    function PropagateFailure<U>(): Result<U>
      requires Err?
    {
      Err(error)
    }

    function Extract(): T
      requires Ok?
    {
      value
    }
  }

  datatype Option<+T> = None | Some(value: T)

  function Min(a: int, b: int): int { if a <= b then a else b }

  function Max(a: int, b: int): int { if a <= b then b else a }

  /** `n` copies of token id 0, the padding of the penalty window. */
  function Zeros(n: nat): (r: seq<Token>)
    ensures |r| == n
    ensures forall i :: 0 <= i < n ==> r[i] == 0
  {
    seq(n, _ => 0)
  }

  /** `sub` occurs in `s` starting at position `i`. */
  predicate OccursAt<T(==)>(s: seq<T>, sub: seq<T>, i: int)
  {
    0 <= i <= |s| - |sub| && s[i..i + |sub|] == sub
  }

  /** `sub in s` for Python strings and bytes (the empty pattern occurs everywhere). */
  ghost predicate Occurs<T>(s: seq<T>, sub: seq<T>)
  {
    exists i :: OccursAt(s, sub, i)
  }

  /** Python's `s.find(sub)`: the lowest start of an occurrence, or -1. */
  function Find<T(==)>(s: seq<T>, sub: seq<T>): (r: int)
    ensures r == -1 <==> !Occurs(s, sub)
    ensures r != -1 ==> OccursAt(s, sub, r)
    ensures r != -1 ==> forall j :: 0 <= j < r ==> !OccursAt(s, sub, j)
  {
    FindFrom(s, sub, 0)
  }

  function FindFrom<T(==)>(s: seq<T>, sub: seq<T>, from: nat): (r: int)
    requires forall j :: 0 <= j < from ==> !OccursAt(s, sub, j)
    ensures r == -1 <==> !Occurs(s, sub)
    ensures r != -1 ==> from <= r && OccursAt(s, sub, r)
    ensures r != -1 ==> forall j :: 0 <= j < r ==> !OccursAt(s, sub, j)
    decreases |s| - from
  {
    if from + |sub| > |s| then
      assert forall j :: from <= j ==> !OccursAt(s, sub, j);
      -1
    else if s[from..from + |sub|] == sub then
      assert OccursAt(s, sub, from);
      from
    else
      FindFrom(s, sub, from + 1)
  }
}
