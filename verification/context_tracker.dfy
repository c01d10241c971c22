/**
 The context tracker of `LlamaModel`: the count of evaluated tokens
 (`pastTokens`), the token ids at each context position (`inputIds`) and the
 logit rows kept per position (`scores`), and `evaluate`, which feeds a token
 list to the engine in batches.
 */
module ContextTracker {
  import opened Common
  import opened Llama

  /** The tracker's part of `LlamaModel`; `nCtx` is the engine's context size. */
  datatype Tracker = Tracker(nCtx: nat, pastTokens: nat, inputIds: seq<Token>, scores: seq<Row>)
  {
    /** Both arrays are allocated with `nCtx` rows and the counter stays inside them. */
    predicate Valid()
    {
      |inputIds| == nCtx && |scores| == nCtx && pastTokens <= nCtx
    }

    /** The tokens evaluated so far, `inputIds[:pastTokens]`. */
    function History(): (h: seq<Token>)
      requires Valid()
      ensures |h| == pastTokens
    {
      inputIds[..pastTokens]
    }
  }

  /** One `llama_eval` call: the slice and the `n_past` passed with it. */
  datatype EvalCall = EvalCall(batch: seq<Token>, nPast: int)

  /** The result of a successful `evaluate`: the new tracker and the calls made. */
  datatype Evaluated = Evaluated(tracker: Tracker, calls: seq<EvalCall>)

  /** `n_past` for a slice of `n` tokens: `min(nCtx - n, len(inputIds[:pastTokens]))`. */
  function NPast(t: Tracker, n: nat): int
  {
    Min(t.nCtx - n, Min(t.pastTokens, t.nCtx))
  }

  /**
   One iteration of the `evaluate` loop: run `llama_eval` on the slice, then
   store the slice in `inputIds`, store the returned logit rows in `scores`
   (all of them with `logitsAll`, otherwise only the slice's last one) and
   advance `pastTokens`.
   */
  function Commit(t: Tracker, e: Engine, logitsAll: bool, call: EvalCall): (r: Result<Tracker>)
    requires t.Valid() && |call.batch| > 0
    ensures r.Ok? <==>
      e.evalStatus(t.History(), call.batch, call.nPast) == 0 && t.pastTokens + |call.batch| <= t.nCtx
    ensures r.Err? ==>
      r.error == (if e.evalStatus(t.History(), call.batch, call.nPast) != 0 then EvaluationError else ContextOverflow)
    ensures r.Ok? ==>
      var t' := r.value;
      && t'.Valid() && t'.nCtx == t.nCtx
      && t'.History() == t.History() + call.batch
      && forall i :: t'.pastTokens <= i < t.nCtx ==> t'.inputIds[i] == t.inputIds[i]
  {
    var p, n := t.pastTokens, |call.batch|;
    if e.evalStatus(t.History(), call.batch, call.nPast) != 0 then
      Err(EvaluationError)
    else if p + n > t.nCtx then
      Err(ContextOverflow)
    else
      var rows := if logitsAll then n else 1;
      var offset := if logitsAll then 0 else n - 1;
      var written := seq(rows, j requires 0 <= j < rows => e.logits(t.History(), call.batch, call.nPast, j));
      var t' := t.(pastTokens := p + n,
                   inputIds := t.inputIds[..p] + call.batch + t.inputIds[p + n..],
                   scores := t.scores[..p + offset] + written + t.scores[p + n..]);
      assert t'.inputIds[..p + n] == t.inputIds[..p] + call.batch;
      Ok(t')
  }

  /**
   The rows a committed slice writes: the engine's rows for the slice's
   positions with `logitsAll`, only its last position's row otherwise; every
   other row stays.
   */
  lemma CommitRows(t: Tracker, e: Engine, logitsAll: bool, call: EvalCall)
    requires t.Valid() && |call.batch| > 0 && Commit(t, e, logitsAll, call).Ok?
    ensures var t' := Commit(t, e, logitsAll, call).value;
      var p, n := t.pastTokens, |call.batch|;
      && |t'.scores| == t.nCtx
      && (forall i :: 0 <= i < t.nCtx && !(p <= i < p + n) ==> t'.scores[i] == t.scores[i])
      && (forall i :: p <= i < p + n ==>
            t'.scores[i] ==
              if logitsAll then e.logits(t.History(), call.batch, call.nPast, i - p)
              else if i == p + n - 1 then e.logits(t.History(), call.batch, call.nPast, 0)
              else t.scores[i])
  {
  }

  /**
   `evaluate(tokens, batch)`: for `i in range(0, len(tokens), batch)` commit
   the slice `tokens[i:min(len(tokens), i + batch)]`; with `batch <= 0`
   nothing happens. The first failing slice raises; the slices before it
   stay committed in the source, which the model does not track past the error.
   */
  function Evaluate(t: Tracker, e: Engine, logitsAll: bool, tokens: seq<Token>, batch: int): (r: Result<Evaluated>)
    requires t.Valid()
    ensures batch <= 0 || |tokens| == 0 ==> r == Ok(Evaluated(t, []))
    ensures r.Err? ==> r.error == EvaluationError || r.error == ContextOverflow
    ensures r.Ok? && batch > 0 && |tokens| > 0 ==> |r.value.calls| > 0
    ensures r.Ok? ==> r.value.tracker.Valid() && r.value.tracker.nCtx == t.nCtx
    decreases |tokens|
  {
    if batch <= 0 || |tokens| == 0 then
      Ok(Evaluated(t, []))
    else
      var n := Min(batch, |tokens|);
      var call := EvalCall(tokens[..n], NPast(t, n));
      var t1 :- Commit(t, e, logitsAll, call);
      var rest :- Evaluate(t1, e, logitsAll, tokens[n..], batch);
      Ok(Evaluated(rest.tracker, [call] + rest.calls))
  }

  /**
   A successful `evaluate` appends exactly the evaluated tokens to the
   history, in order, and keeps the context size; so it cannot succeed once
   the tokens do not fit into the context.
   */
  lemma {:induction false} EvaluateHistory(t: Tracker, e: Engine, logitsAll: bool, tokens: seq<Token>, batch: int)
    requires t.Valid() && batch > 0
    requires Evaluate(t, e, logitsAll, tokens, batch).Ok?
    ensures var t' := Evaluate(t, e, logitsAll, tokens, batch).value.tracker;
      && t'.Valid() && t'.nCtx == t.nCtx
      && t'.History() == t.History() + tokens
    ensures t.pastTokens + |tokens| <= t.nCtx
    decreases |tokens|
  {
    if |tokens| > 0 {
      var call, t1, rest := EvaluateUnfold(t, e, logitsAll, tokens, batch);
      var n := |call.batch|;
      EvaluateHistory(t1, e, logitsAll, tokens[n..], batch);
      assert tokens == tokens[..n] + tokens[n..];
    }
  }

  /** A successful `evaluate` leaves `inputIds` beyond the new `pastTokens` unchanged. */
  lemma {:induction false} EvaluateKeepsInputs(t: Tracker, e: Engine, logitsAll: bool, tokens: seq<Token>, batch: int)
    requires t.Valid() && batch > 0
    requires Evaluate(t, e, logitsAll, tokens, batch).Ok?
    ensures var t' := Evaluate(t, e, logitsAll, tokens, batch).value.tracker;
      && t'.Valid() && t'.nCtx == t.nCtx
      && forall i :: t'.pastTokens <= i < t.nCtx ==> t'.inputIds[i] == t.inputIds[i]
    decreases |tokens|
  {
    EvaluateHistory(t, e, logitsAll, tokens, batch);
    if |tokens| > 0 {
      var call, t1, rest := EvaluateUnfold(t, e, logitsAll, tokens, batch);
      EvaluateKeepsInputs(t1, e, logitsAll, tokens[|call.batch|..], batch);
      EvaluateHistory(t1, e, logitsAll, tokens[|call.batch|..], batch);
    }
  }

  /** A successful `evaluate` leaves every `scores` row outside the newly evaluated positions unchanged. */
  lemma {:induction false} EvaluateKeepsRows(t: Tracker, e: Engine, logitsAll: bool, tokens: seq<Token>, batch: int)
    requires t.Valid() && batch > 0
    requires Evaluate(t, e, logitsAll, tokens, batch).Ok?
    ensures var t' := Evaluate(t, e, logitsAll, tokens, batch).value.tracker;
      && t'.Valid() && t'.nCtx == t.nCtx
      && forall i :: 0 <= i < t.nCtx && !(t.pastTokens <= i < t'.pastTokens) ==> t'.scores[i] == t.scores[i]
    decreases |tokens|
  {
    EvaluateHistory(t, e, logitsAll, tokens, batch);
    if |tokens| > 0 {
      var call, t1, rest := EvaluateUnfold(t, e, logitsAll, tokens, batch);
      EvaluateKeepsRows(t1, e, logitsAll, tokens[|call.batch|..], batch);
      CommitRows(t, e, logitsAll, call);
    }
  }

  /** The `llama_eval` calls of a successful `evaluate` slice `tokens` as `range(0, len(tokens), batch)` does. */
  lemma {:induction false} EvaluateSlices(t: Tracker, e: Engine, logitsAll: bool, tokens: seq<Token>, batch: int)
    requires t.Valid() && batch > 0
    requires Evaluate(t, e, logitsAll, tokens, batch).Ok?
    ensures SlicedAs(Evaluate(t, e, logitsAll, tokens, batch).value.calls, tokens, batch, t.pastTokens, t.nCtx)
    decreases |tokens|
  {
    if |tokens| > 0 {
      var call, t1, rest := EvaluateUnfold(t, e, logitsAll, tokens, batch);
      EvaluateSlices(t1, e, logitsAll, tokens[|call.batch|..], batch);
      SlicedAsCons(call, rest.calls, tokens, batch, t.pastTokens, t.nCtx);
    }
  }

  /**
   After a successful `evaluate` of a non-empty list, the row sampling reads,
   `scores[pastTokens - 1]`, holds the logits the engine returned for the last
   slice: its last row with `logitsAll`, its only row otherwise.
   */
  lemma {:induction false} LastRowIsFresh(t: Tracker, e: Engine, logitsAll: bool, tokens: seq<Token>, batch: int)
    requires t.Valid() && batch > 0 && |tokens| > 0
    requires Evaluate(t, e, logitsAll, tokens, batch).Ok?
    ensures var ev := Evaluate(t, e, logitsAll, tokens, batch).value;
      |ev.calls| > 0 && LastRowWritten(ev.tracker, ev.calls[|ev.calls| - 1], e, logitsAll)
    decreases |tokens|
  {
    var call, t1, rest := EvaluateUnfold(t, e, logitsAll, tokens, batch);
    if |tokens| <= batch {
      CommitLastRow(t, e, logitsAll, call);
    } else {
      LastRowIsFresh(t1, e, logitsAll, tokens[|call.batch|..], batch);
    }
  }

  /** A successful `evaluate` of a non-empty list is its first slice's commit followed by the rest. */
  lemma EvaluateUnfold(t: Tracker, e: Engine, logitsAll: bool, tokens: seq<Token>, batch: int)
    returns (call: EvalCall, t1: Tracker, rest: Evaluated)
    requires t.Valid() && batch > 0 && |tokens| > 0
    requires Evaluate(t, e, logitsAll, tokens, batch).Ok?
    ensures call == EvalCall(tokens[..Min(batch, |tokens|)], NPast(t, Min(batch, |tokens|)))
    ensures Commit(t, e, logitsAll, call) == Ok(t1) && t1.Valid()
    ensures t1.pastTokens == t.pastTokens + |call.batch| && t1.nCtx == t.nCtx
    ensures Evaluate(t1, e, logitsAll, tokens[|call.batch|..], batch) == Ok(rest)
    ensures Evaluate(t, e, logitsAll, tokens, batch) == Ok(Evaluated(rest.tracker, [call] + rest.calls))
    ensures |tokens| <= batch ==> rest == Evaluated(t1, [])
  {
    var n := Min(batch, |tokens|);
    call := EvalCall(tokens[..n], NPast(t, n));
    t1 := Commit(t, e, logitsAll, call).value;
    rest := Evaluate(t1, e, logitsAll, tokens[n..], batch).value;
  }

  /** A committed slice leaves its own row at `pastTokens - 1`. */
  lemma CommitLastRow(t: Tracker, e: Engine, logitsAll: bool, call: EvalCall)
    requires t.Valid() && |call.batch| > 0 && Commit(t, e, logitsAll, call).Ok?
    ensures LastRowWritten(Commit(t, e, logitsAll, call).value, call, e, logitsAll)
  {
    var t1 := Commit(t, e, logitsAll, call).value;
    var n := |call.batch|;
    CommitRows(t, e, logitsAll, call);
    assert t1.pastTokens == t.pastTokens + n;
    assert t1.inputIds[..t1.pastTokens - n] == t1.History()[..t.pastTokens] == t.History();
    assert t1.scores[t.pastTokens + n - 1] ==
      e.logits(t.History(), call.batch, call.nPast, if logitsAll then n - 1 else 0);
  }

  /**
   `call` was the last slice evaluated into `t`: the row at `pastTokens - 1`
   is the engine's row for it, the last one with `logitsAll`, the only one otherwise.
   */
  predicate LastRowWritten(t: Tracker, call: EvalCall, e: Engine, logitsAll: bool)
  {
    var m := |call.batch|;
    && t.Valid() && 0 < m <= t.pastTokens
    && t.scores[t.pastTokens - 1] ==
       e.logits(t.inputIds[..t.pastTokens - m], call.batch, call.nPast, if logitsAll then m - 1 else 0)
  }

  /** The slices of `calls`, concatenated in call order. */
  function Flatten(calls: seq<EvalCall>): (r: seq<Token>)
  {
    if calls == [] then [] else calls[0].batch + Flatten(calls[1..])
  }

  /**
   The calls follow Python's `range(0, len(tokens), batch)` slicing: their
   slices, in order, are exactly `tokens`; each slice is non-empty and holds
   at most `batch` tokens, every slice but the last exactly `batch`; and each
   call passes `n_past = min(nCtx - len(slice), past + tokens before it)`.
   */
  ghost predicate SlicedAs(calls: seq<EvalCall>, tokens: seq<Token>, batch: int, past: nat, nCtx: nat)
  {
    && Flatten(calls) == tokens
    && (forall k :: 0 <= k < |calls| ==> 0 < |calls[k].batch| <= batch)
    && (forall k :: 0 <= k < |calls| - 1 ==> |calls[k].batch| == batch)
    && (forall k :: 0 <= k < |calls| ==> PastAt(calls, k, past, nCtx))
  }

  /** Call `k` starts after everything the earlier calls evaluated, clamped to the window. */
  ghost predicate PastAt(calls: seq<EvalCall>, k: nat, past: nat, nCtx: nat)
    requires k < |calls|
  {
    calls[k].nPast == Min(nCtx - |calls[k].batch|, past + |Flatten(calls[..k])|)
  }

  lemma SlicedAsCons(call: EvalCall, rest: seq<EvalCall>, tokens: seq<Token>, batch: int, past: nat, nCtx: nat)
    requires batch > 0 && |tokens| > 0 && past <= nCtx
    requires call == EvalCall(tokens[..Min(batch, |tokens|)], Min(nCtx - Min(batch, |tokens|), Min(past, nCtx)))
    requires SlicedAs(rest, tokens[Min(batch, |tokens|)..], batch, past + Min(batch, |tokens|), nCtx)
    ensures SlicedAs([call] + rest, tokens, batch, past, nCtx)
  {
    var calls := [call] + rest;
    var n := Min(batch, |tokens|);
    assert Flatten(calls) == tokens by {
      assert calls[1..] == rest;
      assert tokens[..n] + tokens[n..] == tokens;
    }
    assert forall k :: 0 <= k < |calls| ==> 0 < |calls[k].batch| <= batch by {
      assert forall k :: 1 <= k < |calls| ==> calls[k] == rest[k - 1];
    }
    assert forall k :: 0 <= k < |calls| - 1 ==> |calls[k].batch| == batch by {
      if rest != [] {
        assert Flatten(rest) != [];
        assert n == batch;
      }
      assert forall k :: 1 <= k < |calls| ==> calls[k] == rest[k - 1];
    }
    forall k | 0 <= k < |calls|
      ensures PastAt(calls, k, past, nCtx)
    {
      if k == 0 {
        assert calls[..0] == [];
      } else {
        assert PastAt(rest, k - 1, past + n, nCtx);
        FlattenConsPrefix(call, rest, k);
      }
    }
  }

  lemma FlattenConsPrefix(call: EvalCall, rest: seq<EvalCall>, k: nat)
    requires 1 <= k <= |rest| + 1
    ensures Flatten(([call] + rest)[..k]) == call.batch + Flatten(rest[..k - 1])
  {
    var p := ([call] + rest)[..k];
    assert p[0] == call && p[1..] == rest[..k - 1];
  }

  /** With an engine that never fails, `evaluate` succeeds exactly when the tokens fit into the context. */
  lemma {:induction false} EvaluateFitsIff(t: Tracker, e: Engine, logitsAll: bool, tokens: seq<Token>, batch: int)
    requires t.Valid() && batch > 0 && NeverFails(e)
    ensures Evaluate(t, e, logitsAll, tokens, batch).Ok? <==> t.pastTokens + |tokens| <= t.nCtx
    decreases |tokens|
  {
    if |tokens| > 0 {
      var n := Min(batch, |tokens|);
      var call := EvalCall(tokens[..n], NPast(t, n));
      var t1 := Commit(t, e, logitsAll, call);
      if t1.Ok? {
        EvaluateFitsIff(t1.value, e, logitsAll, tokens[n..], batch);
      }
    }
  }
}
