/**
 The bookkeeping and dispatch half of `sampleTokenWithModel`: the last-N
 token window handed to the repetition penalties, the multiplicative logit
 bias applied in place to the stored scores row, and the choice of the
 llama.cpp sampler chain. The samplers' numerics stay in the engine; the
 model records which of them run and with which arguments.
 */
module Sampler {
  import opened Common
  import opened Llama
  import opened Settings
  import opened ContextTracker

  /** `lastNTokensSize`: `n_keep`, or the whole context when `n_keep == -1`. */
  function WindowSize(nKeep: int, nCtx: nat): int
  {
    if nKeep != -1 then nKeep else nCtx
  }

  /** Python's `h[-k:]`. */
  function PySuffix(h: seq<Token>, k: int): (r: seq<Token>)
  {
    if k > 0 then h[|h| - Min(k, |h|)..]
    else if k == 0 then h
    else h[Min(-k, |h|)..]
  }

  /**
   The repetition-penalty window: `max(0, n_keep - len(history))` zero ids
   followed by `history[-size:]`, copied into a ctypes array of `size` ids
   that zero-fills what the initialisers leave open. Building the array fails
   for a negative size and for more initialisers than slots.
   */
  function PenaltyWindow(hist: seq<Token>, nKeep: int, nCtx: nat): (r: Result<seq<Token>>)
    requires |hist| <= nCtx
    ensures r.Ok? ==> |r.value| == WindowSize(nKeep, nCtx)
    ensures nKeep >= 1 ==>
      r == Ok(Zeros(Max(0, nKeep - |hist|)) + hist[|hist| - Min(nKeep, |hist|)..])
    ensures nKeep == -1 ==> r == Ok(hist + Zeros(nCtx - |hist|))
    ensures nKeep == 0 ==> (r.Ok? <==> hist == [])
    ensures nKeep < -1 ==> r == Err(WindowSizeError)
    ensures r.Err? ==> r.error == WindowSizeError
  {
    var size := WindowSize(nKeep, nCtx);
    var data := Zeros(Max(0, nKeep - |hist|)) + PySuffix(hist, size);
    if size < 0 || |data| > size then Err(WindowSizeError)
    else
      assert Zeros(0) == [];
      assert nKeep == -1 ==> data == hist;
      assert nKeep >= 1 ==> |data| == size && data + Zeros(size - |data|) == data;
      Ok(data + Zeros(size - |data|))
  }

  /** The entry numpy's `logits[key]` addresses in a row of `n` entries (negative keys count from the end). */
  function Slot(key: Token, n: nat): int
  {
    if key < 0 then key + n else key
  }

  /** `logits[key]` does not raise `IndexError`. */
  predicate InRow(key: Token, n: nat)
  {
    -(n as int) <= key < n
  }

  /**
   The value entry `i` of a row of `n` entries ends with when it starts as
   `x`: every bias whose key addresses `i` multiplies it, in dict order.
   */
  function Scaled(x: real, bias: seq<(Token, real)>, i: int, n: nat): real
    decreases |bias|
  {
    if bias == [] then x
    else Scaled(if Slot(bias[0].0, n) == i then x * bias[0].1 else x, bias[1..], i, n)
  }

  /**
   `for token, bias in logit_bias.items(): logits[token] = logits[token] * bias`,
   in place on the row, key after key; the first key outside the row raises.
   */
  function ApplyBias(row: Row, bias: seq<(Token, real)>): (r: Result<Row>)
    ensures r.Ok? <==> forall k :: 0 <= k < |bias| ==> InRow(bias[k].0, |row|)
    ensures r.Err? ==> r.error == IndexError
    ensures r.Ok? ==> |r.value| == |row|
    ensures r.Ok? ==> forall i :: 0 <= i < |row| ==> r.value[i] == Scaled(row[i], bias, i, |row|)
    decreases |bias|
  {
    if bias == [] then Ok(row)
    else
      var (key, b) := bias[0];
      if !InRow(key, |row|) then Err(IndexError)
      else
        var j := Slot(key, |row|);
        var row1 := row[j := row[j] * b];
        assert forall i :: 0 <= i < |row| ==> Scaled(row[i], bias, i, |row|) == Scaled(row1[i], bias[1..], i, |row|) by {
          forall i | 0 <= i < |row|
            ensures Scaled(row[i], bias, i, |row|) == Scaled(row1[i], bias[1..], i, |row|)
          {
            assert row1[i] == if Slot(bias[0].0, |row|) == i then row[i] * bias[0].1 else row[i];
          }
        }
        ApplyBias(row1, bias[1..])
  }

  /** An entry no bias key addresses keeps its logit. */
  lemma {:induction false} UnbiasedEntryKept(x: real, bias: seq<(Token, real)>, i: int, n: nat)
    requires forall k :: 0 <= k < |bias| ==> Slot(bias[k].0, n) != i
    ensures Scaled(x, bias, i, n) == x
    decreases |bias|
  {
    if bias != [] {
      UnbiasedEntryKept(x, bias[1..], i, n);
    }
  }

  /** An entry exactly one bias key addresses is multiplied by that bias: the bias is multiplicative, not additive. */
  lemma {:induction false} SingleBiasMultiplies(x: real, bias: seq<(Token, real)>, k: nat, n: nat)
    requires k < |bias|
    requires forall k' :: 0 <= k' < |bias| && k' != k ==> Slot(bias[k'].0, n) != Slot(bias[k].0, n)
    ensures Scaled(x, bias, Slot(bias[k].0, n), n) == x * bias[k].1
    decreases |bias|
  {
    var i := Slot(bias[k].0, n);
    if k == 0 {
      UnbiasedEntryKept(x * bias[0].1, bias[1..], i, n);
    } else {
      SingleBiasMultiplies(x, bias[1..], k - 1, n);
    }
  }

  /** Position of each sampler in llama.cpp's pipeline order. */
  function Stage(c: SamplerCall): nat
  {
    match c
    case RepetitionPenalties(_, _, _, _, _) => 0
    case TopK(_, _) => 1
    case TailFree(_, _) => 2
    case Typical(_, _) => 3
    case TopP(_, _) => 4
    case Temperature(_) => 5
    case Greedy => 6
    case Mirostat(_, _, _, _) => 6
    case MirostatV2(_, _, _) => 6
    case Draw => 6
  }

  /** Every truncating filter keeps at least one candidate. */
  predicate KeepsOne(c: SamplerCall)
  {
    match c
    case TopK(_, m) => m == 1
    case TailFree(_, m) => m == 1
    case Typical(_, m) => m == 1
    case TopP(_, m) => m == 1
    case _ => true
  }

  /**
   The sampler chain after the penalties: greedy when the temperature is 0,
   otherwise mirostat v1 (m = 100), then mirostat v2, both after temperature
   scaling and with `mu` created as `2 * tau` on every call, otherwise
   top-k, tail-free, typical with p = 1, top-p, temperature and a draw.
   */
  function Strategy(cfg: Config): (r: seq<SamplerCall>)
    ensures |r| > 0 && r[|r| - 1].Picks()
    ensures forall i :: 0 <= i < |r| - 1 ==> !r[i].Picks()
    ensures forall i, j :: 0 <= i < j < |r| ==> Stage(r[i]) < Stage(r[j])
    ensures forall i :: 0 <= i < |r| ==> KeepsOne(r[i])
    ensures r[|r| - 1].Greedy? <==> cfg.temperature == 0.0
    ensures r[|r| - 1].Mirostat? <==> cfg.temperature != 0.0 && cfg.mirostat == 1
    ensures r[|r| - 1].MirostatV2? <==> cfg.temperature != 0.0 && cfg.mirostat == 2
    ensures r[|r| - 1].Mirostat? ==> r[|r| - 1] == Mirostat(cfg.mirostatTau, cfg.mirostatEta, 2.0 * cfg.mirostatTau, 100)
    ensures r[|r| - 1].MirostatV2? ==> r[|r| - 1] == MirostatV2(cfg.mirostatTau, cfg.mirostatEta, 2.0 * cfg.mirostatTau)
    ensures forall i :: 0 <= i < |r| && r[i].Temperature? ==> r[i].temp == cfg.temperature
    ensures cfg.temperature != 0.0 ==> Temperature(cfg.temperature) in r
    ensures r[|r| - 1].Greedy? ==> |r| == 1
    ensures r[|r| - 1].Mirostat? || r[|r| - 1].MirostatV2? ==> |r| == 2 && r[0] == Temperature(cfg.temperature)
    ensures r[|r| - 1].Draw? ==> |r| == 6 && r[0] == TopK(cfg.topK, 1) && r[1] == TailFree(cfg.tfsZ, 1)
                                  && r[2] == Typical(1.0, 1) && r[3] == TopP(cfg.topP, 1)
  {
    if cfg.temperature == 0.0 then
      [Greedy]
    else if cfg.mirostat == 1 then
      [Temperature(cfg.temperature), Mirostat(cfg.mirostatTau, cfg.mirostatEta, 2.0 * cfg.mirostatTau, 100)]
    else if cfg.mirostat == 2 then
      [Temperature(cfg.temperature), MirostatV2(cfg.mirostatTau, cfg.mirostatEta, 2.0 * cfg.mirostatTau)]
    else
      [TopK(cfg.topK, 1), TailFree(cfg.tfsZ, 1), Typical(1.0, 1), TopP(cfg.topP, 1),
       Temperature(cfg.temperature), Draw]
  }

  /** With temperature 0 the chain is greedy whatever mirostat, top-k, top-p or tail-free say. */
  lemma GreedyIgnoresOtherSettings(c1: Config, c2: Config)
    requires c1.temperature == 0.0 && c2.temperature == 0.0
    ensures Strategy(c1) == Strategy(c2) == [Greedy]
  {
  }

  /** What one sampling call leaves behind: the tracker, the biased candidate logits and the sampler calls. */
  datatype Sampling = Sampling(tracker: Tracker, candidates: Row, calls: seq<SamplerCall>)

  /**
   `sampleTokenWithModel` up to the foreign samplers: build the penalty
   window from `inputIds[:pastTokens]`, take the last evaluated scores row,
   bias it in place, and issue the penalties followed by the strategy chain.
   */
  function SampleStep(t: Tracker, cfg: Config): (r: Result<Sampling>)
    requires t.Valid()
    ensures r.Ok? <==>
      && PenaltyWindow(t.History(), cfg.nKeep, t.nCtx).Ok?
      && t.pastTokens > 0
      && forall k :: 0 <= k < |cfg.logitBias| ==> InRow(cfg.logitBias[k].0, |t.scores[t.pastTokens - 1]|)
    ensures r.Ok? ==>
      var p := t.pastTokens;
      && r.value.tracker == t.(scores := t.scores[p - 1 := r.value.candidates])
      && |r.value.candidates| == |t.scores[p - 1]|
      && (forall i :: 0 <= i < |t.scores[p - 1]| ==>
            r.value.candidates[i] == Scaled(t.scores[p - 1][i], cfg.logitBias, i, |t.scores[p - 1]|))
      && r.value.calls ==
           [RepetitionPenalties(PenaltyWindow(t.History(), cfg.nKeep, t.nCtx).value, WindowSize(cfg.nKeep, t.nCtx),
                                cfg.frequencyPenalty, cfg.repeatPenalty, cfg.presencePenalty)]
           + Strategy(cfg)
  {
    var window :- PenaltyWindow(t.History(), cfg.nKeep, t.nCtx);
    if t.pastTokens == 0 then
      Err(IndexError)
    else
      var p := t.pastTokens;
      var biased :- ApplyBias(t.scores[p - 1], cfg.logitBias);
      var penalties := RepetitionPenalties(window, WindowSize(cfg.nKeep, t.nCtx),
                                           cfg.frequencyPenalty, cfg.repeatPenalty, cfg.presencePenalty);
      Ok(Sampling(t.(scores := t.scores[p - 1 := biased]), biased, [penalties] + Strategy(cfg)))
  }
}
