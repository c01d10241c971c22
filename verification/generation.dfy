/**
 `generateTokens` and `generate`: evaluate the pending tokens, sample one,
 stop on a stop token, otherwise accept it, append its bytes to the buffer,
 let the incomplete multi-byte guard decide whether the stop checks run, and
 stop on an anti-prompt or on the length cap.
 */
module Generation {
  import opened Common
  import opened Llama
  import opened Settings
  import opened ContextTracker
  import opened Sampler
  import opened Utf8
  import opened StreamDecoder

  /** `EOSToken`, fixed in `_init` rather than asked from the engine. */
  const EosToken: Token := 32000

  /** The further stop tokens `generate` checks. */
  const ExitTokens: seq<Token> := [32002, 32001]

  /** The batch size `generateTokens` evaluates with. */
  const EvalBatch: int := 64

  predicate IsStop(t: Token)
  {
    t == EosToken || t in ExitTokens
  }

  /** The bytes of `tokens`, piece after piece. */
  function Pieces(e: Engine, tokens: seq<Token>): Bytes
    decreases |tokens|
  {
    if tokens == [] then [] else e.piece(tokens[0]) + Pieces(e, tokens[1..])
  }

  /** The bytes of two runs of tokens are the bytes of each, one after the other. */
  lemma {:induction false} PiecesAppend(e: Engine, a: seq<Token>, b: seq<Token>)
    ensures Pieces(e, a + b) == Pieces(e, a) + Pieces(e, b)
    decreases |a|
  {
    if a == [] {
      assert a + b == b;
    } else {
      assert (a + b)[1..] == a[1..] + b;
      PiecesAppend(e, a[1..], b);
    }
  }

  /** `tokensToString`: the pieces gathered left to right into one buffer, then decoded. */
  method TokensToString(e: Engine, tokens: seq<Token>) returns (s: string)
    ensures s == e.decode(Pieces(e, tokens))
  {
    var buf: Bytes := [];
    for i := 0 to |tokens|
      invariant buf == Pieces(e, tokens[..i])
    {
      assert tokens[..i + 1] == tokens[..i] + [tokens[i]];
      PiecesAppend(e, tokens[..i], [tokens[i]]);
      buf := buf + e.piece(tokens[i]);
    }
    assert tokens[..|tokens|] == tokens;
    s := e.decode(buf);
  }

  /**
   What `generateTokens` evaluates after yielding `newToken`: the token
   itself followed by whatever the consumer sent back.
   */
  function NextBatch(newToken: Token, injected: seq<Token>): seq<Token>
  {
    [newToken] + injected
  }

  /** The anti-prompts as `a.encode("utf8")`, in configuration order. */
  function EncodeAll(aps: seq<string>): (r: seq<Bytes>)
    ensures |r| == |aps|
    ensures forall i :: 0 <= i < |aps| ==> r[i] == Encode(aps[i])
  {
    if aps == [] then [] else [Encode(aps[0])] + EncodeAll(aps[1..])
  }

  datatype StopReason =
    | StopToken
    | AntiPrompt(which: nat)
    | LengthCap
    | PromptTooLong

  /**
   The outcome of one `generate`: the returned text, why it stopped, the
   context left behind, the accepted tokens and the final byte buffer.
   */
  datatype Generation = Generation(text: string, reason: StopReason, tracker: Tracker, tokens: seq<Token>, buffer: Bytes)

  /**
   The loop's state between two evaluations: the context, the tokens the
   generator evaluates next, the tokens accepted so far, the byte buffer and
   `incompleteFix`.
   */
  datatype State = State(tracker: Tracker, pending: seq<Token>, tokens: seq<Token>, buffer: Bytes, fix: nat)

  /** Until the loop ends, the buffer holds exactly the bytes of the accepted tokens. */
  predicate Inv(e: Engine, st: State)
  {
    st.tracker.Valid() && st.buffer == Pieces(e, st.tokens)
  }

  datatype Outcome = Done(gen: Generation) | Next(state: State)

  /**
   How a generation that started in `st` may end: the text is the decode of
   the final buffer; no stop token was accepted; the buffer holds the bytes
   of all accepted tokens, or, after an anti-prompt, their prefix before the
   first anti-prompt found; the length cap fires only beyond `n_predict`;
   and every accepted token was evaluated except the last one when the loop
   broke right after accepting it.
   */
  ghost predicate Finished(e: Engine, cfg: Config, aps: seq<Bytes>, st: State, g: Generation)
    requires st.tracker.Valid()
  {
    && g.text == e.decode(g.buffer)
    && g.reason != PromptTooLong
    && g.tracker.Valid() && g.tracker.nCtx == st.tracker.nCtx
    && st.tokens <= g.tokens
    && (forall i :: |st.tokens| <= i < |g.tokens| ==> !IsStop(g.tokens[i]))
    && ((g.reason.StopToken? || g.reason.LengthCap?) ==> g.buffer == Pieces(e, g.tokens))
    && (g.reason.AntiPrompt? ==>
          && FirstAntiPrompt(aps, Pieces(e, g.tokens)) == Some(g.reason.which)
          && g.buffer == TruncateAt(Pieces(e, g.tokens), aps[g.reason.which]))
    && (g.reason.LengthCap? ==> |g.tokens| > cfg.nPredict)
    && (g.reason.StopToken? ==>
          g.tracker.History() == st.tracker.History() + st.pending + g.tokens[|st.tokens|..])
    && (!g.reason.StopToken? ==>
          && |g.tokens| > |st.tokens|
          && g.tracker.History() + [g.tokens[|g.tokens| - 1]] == st.tracker.History() + st.pending + g.tokens[|st.tokens|..])
  }

  /** What the loop promises after one more accepted token, which is not a stop token. */
  ghost predicate Advanced(e: Engine, st: State, st': State)
    requires st.tracker.Valid()
  {
    && Inv(e, st')
    && st'.tracker.nCtx == st.tracker.nCtx
    && st'.tracker.History() == st.tracker.History() + st.pending
    && |st'.tokens| == |st.tokens| + 1 && st.tokens <= st'.tokens
    && !IsStop(st'.tokens[|st.tokens|])
    && st'.pending == NextBatch(st'.tokens[|st.tokens|], [])
  }

  /**
   One pass of the loop body: the generator evaluates `pending` and samples;
   a stop token ends the loop without being accepted; otherwise the token is
   accepted, its bytes appended, the guard consulted, and the checks run.
   */
  function Step(e: Engine, cfg: Config, aps: seq<Bytes>, st: State): (r: Result<Outcome>)
    requires Inv(e, st)
    ensures r.Ok? <==> SampleToken(e, cfg, st).Ok?
    ensures r.Ok? ==> var tok := SampleToken(e, cfg, st).value.1;
      && (IsStop(tok) <==> r.value.Done? && r.value.gen.reason.StopToken?)
      && (r.value.Next? ==> r.value.state.tokens == st.tokens + [tok] && r.value.state.pending == [tok])
      && (r.value.Done? && !IsStop(tok) ==> r.value.gen.tokens == st.tokens + [tok])
      && (IsStop(tok) ==> r.value.gen.tokens == st.tokens && r.value.gen.buffer == st.buffer
                          && r.value.gen.tracker == SampleToken(e, cfg, st).value.0)
    ensures r.Ok? && r.value.Done? ==> Finished(e, cfg, aps, st, r.value.gen)
    ensures r.Ok? && r.value.Next? ==> Advanced(e, st, r.value.state)
  {
    var d :- SampleToken(e, cfg, st);
    Ok(Sampled(e, cfg, aps, st, d.0, d.1))
  }

  /**
   The generator's half of a pass: evaluate `pending` in batches of 64, then
   sample. It fails exactly when one of the two raises; the token is the
   engine's choice for this call's sampler calls and biased candidates, and
   the context has grown by exactly the pending tokens.
   */
  function SampleToken(e: Engine, cfg: Config, st: State): (r: Result<(Tracker, Token)>)
    requires st.tracker.Valid()
    ensures var ev := Evaluate(st.tracker, e, cfg.logitsAll, st.pending, EvalBatch);
      r.Ok? <==> ev.Ok? && SampleStep(ev.value.tracker, cfg).Ok?
    ensures r.Ok? ==>
      var s := SampleStep(Evaluate(st.tracker, e, cfg.logitsAll, st.pending, EvalBatch).value.tracker, cfg).value;
      r.value == (s.tracker, e.choose(|st.tokens|, s.calls, s.candidates))
    ensures r.Ok? ==> var t := r.value.0;
      t.Valid() && t.nCtx == st.tracker.nCtx && t.History() == st.tracker.History() + st.pending
  {
    var ev :- Evaluate(st.tracker, e, cfg.logitsAll, st.pending, EvalBatch);
    EvaluateHistory(st.tracker, e, cfg.logitsAll, st.pending, EvalBatch);
    var s :- SampleStep(ev.tracker, cfg);
    assert s.tracker.History() == ev.tracker.History();
    Ok((s.tracker, e.choose(|st.tokens|, s.calls, s.candidates)))
  }

  /**
   The loop body once `tok` is sampled and `t` is the context after
   evaluating `pending`.
   */
  function Sampled(e: Engine, cfg: Config, aps: seq<Bytes>, st: State, t: Tracker, tok: Token): (o: Outcome)
    requires Inv(e, st) && t.Valid() && t.nCtx == st.tracker.nCtx
    requires t.History() == st.tracker.History() + st.pending
    ensures IsStop(tok) <==> o.Done? && o.gen.reason.StopToken?
    ensures o.Next? ==> o.state.tracker == t && o.state.tokens == st.tokens + [tok] && o.state.pending == [tok]
    ensures o.Done? && !IsStop(tok) ==> o.gen.tracker == t && o.gen.tokens == st.tokens + [tok]
    ensures IsStop(tok) ==> o.Done? && o.gen.tracker == t && o.gen.tokens == st.tokens && o.gen.buffer == st.buffer
    ensures o.Done? ==> Finished(e, cfg, aps, st, o.gen)
    ensures o.Next? ==> Advanced(e, st, o.state)
  {
    if IsStop(tok) then Done(Stopped(e, st, t))
    else Accepted(e, cfg, aps, st, t, tok)
  }

  /**
   A stop token: nothing is accepted, evaluated or buffered on this pass.
   `finalString` is still empty here, so the source's length test keeps it
   empty exactly when one token was accepted, and otherwise decodes the
   accepted tokens' bytes; the text falls back to the decoded buffer when
   it is empty.
   */
  function Stopped(e: Engine, st: State, t: Tracker): (g: Generation)
    requires Inv(e, st) && t.Valid() && t.nCtx == st.tracker.nCtx
    requires t.History() == st.tracker.History() + st.pending
    ensures g.tokens == st.tokens && g.tracker == t && g.buffer == st.buffer
    ensures forall cfg: Config, aps: seq<Bytes> :: Finished(e, cfg, aps, st, g)
  {
    var tokens := st.tokens;
    var finalString := if |tokens| != 1 then e.decode(Pieces(e, tokens)) else "";
    var text := if finalString != "" then finalString else e.decode(st.buffer);
    var g := Generation(text, StopToken, t, tokens, st.buffer);
    assert g.tokens[|tokens|..] == [];
    g
  }

  /** An accepted token: its bytes are appended, the guard is consulted and the checks run. */
  function Accepted(e: Engine, cfg: Config, aps: seq<Bytes>, st: State, t: Tracker, tok: Token): (o: Outcome)
    requires Inv(e, st) && t.Valid() && t.nCtx == st.tracker.nCtx
    requires t.History() == st.tracker.History() + st.pending
    requires !IsStop(tok)
    ensures var buf' := st.buffer + e.piece(tok);
      var g := GuardStep(st.fix, buf');
      var c := Checks(e, cfg, aps, t, st.tokens + [tok], buf', g.inspect);
      && (o.Done? <==> c.Some?)
      && (o.Done? ==> o.gen == c.value)
      && (o.Next? ==> o.state == State(t, [tok], st.tokens + [tok], buf', g.fix))
    ensures o.Done? ==> Finished(e, cfg, aps, st, o.gen)
    ensures o.Next? ==> Advanced(e, st, o.state)
  {
    var tokens' := st.tokens + [tok];
    var buf' := st.buffer + e.piece(tok);
    assert buf' == Pieces(e, tokens') by {
      PiecesAppend(e, st.tokens, [tok]);
      assert Pieces(e, [tok]) == e.piece(tok);
    }
    var g := GuardStep(st.fix, buf');
    match Checks(e, cfg, aps, t, tokens', buf', g.inspect)
    case Some(gen) =>
      CheckedFinished(e, cfg, aps, st, t, tok, g.inspect);
      Done(gen)
    case None =>
      Next(State(t, NextBatch(tok, []), tokens', buf', g.fix))
  }

  /** A generation the checks end right after accepting `tok` ends as `st` promises. */
  lemma CheckedFinished(e: Engine, cfg: Config, aps: seq<Bytes>, st: State, t: Tracker, tok: Token, inspect: bool)
    requires Inv(e, st) && t.Valid() && t.nCtx == st.tracker.nCtx
    requires t.History() == st.tracker.History() + st.pending
    requires !IsStop(tok)
    requires st.buffer + e.piece(tok) == Pieces(e, st.tokens + [tok])
    requires Checks(e, cfg, aps, t, st.tokens + [tok], st.buffer + e.piece(tok), inspect).Some?
    ensures Finished(e, cfg, aps, st, Checks(e, cfg, aps, t, st.tokens + [tok], st.buffer + e.piece(tok), inspect).value)
  {
    var gen := Checks(e, cfg, aps, t, st.tokens + [tok], st.buffer + e.piece(tok), inspect).value;
    assert gen.tokens[|st.tokens|..] == [tok];
  }

  /** The rest of the loop from state `st`. */
  function Run(e: Engine, cfg: Config, aps: seq<Bytes>, st: State): (r: Result<Generation>)
    requires Inv(e, st)
    ensures r.Ok? ==> Finished(e, cfg, aps, st, r.value)
    decreases st.tracker.nCtx - st.tracker.pastTokens, if st.pending == [] then 1 else 0
  {
    var o :- Step(e, cfg, aps, st);
    match o
    case Done(g) => Ok(g)
    case Next(st') =>
      var r := Run(e, cfg, aps, st');
      if r.Ok? then
        FinishedAfterStep(e, cfg, aps, st, st', r.value);
        r
      else r
  }

  /** A generation that ends after one more accepted token ends as its start state promises. */
  lemma FinishedAfterStep(e: Engine, cfg: Config, aps: seq<Bytes>, st: State, st': State, g: Generation)
    requires Inv(e, st) && Advanced(e, st, st')
    requires Finished(e, cfg, aps, st', g)
    ensures Finished(e, cfg, aps, st, g)
  {
    var n := |st.tokens|;
    var tok := st'.tokens[n];
    assert g.tokens[n] == tok;
    assert g.tokens[n..] == [tok] + g.tokens[n + 1..];
    assert st.tracker.History() + st.pending + g.tokens[n..]
        == st'.tracker.History() + st'.pending + g.tokens[n + 1..];
  }

  /**
   The checks after an accepted token, in the source's order: none while the
   guard holds them back, then the first anti-prompt found in the buffer,
   then the length cap. `None` means the loop goes on.
   */
  function Checks(e: Engine, cfg: Config, aps: seq<Bytes>, t: Tracker, tokens: seq<Token>, buf: Bytes, inspect: bool)
    : (r: Option<Generation>)
    requires |tokens| > 0
    ensures r.Some? ==> inspect && r.value.tracker == t && r.value.tokens == tokens
    ensures r.Some? && buf == Pieces(e, tokens) ==> r.value.text == e.decode(r.value.buffer)
    ensures r.Some? ==> r.value.reason.AntiPrompt? || r.value.reason.LengthCap?
    ensures r.Some? && r.value.reason.LengthCap? ==> r.value.buffer == buf && |tokens| > cfg.nPredict
    ensures r.Some? && r.value.reason.AntiPrompt? ==> var k := r.value.reason.which;
      && FirstAntiPrompt(aps, buf) == Some(k)
      && r.value.buffer == TruncateAt(buf, aps[k])
    ensures inspect && FirstAntiPrompt(aps, buf).Some? ==> r.Some? && r.value.reason.AntiPrompt?
    ensures r.None? <==> !inspect || (FirstAntiPrompt(aps, buf).None? && |tokens| <= cfg.nPredict)
  {
    if !inspect then None
    else
      match FirstAntiPrompt(aps, buf)
      case Some(k) =>
        var cut := TruncateAt(buf, aps[k]);
        Some(Generation(e.decode(cut), AntiPrompt(k), t, tokens, cut))
      case None =>
        if |tokens| > cfg.nPredict then
          var finalString := e.decode(Pieces(e, tokens));
          var text := if finalString != "" then finalString else e.decode(buf);
          Some(Generation(text, LengthCap, t, tokens, buf))
        else None
  }

  /** The prompt's tokens: the tokenized prompt, or the lone BOS token for an empty prompt. */
  function PromptTokens(e: Engine, cfg: Config): seq<Token>
  {
    if cfg.prompt != "" then e.tokenize(cfg.prompt) else [e.bos]
  }

  /** The state the loop starts from: nothing accepted yet, the prompt pending, no countdown. */
  function Start(t: Tracker, prompt: seq<Token>): State
  {
    State(t, prompt, [], [], 0)
  }

  /**
   `generate`: a prompt of `nCtx` tokens or more (measured against the
   configured `nCtx`) returns "" without touching the context; otherwise the
   loop runs from the prompt, on the context as the previous call left it.
   */
  function Generate(e: Engine, t: Tracker, cfg: Config): (r: Result<Generation>)
    requires t.Valid()
    ensures |PromptTokens(e, cfg)| >= cfg.nCtx ==> r == Ok(Generation("", PromptTooLong, t, [], []))
    ensures |PromptTokens(e, cfg)| < cfg.nCtx && r.Ok? ==>
      Finished(e, cfg, EncodeAll(cfg.antiPrompts), Start(t, PromptTokens(e, cfg)), r.value)
  {
    var prompt := PromptTokens(e, cfg);
    if |prompt| >= cfg.nCtx then
      Ok(Generation("", PromptTooLong, t, [], []))
    else
      Run(e, cfg, EncodeAll(cfg.antiPrompts), Start(t, prompt))
  }

  /** Every token's bytes are single-byte (ASCII) characters. */
  ghost predicate AsciiPieces(e: Engine)
  {
    forall tok, i :: 0 <= i < |e.piece(tok)| ==> SeqLength(e.piece(tok)[i]) == 1
  }

  predicate AsciiBytes(b: Bytes)
  {
    forall i :: 0 <= i < |b| ==> SeqLength(b[i]) == 1
  }

  /** On ASCII bytes the guard never holds the checks back and the countdown stays at zero. */
  lemma AsciiNeverWithheld(buf: Bytes)
    requires AsciiBytes(buf)
    ensures GuardStep(0, buf) == Guard(0, true)
  {
    NoLeadKeepsCount(0, buf);
  }

  /**
   With ASCII pieces the length cap is never skipped, so a run that starts
   within the cap accepts at most `max(n_predict, 0) + 1` tokens.
   */
  lemma {:induction false} AsciiRunWithinCap(e: Engine, cfg: Config, aps: seq<Bytes>, st: State)
    requires Inv(e, st) && AsciiPieces(e) && AsciiBytes(st.buffer) && st.fix == 0
    requires |st.tokens| <= Max(cfg.nPredict, 0)
    requires Run(e, cfg, aps, st).Ok?
    ensures |Run(e, cfg, aps, st).value.tokens| <= Max(cfg.nPredict, 0) + 1
    decreases st.tracker.nCtx - st.tracker.pastTokens, if st.pending == [] then 1 else 0
  {
    var o := Step(e, cfg, aps, st).value;
    if o.Next? {
      var st' := o.state;
      AsciiStep(e, cfg, aps, st);
      AsciiRunWithinCap(e, cfg, aps, st');
    } else {
      AsciiStep(e, cfg, aps, st);
    }
  }

  /** One pass with ASCII pieces: the countdown stays zero and the checks always run. */
  lemma AsciiStep(e: Engine, cfg: Config, aps: seq<Bytes>, st: State)
    requires Inv(e, st) && AsciiPieces(e) && AsciiBytes(st.buffer) && st.fix == 0
    requires |st.tokens| <= Max(cfg.nPredict, 0)
    requires Step(e, cfg, aps, st).Ok?
    ensures var o := Step(e, cfg, aps, st).value;
      && (o.Done? ==> |o.gen.tokens| <= |st.tokens| + 1)
      && (o.Next? ==> o.state.fix == 0 && AsciiBytes(o.state.buffer) && |o.state.tokens| <= Max(cfg.nPredict, 0))
  {
    var d := SampleToken(e, cfg, st).value;
    if !IsStop(d.1) {
      AsciiAccepted(e, cfg, aps, st, d.0, d.1);
    }
  }

  /** An accepted ASCII token: the checks run, so the loop goes on only within the cap. */
  lemma AsciiAccepted(e: Engine, cfg: Config, aps: seq<Bytes>, st: State, t: Tracker, tok: Token)
    requires Inv(e, st) && t.Valid() && t.nCtx == st.tracker.nCtx
    requires t.History() == st.tracker.History() + st.pending
    requires !IsStop(tok)
    requires AsciiPieces(e) && AsciiBytes(st.buffer) && st.fix == 0
    requires |st.tokens| <= Max(cfg.nPredict, 0)
    ensures var o := Accepted(e, cfg, aps, st, t, tok);
      && (o.Done? ==> |o.gen.tokens| <= |st.tokens| + 1)
      && (o.Next? ==> o.state.fix == 0 && AsciiBytes(o.state.buffer) && |o.state.tokens| <= Max(cfg.nPredict, 0))
  {
    var buf' := st.buffer + e.piece(tok);
    assert AsciiBytes(buf');
    AsciiNeverWithheld(buf');
  }

  /** A generation on ASCII pieces accepts at most `max(n_predict, 0) + 1` tokens. */
  lemma AsciiGenerateWithinCap(e: Engine, t: Tracker, cfg: Config)
    requires t.Valid() && AsciiPieces(e)
    requires Generate(e, t, cfg).Ok?
    ensures |Generate(e, t, cfg).value.tokens| <= Max(cfg.nPredict, 0) + 1
  {
    if |PromptTokens(e, cfg)| < cfg.nCtx {
      AsciiRunWithinCap(e, cfg, EncodeAll(cfg.antiPrompts), Start(t, PromptTokens(e, cfg)));
    }
  }
}
