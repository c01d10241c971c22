/**
 The per-run parameters the generation core reads from `LLMUtils.LLMConfig`
 (the configuration class itself is not part of this model).
 */
module Settings {
  import opened Common

  datatype Config = Config(
    nCtx: int,                        // parameters.nCtx, the prompt-length limit
    logitsAll: bool,
    nKeep: int,                       // penalty window size, -1 for the whole context
    logitBias: seq<(Token, real)>,    // the logit_bias dict, in its iteration order
    temperature: real,
    mirostat: int,
    mirostatTau: real,
    mirostatEta: real,
    topK: int,
    tfsZ: real,
    topP: real,
    repeatPenalty: real,
    frequencyPenalty: real,
    presencePenalty: real,
    nPredict: int,
    antiPrompts: seq<string>,
    prompt: string)
}
