# melbaToastAI generation core, in Dafny

This project models the text-generation core of melbaToastAI's `LlamaModel`
(`src/LLMCore.py`) and the two line-oriented memory seeders of
`src/initMemoryDB.py`. Every call into llama.cpp is an uninterpreted total
function, a field of `Llama.Engine`. That covers evaluation status and
logits, the sampler's token choice, token pieces, tokenization, the BOS token
and Python's lossy UTF-8 decode. The model fixes which calls happen and with
which arguments, never what they compute.

Modules, leaves first:

- `Common`: token ids, bytes (`seq<bv8>`), logit rows and the exceptions the core raises. Also `Result`/`Option` and Python's substring search (`find`, `in`, `index`).
- `Llama`: the engine interface and the log of foreign sampler calls.
- `Settings`: the `LLMConfig` fields the core reads.
- `ContextTracker`: `pastTokens`, `inputIds`, `scores` and `evaluate`, with its batch slicing, `n_past`, row writes, and the errors for a failed evaluation or an overflowing context.
- `Sampler`: the repetition-penalty window, the in-place multiplicative logit bias, and the strategy dispatch. The dispatch is greedy, else mirostat v1, else mirostat v2, else the top-k → tail-free → typical → top-p → temperature → draw chain. It is recorded as a list of `SamplerCall`s.
- `Utf8`: lead-byte classes and `str.encode("utf8")` of RFC 3629, section 3.
- `StreamDecoder`: the incomplete multi-byte guard (`incompleteFix`), the first-anti-prompt search and the buffer truncation.
- `Generation`: `generateTokens`, `tokensToString` and `generate`. These cover stop tokens, the guard, anti-prompts, the `n_predict` cap and the prompt-length check.
- `PromptTemplates`: `loadPrompt`'s prompt source, type names and template fields, and `promptTemplate`'s `[inputText]` substitution.
- `MemoryInit`: `initSysPrompts` and `initCharacterMemory` over the list of lines a file yields. The `memDB.newDBEntry` calls become a list of `DbEntry` values.

Behaviours of the code that the model keeps as written:

- **Mirostat `mu`.** It is created as `2 * tau` on every sampling call, not kept for the length of a generation.
- **Context reuse.** `generate` does not reset the context, so a generation starts from the tracker the previous call left.
- **Context overflow.** A slice that does not fit raises only after `llama_eval` has run, because the numpy slice assignment raises. No check happens before evaluation.
- **Prompt length.** The prompt is measured against the configured `nCtx`, not the engine's.
- **Short buffers.** While the byte buffer holds fewer than three bytes, the guard's `3 - index` is not the distance from the end. So a three-byte character that arrives one byte per token into an empty buffer is inspected at every byte (`StreamDecoder.ShortBufferNotGuarded`). The model keeps this behaviour.
- **OpenChat 3.5 from a file.** `"openchat-3.5"` has a template branch but is missing from the supported list. Loading it from a file therefore switches generation off, yet installs its template (`PromptTemplates.OpenChatFromFile`).

## Model

| member | source | states |
|---|---|---|
| Common.Find | src/initMemoryDB.py:12 | `str.find`: -1 exactly when the pattern does not occur; otherwise an occurrence starts at the result and none starts earlier |
| Utf8.MasksAreLeadBytes | src/LLMCore.py:253-254 | the tests `pattern & c == pattern` for 0xC0/0xE0/0xF0 hold exactly for the bytes from 0xC0, 0xE0 and 0xF0 on: the RFC 3629 lead bytes of 2+, 3+ and 4-byte sequences, plus the unused bytes 0xF8-0xFF, which the guard also treats as four-byte leads |
| Utf8.EncodeChar | src/LLMCore.py:239 | one character encodes to one byte below U+0080, two below U+0800, three below U+10000 and four above; the lead byte announces that length and the rest are continuation bytes |
| Utf8.EncodeDecodeChar | src/LLMCore.py:239 | decoding a character's encoding gives back its code point (round trip) |
| Utf8.Encode | src/LLMCore.py:239 | a string's encoding has between one and four bytes per character |
| Utf8.EncodeOne | src/LLMCore.py:239 | a one-character string encodes as `EncodeChar` of that character; with `EncodeAppend` this fixes every byte of `Encode` |
| Utf8.EncodeAppend | src/LLMCore.py:239 | encoding distributes over concatenation |
| ContextTracker.Commit | src/LLMCore.py:102-117 | one slice: a non-zero eval status raises EvaluationError, then a slice past the end of the arrays raises ContextOverflow; otherwise the history grows by exactly the slice and `inputIds` beyond it is unchanged |
| ContextTracker.CommitRows | src/LLMCore.py:112-116 | a committed slice writes all its rows with `logitsAll`, else only its last position's row; every other scores row is unchanged |
| ContextTracker.CommitLastRow | src/LLMCore.py:112-117 | after a commit, row `pastTokens - 1` holds the engine's row for that slice |
| ContextTracker.Evaluate | src/LLMCore.py:96-117 | with `batch <= 0` or no tokens nothing changes and no call is made; it fails only with EvaluationError or ContextOverflow; a successful non-empty evaluation calls the engine |
| ContextTracker.EvaluateHistory | src/LLMCore.py:96-117 | a successful evaluate appends exactly the tokens, in order, to `inputIds[:pastTokens]`, keeps the context size, and so needs `pastTokens + len(tokens) <= nCtx` |
| ContextTracker.EvaluateFitsIff | src/LLMCore.py:96-117 | with an engine that never fails, evaluate succeeds if and only if the tokens fit into the context |
| ContextTracker.EvaluateKeepsInputs | src/LLMCore.py:111 | `inputIds` beyond the new `pastTokens` is untouched |
| ContextTracker.EvaluateKeepsRows | src/LLMCore.py:112-116 | every scores row outside the newly evaluated positions is untouched |
| ContextTracker.EvaluateSlices | src/LLMCore.py:97-105 | the eval calls' slices concatenate to the tokens; each slice is non-empty and at most `batch`, all but the last exactly `batch`; each passes `n_past = min(nCtx - len(slice), past + tokens before it)` |
| ContextTracker.LastRowIsFresh | src/LLMCore.py:112-127 | after a non-empty evaluate, the row sampling reads (`pastTokens - 1`) is the engine's row for the last slice |
| Sampler.PenaltyWindow | src/LLMCore.py:120-125 | for `n_keep >= 1`: `max(0, n_keep - len(history))` zeros then the last `min(n_keep, len(history))` tokens; for -1: the history padded with zeros to `nCtx`; for 0: only an empty history fits; other negatives fail |
| Sampler.ApplyBias | src/LLMCore.py:127-129 | succeeds exactly when every bias key indexes the row (negative keys from the end), else IndexError; every entry ends as its logit times every bias addressing it, in dict order |
| Sampler.UnbiasedEntryKept | src/LLMCore.py:128-129 | an entry no bias key addresses keeps its logit |
| Sampler.SingleBiasMultiplies | src/LLMCore.py:128-129 | an entry exactly one key addresses is multiplied by that bias (multiplicative, not additive) |
| Sampler.Strategy | src/LLMCore.py:148-194 | exactly the last call picks the token; calls follow llama.cpp's pipeline order; every filter keeps at least one candidate; greedy iff temperature 0, and then the only call; mirostat v1 (m = 100) or v2, with `mu = 2 * tau`, preceded only by the temperature call; else the six-call chain with typical p = 1 |
| Sampler.GreedyIgnoresOtherSettings | src/LLMCore.py:148-150 | at temperature 0 the chain is `[Greedy]` whatever the other settings |
| Sampler.SampleStep | src/LLMCore.py:119-146 | succeeds exactly when the window builds, a row was evaluated and every bias key fits; it then overwrites only the last evaluated row with the biased candidates and issues the penalties followed by the strategy |
| StreamDecoder.MatchLeadByte | src/LLMCore.py:253-255 | at offset `k`, a byte announcing `n > k` bytes sets the countdown to `n - k`; any other byte leaves it |
| StreamDecoder.GuardInspects | src/LLMCore.py:251-259 | the checks run exactly when no countdown was pending and no byte of the last three announces more bytes than the window holds from it on; a withheld token leaves the rescanned countdown less one |
| StreamDecoder.ScanZero | src/LLMCore.py:251-255 | the scan ends at zero exactly when it starts at zero and no byte from the given index on announces more bytes than remain |
| StreamDecoder.RescanCountsMissing | src/LLMCore.py:251-255 | with 3+ bytes buffered, a lead byte `j` bytes from the end followed only by continuation bytes sets the countdown to the number of bytes still missing |
| StreamDecoder.NoLeadKeepsCount | src/LLMCore.py:251-255 | when no byte of the tail announces more bytes than remain, the countdown is kept |
| StreamDecoder.WithheldUntilComplete | src/LLMCore.py:243-259 | with 2+ bytes buffered, a 3- or 4-byte character fed one byte per token is inspected only at its last byte |
| StreamDecoder.ThirdOfFourWithheld | src/LLMCore.py:251-256 | the third byte of a four-byte character is withheld whatever the countdown was, leaving one byte to come |
| StreamDecoder.LastByteInspected | src/LLMCore.py:251-259 | the byte completing a character does not raise the countdown, so it is inspected exactly when the countdown had run out |
| StreamDecoder.ShortBufferNotGuarded | src/LLMCore.py:251-252 | into an empty buffer, any three-byte character (U+0800 to U+FFFF) fed byte by byte is inspected at every byte |
| StreamDecoder.FirstAntiPrompt | src/LLMCore.py:261-263 | the first anti-prompt, in configuration order, that occurs in the buffer; none exactly when none occurs |
| StreamDecoder.TruncateAt | src/LLMCore.py:264 | the cut ends where the anti-prompt first occurs: it occurs there and at no earlier position; the cut is a prefix holding no occurrence of a non-empty anti-prompt |
| Generation.PiecesAppend | src/LLMCore.py:218-220 | the bytes of two token runs are the bytes of each, one after the other |
| Generation.TokensToString | src/LLMCore.py:217-221 | the decode of all tokens' pieces in order |
| Generation.EncodeAll | src/LLMCore.py:238-241 | each anti-prompt is UTF-8 encoded, in order |
| Generation.SampleToken | src/LLMCore.py:199-200 | succeeds exactly when evaluating the pending tokens and the sampling step both succeed; the token is the engine's choice on the sampling step's calls and candidates; the history grows by the pending tokens |
| Generation.Step | src/LLMCore.py:244-271 | one loop pass fails exactly when sampling fails; the sampled token ends the loop as a stop exactly when it is a stop token (32000, 32001 or 32002), and then the accepted tokens and the buffer are those before the pass; a continuing loop has accepted it and holds it pending; every end is as the start state promises (`Finished`), every continuation has a buffer holding exactly the accepted tokens' bytes, a history grown by exactly the pending tokens, and the new token pending |
| Generation.Sampled | src/LLMCore.py:245-249 | the loop ends as a stop exactly on a stop token, which is not accepted: tokens, buffer and context stay as they were before the token; any other token is appended to the accepted tokens, whether the loop ends or goes on with it pending |
| Generation.Stopped | src/LLMCore.py:245-247 | on a stop token nothing is accepted or buffered and the context is the one evaluated before sampling; the text is the decode of the buffer, which holds exactly the accepted tokens' bytes, and every accepted token was evaluated |
| Generation.Accepted | src/LLMCore.py:248-259 | an accepted token's bytes extend the buffer; the loop ends exactly when the checks end it, with their result; otherwise it continues with that token pending, the buffer extended and the guard's new countdown |
| Generation.Checks | src/LLMCore.py:257-271 | nothing while the guard holds back; otherwise the first anti-prompt in the buffer ends with the truncated buffer, else more than `n_predict` tokens end with the full buffer; otherwise the loop goes on |
| Generation.Run | src/LLMCore.py:244-274 | a finished loop: text is the decode of the final buffer; no stop token accepted; buffer = accepted bytes or the prefix before the first anti-prompt; the cap only beyond `n_predict`; every accepted token evaluated except one accepted just before a break |
| Generation.Generate | src/LLMCore.py:223-274 | a prompt of `nCtx` tokens or more returns "" and leaves the context; otherwise the generation finishes as `Run` promises |
| Generation.AsciiNeverWithheld | src/LLMCore.py:251-259 | on ASCII bytes the guard never holds the checks back |
| Generation.AsciiRunWithinCap | src/LLMCore.py:269-271 | with ASCII pieces, a run starting within the cap accepts at most `max(n_predict, 0) + 1` tokens |
| Generation.AsciiGenerateWithinCap | src/LLMCore.py:223-274 | a generation with ASCII pieces accepts at most `max(n_predict, 0) + 1` tokens |
| PromptTemplates.ReplaceAbsent | src/LLMCore.py:287 | `str.replace` leaves text without the pattern unchanged |
| PromptTemplates.ReplaceAfterPlain | src/LLMCore.py:341 | text that cannot start a match passes through `replace` verbatim |
| PromptTemplates.FillOneMarker | src/LLMCore.py:340-342 | a template with one `[inputText]` and no other `[` fills to prefix + input + suffix, even when the input contains the marker |
| PromptTemplates.Lower | src/LLMCore.py:300 | ASCII capitals become lower case; every other character is kept |
| PromptTemplates.ParseNames | src/LLMCore.py:299-338 | a type name selects a prompt type if and only if its lower-case form is that type's name |
| PromptTemplates.ParseName | src/LLMCore.py:300-332 | each type's own name selects it |
| PromptTemplates.SupportedTypes | src/LLMCore.py:283-290 | a name is on the supported list iff it selects a type other than OpenChat 3.5 |
| PromptTemplates.OpenChatNotListed | src/LLMCore.py:283 | `"openchat-3.5"` is not on the supported list |
| PromptTemplates.ChatTemplate | src/LLMCore.py:315-338 | the three chat types set a template of prefix, one `[inputText]`, suffix |
| PromptTemplates.OpenChatTemplate | src/LLMCore.py:322-323 | OpenChat 3.5: the user turn `GPT4 User:` and a newline, the marker, then the end-of-turn token, a newline and `GPT4 Assistant: ` |
| PromptTemplates.ZephyrTemplate | src/LLMCore.py:330-331 | Zephyr: the user tag and a newline, the marker, then `</s>`, a newline, the assistant tag and a newline |
| PromptTemplates.OpenHermesTemplate | src/LLMCore.py:337-338 | OpenHermes: the ChatML start tag with `user` and a newline, the marker, then the ChatML end tag, a newline, the start tag with `assistant` and a newline |
| PromptTemplates.TemplateWraps | src/LLMCore.py:299-342 | after loading a chat type, `promptTemplate(x)` is the type's prefix + x + suffix; for any other or unknown type it is "" |
| PromptTemplates.UnknownTypeKeepsFields | src/LLMCore.py:299-338 | an unknown type only clears the template; every other field keeps its value |
| PromptTemplates.LoadPromptEffects | src/LLMCore.py:282-338 | the fields depend on the type alone, not on the prompt source; generation is never switched back on, and is switched off only by a file prompt of an unsupported type |
| PromptTemplates.LoadPromptTwice | src/LLMCore.py:282-338 | loading the same prompt and type twice is loading them once |
| PromptTemplates.OpenChatFromFile | src/LLMCore.py:283-323 | an OpenChat 3.5 prompt from a file switches generation off yet installs its template |
| PromptTemplates.FilePromptWithoutName | src/LLMCore.py:287 | a file prompt without `{llmName}` is kept verbatim after the leading space |
| MemoryInit.HasMarker | src/initMemoryDB.py:12 | a marker test holds iff the marker occurs anywhere in the line |
| MemoryInit.StripCounts | src/initMemoryDB.py:13 | every newline is removed and every other character kept as often as it occurred; the length drops by the number of newlines |
| MemoryInit.StripAppend | src/initMemoryDB.py:13 | stripping distributes over concatenation, so the order of what stays is kept |
| MemoryInit.StripChar | src/initMemoryDB.py:13 | a lone newline disappears; any other character is kept |
| MemoryInit.SysPromptCount | src/initMemoryDB.py:11-18 | one prompt per splitter line, even an empty one, plus the final text only when it is not empty |
| MemoryInit.NoSplitterOnePrompt | src/initMemoryDB.py:11-18 | a file without splitters is one prompt, all lines joined without newlines, or none when the file is empty |
| MemoryInit.InitSysPrompts | src/initMemoryDB.py:6-21 | one `systemPrompt`/`generic` entry per system prompt, in file order |
| MemoryInit.CollectSysPrompts | src/initMemoryDB.py:7-18 | the line loop collects exactly the system prompts, in file order |
| MemoryInit.Characters | src/initMemoryDB.py:24-42 | names and information lists always have the same length, one per kept block |
| MemoryInit.IndexOf | src/initMemoryDB.py:45 | `list.index`: the first position holding the value |
| MemoryInit.CharacterEntries | src/initMemoryDB.py:43-45 | one `characterinformation` entry per name, in order; equal names get equal content; a name's first occurrence gets its own information |
| MemoryInit.CharacterCount | src/initMemoryDB.py:24-42 | one character per splitter line, even without information, plus the trailing block exactly when its information is not empty, whatever its name |
| MemoryInit.NameOnlyBlockDropped | src/initMemoryDB.py:31-42 | a start line right after a splitter names a block with no information, which is dropped |
| MemoryInit.InitCharacterMemory | src/initMemoryDB.py:23-45 | the entries are those of the kept blocks' names and information |
| MemoryInit.CollectCharacters | src/initMemoryDB.py:24-42 | the line loop (splitter before start line) collects exactly the kept blocks' names and information |
| MemoryInit.BuildEntries | src/initMemoryDB.py:43-45 | the entry loop produces one entry per name, using the information of the name's first occurrence |

## Left out

- Model loading, context creation, ctypes buffers, the thread warning, timing calls and the clock-seeded random seed (src/LLMCore.py:15-48, 237, 273). These are foreign calls or I/O. `Engine.choose` stands for the seeded sampler.
- Generation.SampleToken: the random source's state is not carried from one `generate` to the next. `choose` is indexed by the token's position within one generation, so two generations that reach the same position with the same sampler calls and candidates draw the same token, where the source's context-held random state keeps advancing across calls.
- The numerics of the llama.cpp samplers and float logits. Logits are reals that are never inspected except by the bias. The samplers are recorded as calls with their arguments.
- `tokenizeFull`, `tokenToByte` and Python's `decode(errors="ignore")` are engine functions (`tokenize`, `piece`, `decode`). This leaves out `tokenizeFull`'s negative-count return and the 32-byte piece assertion.
- `LlamaLlavaModel` (src/LLMCore.py:352 onwards): network fetch and foreign multimodal calls.
- `response`, `printPrompt`, `exit` and `reset`: pass-throughs, printing and engine teardown. `reset` re-runs `_init`, which only reallocates the tracker.
- `update` (src/LLMCore.py:78-80) replaces the configuration and sets `nCtx` without reallocating `inputIds` and `scores`. A larger `nCtx` then lets the arrays be shorter than the context. The model does not model `update`: `Tracker.Valid` requires the arrays to have exactly `nCtx` entries, and every operation keeps that.
- `loadPrompt`: the file read is a `FromFile(contents)` parameter. The `.replace` calls whose results are discarded (src/LLMCore.py:288, 309, 314) change nothing and are omitted.
- `loadPrompt` with `type=None` raises AttributeError at `type.lower()`. The model takes the type name as a string.
- PromptTemplates.Lower: models `str.lower()` on ASCII letters only, because the type names are ASCII and Unicode case mapping is not modelled.
- `initSwearWords` (src/initMemoryDB.py:47-56). It reads the already closed file handle.
- `memDB` persistence and the module-level calls (src/initMemoryDB.py:4, 59-61). Entries are returned as a list.
- ContextTracker.Evaluate: when a slice fails, the slices already committed stay in the source's arrays. The model returns the error and does not track that partial state.
- ContextTracker.Commit: with a vocabulary of one token, numpy broadcasting can let an overflowing slice through. The model assumes at least two tokens per row, so overflow always raises. Row width is not tracked.
- Generation.AsciiGenerateWithinCap: the length bound is proved only when every piece is ASCII. With multi-byte pieces the guard can skip the cap check, so no general bound holds.
- Generation.Run: exceptions leave the model's state undefined past the error. `Result.Err` carries only the exception kind.
- Sampler.SampleStep: mirostat's `mu` is passed by reference and updated by the engine. Because `mu` is recreated on every call, that update is never read again and is not modelled.
