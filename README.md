# Prompt-enhancement decoding and weights audit of zimage.swift, in Dafny

This project models the parts of the Z-Image Swift port that do exact,
checkable bookkeeping. The model has six modules.

- `KVCache` (`kv_cache.dfy`): the growable key/value cache of one attention
  layer (`KVCacheSimple`). `update` appends positions and reallocates in blocks
  of `step` positions. `reset` drops both buffers. The module also has the
  attention-mask rules: `makeMask`, `createCausalMask` and
  `createAttentionMask`. A buffer is a Dafny `array` along the time axis. Each
  element is an abstract row `T` that stands for the batch, head and head-dim
  axes. A missing buffer is `null`.
- `Sampling` (`sampling.dfy`): next-token sampling over one logit vector. It
  covers the repetition penalty, greedy argmax, nucleus (top-p) sampling with
  its keep rule and index mapping, plain categorical sampling, and the
  `sampleToken` dispatch. Logits are reals. Softmax, log, argSort and the
  random categorical draw are oracle functions (`Kernels`). `KernelsOk` states
  their shape facts and that argSort sorts in ascending order.
- `Generation` (`generation.dfy`): the decode loop of `generate`. It runs a
  prefill, then up to `maxNewTokens` rounds of sample, stop check, append and
  forward. Around it sit `enhancePrompt`'s eos override and the
  post-processing of the decoded text around `<think>` / `</think>`. The
  encoder's forward pass is an oracle `forward(context, input)`. It returns
  the last-position logits of `input` after the history `context` that the
  caches hold. The sampler in the loop is an oracle `sample(logits, history,
  key)`. `TokenSampler` instantiates it with `SampleToken`, and
  `TokenSamplerOk` connects the two.
- `WeightsAudit` (`weights_audit.dfy`): `WeightsAudit.audit`. It matches the
  flattened parameter names against the weight keys, trying the
  prefix-qualified name first. It reports the matched count, the missing names
  and the unused keys, and the samples of both lists that the log lines show.
- `StringOrder` (`lex_order.dfy`): the order `sorted()` puts the unused keys
  in, and a sort that produces it.

`Optional` (`option.dfy`) holds the `Option` type used for Swift optionals.

Two behaviours of the code are easy to misread, and the model follows the
code in both:

- The code does not keep the cache capacity a multiple of `step`
  (KVCache.swift:46-55). It trims an unaligned buffer to `offset` and then
  appends whole blocks, so the capacity can drift off the grid. `KVCache.CapacityDriftExample` shows a
  step-4 cache that reaches capacity 5. `KVCache.GrownCapacityAligned` gives
  the case where alignment is kept.
- The sampler's history is the whole token list, prompt included
  (QwenGeneration.swift:59-63), not only the emitted tokens. So the context window reaches
  into the prompt while fewer than `repetitionContextSize` tokens have been
  generated. `Generation.DecodeRoundToken` states the history the sampler
  gets.

## Model

| member | source | states |
|---|---|---|
| KVCache.CeilDiv | Sources/ZImage/Model/TextEncoder/LLMGeneration/KVCache.swift:40 | `nSteps` blocks of `step` cover the n new positions, and one block fewer would not |
| KVCache.GrownCapacity | Sources/ZImage/Model/TextEncoder/LLMGeneration/KVCache.swift:40-55 | the capacity after a grow: nothing, the offset (an unaligned buffer is trimmed) or the old capacity, plus GrowBy; GrownCapacityFits and GrownCapacityAligned state its bounds and alignment |
| KVCache.GrowBy | Sources/ZImage/Model/TextEncoder/LLMGeneration/KVCache.swift:40-44 | the zero block a grow appends is a multiple of `step`, at least n and less than n + step |
| KVCache.GrownCapacityFits | Sources/ZImage/Model/TextEncoder/LLMGeneration/KVCache.swift:34-62 | after a grow the capacity is at least previous + n, so the write to [previous, offset) is in bounds; the growth is bounded |
| KVCache.GrownCapacityAligned | Sources/ZImage/Model/TextEncoder/LLMGeneration/KVCache.swift:46-55 | a grow keeps the capacity a multiple of `step` when there was no buffer, or when the old capacity and the offset are aligned |
| KVCache.KVCacheSimple.constructor | Sources/ZImage/Model/TextEncoder/LLMGeneration/KVCache.swift:14-22 | a new cache has no buffers, offset 0 and the given step, and satisfies the cache invariant |
| KVCache.KVCacheSimple.Extended | Sources/ZImage/Model/TextEncoder/LLMGeneration/KVCache.swift:43-52 | the concatenated buffer is fresh, holds the kept prefix of the old buffer position by position, then zero filler |
| KVCache.KVCacheSimple.Grow | Sources/ZImage/Model/TextEncoder/LLMGeneration/KVCache.swift:34-57 | the reallocation keeps the offset and the valid keys and values, trims only an unaligned buffer, gives capacity GrownCapacity, and leaves room for n more positions |
| KVCache.KVCacheSimple.Store | Sources/ZImage/Model/TextEncoder/LLMGeneration/KVCache.swift:59-62 | the offset advances by n and the valid contents become the old valid contents followed by the new keys and values, in the same buffers |
| KVCache.KVCacheSimple.Update | Sources/ZImage/Model/TextEncoder/LLMGeneration/KVCache.swift:24-68 | offset grows by n; the returned keys and values are the previously valid ones followed by the new ones, and equal the buffers' valid prefix; buffers are kept when the positions fit and reallocated to GrownCapacity otherwise; the invariant (filler beyond offset is zero) is kept |
| KVCache.KVCacheSimple.MakeMask | Sources/ZImage/Model/TextEncoder/LLMGeneration/KVCache.swift:70-75 | no mask exactly when n is 1, causal for every other n, whatever the offset |
| KVCache.KVCacheSimple.Reset | Sources/ZImage/Model/TextEncoder/LLMGeneration/KVCache.swift:77-81 | both buffers are dropped and offset is 0, so the next update must allocate as a first update does |
| KVCache.Range | Sources/ZImage/Model/TextEncoder/LLMGeneration/KVCache.swift:85-86 | the integer range [lo, hi) as a sequence: length hi - lo, entry k is lo + k |
| KVCache.CreateCausalMask | Sources/ZImage/Model/TextEncoder/LLMGeneration/KVCache.swift:84-88 | an n by (n + offset) matrix whose entry (i, j) is true exactly when j <= offset + i |
| KVCache.CausalMaskRows | Sources/ZImage/Model/TextEncoder/LLMGeneration/KVCache.swift:84-88 | row i lets query i see exactly the offset + i + 1 keys up to its own position and none after |
| KVCache.CreateAttentionMask | Sources/ZImage/Model/TextEncoder/LLMGeneration/KVCache.swift:90-99 | no mask exactly when n is 1; with a cache the result is the cache's own makeMask |
| KVCache.CapacityDriftExample | Sources/ZImage/Model/TextEncoder/LLMGeneration/KVCache.swift:40-62 | with step 4, updates of 1 then 4 positions return all five in order and leave capacity 5, not a multiple of 4; after reset an update allocates afresh |
| Sampling.ScatterDetermined | Sources/ZImage/Model/TextEncoder/LLMGeneration/Sampling.swift:74-75 | when every listed index gets the value a fixed function gives it, the scatter sets exactly the listed indices to it and keeps the rest |
| Sampling.ApplyRepetitionPenalty | Sources/ZImage/Model/TextEncoder/LLMGeneration/Sampling.swift:58-77 | every listed id's logit is penalised once (negative times penalty, otherwise divided by it), every other logit is kept; no change for no ids or penalty 1 |
| Sampling.PenaltyDependsOnlyOnIdSet | Sources/ZImage/Model/TextEncoder/LLMGeneration/Sampling.swift:65-75 | only the set of listed ids matters: repeats and order do not change the result |
| Sampling.PenaltySuppresses | Sources/ZImage/Model/TextEncoder/LLMGeneration/Sampling.swift:68-72 | a penalty of at least 1 never raises a logit |
| Sampling.ContextTokens | Sources/ZImage/Model/TextEncoder/LLMGeneration/Sampling.swift:87 | `suffix(size)` is the last min(size, count) tokens of the history |
| Sampling.PenalizedLogits | Sources/ZImage/Model/TextEncoder/LLMGeneration/Sampling.swift:84-89 | with a penalty and a non-empty history, the logits of the ids in the context window are penalised and the rest kept; otherwise the logits are unchanged |
| Sampling.ArgMax | Sources/ZImage/Model/TextEncoder/LLMGeneration/Sampling.swift:29-31 | the index of a largest logit, the first among equal maxima |
| Sampling.TopPSample | Sources/ZImage/Model/TextEncoder/LLMGeneration/Sampling.swift:33-52 | the drawn token is a vocabulary index |
| Sampling.CategoricalSample | Sources/ZImage/Model/TextEncoder/LLMGeneration/Sampling.swift:54-56 | the draw from the tempered logits is a vocabulary index |
| Sampling.TopPWeights | Sources/ZImage/Model/TextEncoder/LLMGeneration/Sampling.swift:43-47 | one weight per sorted probability; NucleusWeights, NucleusIsSuffix and NucleusMass state which entries it keeps |
| Sampling.NucleusIsSuffix | Sources/ZImage/Model/TextEncoder/LLMGeneration/Sampling.swift:42-48 | over non-negative probabilities in ascending order, the entries kept by `cumsum > 1 - topP` form a suffix |
| Sampling.NucleusHoldsMostProbable | Sources/ZImage/Model/TextEncoder/LLMGeneration/Sampling.swift:40-48 | no dropped token is more probable than a kept one, and dropped positions come before kept ones |
| Sampling.NucleusNonEmpty | Sources/ZImage/Model/TextEncoder/LLMGeneration/Sampling.swift:42-48 | with probabilities summing to 1 and topP > 0, the most probable entry is always kept |
| Sampling.NucleusWeights | Sources/ZImage/Model/TextEncoder/LLMGeneration/Sampling.swift:44-48 | the top-p weights are zero before the first kept entry and the probabilities themselves from it on |
| Sampling.NucleusMass | Sources/ZImage/Model/TextEncoder/LLMGeneration/Sampling.swift:42-48 | the kept mass is at least topP and, without the least probable kept entry, less than topP: the nucleus is the smallest such suffix |
| Sampling.NucleusKeepsAll | Sources/ZImage/Model/TextEncoder/LLMGeneration/Sampling.swift:44-48 | when the least probable entry already clears the threshold, nothing is cut |
| Sampling.ChooseStrategy | Sources/ZImage/Model/TextEncoder/LLMGeneration/Sampling.swift:91-97 | greedy iff temperature is 0; nucleus iff temperature is not 0 and 0 < topP < 1; plain otherwise |
| Sampling.SampleToken | Sources/ZImage/Model/TextEncoder/LLMGeneration/Sampling.swift:79-98 | the sampled id is a vocabulary index; at temperature 0 its penalised logit is maximal |
| Sampling.GreedyIgnoresTopP | Sources/ZImage/Model/TextEncoder/LLMGeneration/Sampling.swift:91-92 | at temperature 0 the token is the argmax of the penalised logits, whatever topP, kernels and random key |
| Generation.SamplerConfig | Sources/ZImage/Model/TextEncoder/LLMGeneration/QwenGeneration.swift:52-58 | the sampler configuration copies temperature, topP, penalty and context size from the enhance configuration and takes maxNewTokens as maxTokens |
| Generation.IsStop | Sources/ZImage/Model/TextEncoder/LLMGeneration/QwenGeneration.swift:65 | a draw ends generation when it is in the stop set or equals the eos id |
| Generation.DefaultConfigs | Sources/ZImage/Model/TextEncoder/LLMGeneration/QwenGeneration.swift:14-22 | the defaults suit every non-empty vocabulary, choose nucleus sampling, stop on their own eos id, and agree with GenerationConfig's defaults except for the token budget |
| Generation.SamplerInputsFromHistory | Sources/ZImage/Model/TextEncoder/LLMGeneration/QwenGeneration.swift:52-63 | every token history of vocabulary ids is a valid sampler input under the configuration built from PromptEnhanceConfig |
| Generation.TokenSamplerOk | Sources/ZImage/Model/TextEncoder/LLMGeneration/QwenGeneration.swift:52-63 | the loop's sampler draws vocabulary ids and is sampleToken with the step's configuration on every valid input |
| Generation.DecodeFrom | Sources/ZImage/Model/TextEncoder/LLMGeneration/QwenGeneration.swift:49-74 | the decode rounds append at most `budget` tokens |
| Generation.Generation | Sources/ZImage/Model/TextEncoder/LLMGeneration/QwenGeneration.swift:34-77 | generation returns at most maxNewTokens tokens |
| Generation.DecodeTokensValid | Sources/ZImage/Model/TextEncoder/LLMGeneration/QwenGeneration.swift:59-69 | every appended token is a vocabulary id and neither a stop id nor the eos id |
| Generation.GenerationTokensValid | Sources/ZImage/Model/TextEncoder/LLMGeneration/QwenGeneration.swift:49-76 | the returned tokens are vocabulary ids, none of them a stop or eos id |
| Generation.DecodeRoundToken | Sources/ZImage/Model/TextEncoder/LLMGeneration/QwenGeneration.swift:49-72 | token i is the sampler's draw from the logits of the previous forward input, with the prompt and the i tokens before it as history, at round i |
| Generation.DecodeEndsOnStop | Sources/ZImage/Model/TextEncoder/LLMGeneration/QwenGeneration.swift:49-67 | when fewer tokens than the budget come out, the next draw was a stop or eos id, and it was not appended |
| Generation.FirstStopGivesNothing | Sources/ZImage/Model/TextEncoder/LLMGeneration/QwenGeneration.swift:46-67 | a prompt whose first draw is a stop or eos id yields no tokens |
| Generation.Generate | Sources/ZImage/Model/TextEncoder/LLMGeneration/QwenGeneration.swift:34-77 | the imperative loop returns exactly Generation(prompt, ...), and its log of forward calls is ForwardCalls: one prefill, then one single-token call per appended token |
| Generation.ForwardCalls | Sources/ZImage/Model/TextEncoder/LLMGeneration/QwenGeneration.swift:46-72 | a run that returned n tokens made 1 + n forward calls: a prefill over the prompt, then each appended token fed alone |
| Generation.FindFirst | Sources/ZImage/Model/TextEncoder/LLMGeneration/QwenGeneration.swift:101-103 | the first occurrence of the pattern at or after `from`, or None when there is none |
| Generation.Trim | Sources/ZImage/Model/TextEncoder/LLMGeneration/QwenGeneration.swift:102 | the trimmed text starts and ends with non-whitespace |
| Generation.TrimSlice | Sources/ZImage/Model/TextEncoder/LLMGeneration/QwenGeneration.swift:102 | trimming only removes whitespace: the result is the slice of the text between whitespace-only ends |
| Generation.TrimIdempotent | Sources/ZImage/Model/TextEncoder/LLMGeneration/QwenGeneration.swift:102 | trimming twice is trimming once |
| Generation.PostProcess | Sources/ZImage/Model/TextEncoder/LLMGeneration/QwenGeneration.swift:101-107 | the post-processed text is never longer than the decoded text; the three PostProcess lemmas give each case |
| Generation.PostProcessClosedThink | Sources/ZImage/Model/TextEncoder/LLMGeneration/QwenGeneration.swift:101-102 | with a `</think>`, the result is the trimmed text after its first occurrence |
| Generation.PostProcessUnclosedThink | Sources/ZImage/Model/TextEncoder/LLMGeneration/QwenGeneration.swift:103-104 | a `<think>` that is never closed yields the empty string |
| Generation.PostProcessPlain | Sources/ZImage/Model/TextEncoder/LLMGeneration/QwenGeneration.swift:101-107 | text with neither marker passes through unchanged |
| Generation.EffectiveConfig | Sources/ZImage/Model/TextEncoder/LLMGeneration/QwenGeneration.swift:93-96 | the tokenizer's eos id, when present, replaces the configured eos id and nothing else changes; without it the configuration is unchanged; stop set, token budget and sampler settings are kept |
| Generation.EnhancePrompt | Sources/ZImage/Model/TextEncoder/LLMGeneration/QwenGeneration.swift:79-108 | the generated tokens are Generation under the effective configuration and contain neither the tokenizer's eos id nor a configured stop id; the text is the post-processed decoding |
| WeightsAudit.Qualified | Sources/ZImage/Weights/WeightsAudit.swift:21 | with an empty prefix the second candidate is the key itself; otherwise it is prefix, a dot, then the key |
| WeightsAudit.Resolve | Sources/ZImage/Weights/WeightsAudit.swift:20-28 | a matched parameter uses its qualified name whenever that is a weight key, its bare name otherwise |
| WeightsAudit.MatchedCount | Sources/ZImage/Weights/WeightsAudit.swift:19-31 | the matched count never exceeds the number of parameters |
| WeightsAudit.MissingKeys | Sources/ZImage/Weights/WeightsAudit.swift:19-31 | at most one missing name per parameter; MissingKeysMembers states which |
| WeightsAudit.UsedKeys | Sources/ZImage/Weights/WeightsAudit.swift:22-27 | the keys the matched parameters consume are weight keys; UsedKeysMembers states which |
| WeightsAudit.MatchedAll | Sources/ZImage/Weights/WeightsAudit.swift:19-31 | matched equals the parameter count exactly when every parameter is found under one of its two names |
| WeightsAudit.MissingKeysMembers | Sources/ZImage/Weights/WeightsAudit.swift:19-31 | missing holds the qualified name of each parameter found under neither name and nothing else; no missing name is a weight key |
| WeightsAudit.UsedKeysMembers | Sources/ZImage/Weights/WeightsAudit.swift:22-27 | the keys removed from `remaining` are exactly the names the matched parameters resolved to |
| WeightsAudit.ExtraKeys | Sources/ZImage/Weights/WeightsAudit.swift:17-27 | the unused keys are weight keys and disjoint from the used ones |
| WeightsAudit.MatchedPlusMissing | Sources/ZImage/Weights/WeightsAudit.swift:19-31 | matched + missing.count equals the number of parameters |
| WeightsAudit.UsedAtMostMatched | Sources/ZImage/Weights/WeightsAudit.swift:22-27 | no more keys are used than parameters matched (several parameters can share one key) |
| WeightsAudit.AllQualifiedPresent | Sources/ZImage/Weights/WeightsAudit.swift:22-24 | when every prefixed name is a weight key, nothing is missing, all parameters match and the used keys are the prefixed names |
| WeightsAudit.ExtraCount | Sources/ZImage/Weights/WeightsAudit.swift:17-27 | the extra count is the weight count less the number of used keys |
| WeightsAudit.SampleSize | Sources/ZImage/Weights/WeightsAudit.swift:33-34 | `prefix(max(0, sample))` keeps min(max(0, sample), count) entries |
| WeightsAudit.Audit | Sources/ZImage/Weights/WeightsAudit.swift:13-49 | the summary's matched and missing are MatchedCount and MissingKeys; extra lists every unused key once; the samples are the first SampleSize entries of missing and of the sorted extra keys |
| WeightsAudit.ListKeys | Sources/ZImage/Weights/WeightsAudit.swift:48 | `Array(remaining)` lists every key of the set exactly once |
| WeightsAudit.ExtraSampleSmallest | Sources/ZImage/Weights/WeightsAudit.swift:34 | each key in the extra sample comes strictly before every extra key the sample leaves out |
| StringOrder.Less | Sources/ZImage/Weights/WeightsAudit.swift:34 | the order of Swift's String `<` that `sorted()` uses, as code-point lexicographic order: a proper prefix comes first |
| StringOrder.LessTotal | Sources/ZImage/Weights/WeightsAudit.swift:34 | two different keys are ordered one way or the other |
| StringOrder.LessTransitive | Sources/ZImage/Weights/WeightsAudit.swift:34 | the key order is transitive |
| StringOrder.SortStrings | Sources/ZImage/Weights/WeightsAudit.swift:34 | `sorted()` returns a permutation of its input in ascending order |
| StringOrder.SortedPrefixSmallest | Sources/ZImage/Weights/WeightsAudit.swift:34 | the first n of a sorted list without repeats each come before every later entry |

## Left out

- The per-layer caches that `generate` allocates and the forward pass through them are not modelled. `forward(context, input)` stands for the encoder's `forwardCausal` over those caches. The caches' key/value arrays are not tied to it.
- The batch, head and head-dimension axes and the dtypes of the cache buffers are not modelled. A cached position is one abstract row.
- Float32 and bfloat16 arithmetic are not modelled. Logits and probabilities are reals. The bfloat16-to-float32 cast is left out. Softmax, log, argSort and the categorical draw are oracles. The 1e-10 floor is exact.
- The random state of MLXRandom is not modelled. Each draw gets an explicit key, the round index in the decode loop.
- MLX.eval barriers, the logger calls of `audit`, the chat template, tokenisation and the system prompt of `enhancePrompt` are not modelled. Decoding is an oracle function.
- Sampling.ApplyRepetitionPenalty: requires a non-zero penalty (Float division by zero gives inf or NaN, which the reals cannot express). It also requires every listed id to index the logits (MLX's behaviour for an out-of-range index is not modelled).
- Sampling.SampleToken: requires a non-negative repetitionContextSize when the penalty applies, because Swift's `suffix` traps on a negative length.
- Sampling.TopPSample: states only that the result is a vocabulary index. Which token the categorical draw picks is the oracle's. The keep rule itself is stated by the Nucleus lemmas over TopPWeights.
- Sampling.CategoricalSample: states only that the result is a vocabulary index, because the draw is an oracle.
- Sampling.ArgMax: resolves ties to the first index, which is assumed of MLX's `argMax`.
- Generation.Generate: requires maxNewTokens >= 0, because `0..<n` traps in Swift for a negative n.
- Generation.DecodeFrom: states only the length bound. The round-by-round behaviour is in DecodeRoundToken, DecodeEndsOnStop and DecodeTokensValid.
- Generation.Generation: states only the length bound. Its characterisation is in GenerationTokensValid and the lemmas about DecodeFrom.
- Swift strings compare and search by grapheme cluster and canonical equivalence. The model uses sequences of Unicode scalars, and StringOrder.Less is code-point lexicographic order.
- Generation.Trim: whitespace is the `whitespacesAndNewlines` set as a fixed list of code points.
- The order in which `Array(remaining)` lists the unused keys is unspecified. WeightsAudit.ListKeys picks them in an arbitrary order.
- `module.parameters().flattened()` is a sequence of parameter names. The weight dictionary is its key set, because the audit never reads a value.
- The image pipeline (Sources/ZImage/Pipeline/ZImagePipeline.swift: downloads, weight loading, denoising loop, calculateShift, image saving) is not part of this model.
- The AIO transformer guard tests exercise validators that are not part of this model.
