/**
 * Autoregressive decoding for prompt enhancement: one forward pass over the
 * prompt, then up to `maxNewTokens` rounds of sample / stop / append / forward,
 * and the post-processing of the decoded text around `<think>` blocks.
 *
 * The text encoder's forward pass is an oracle `forward(context, input)`
 * giving the logits of the last input position, where `context` is the token
 * history the per-layer caches already hold. Tokenisation and decoding are
 * likewise oracles.
 */
module Generation {
  import opened Optional
  import opened Sampling

  /** Per-call configuration of prompt enhancement (PromptEnhanceConfig). */
  datatype PromptEnhanceConfig = PromptEnhanceConfig(
    maxNewTokens: int,
    temperature: real,
    topP: real,
    repetitionPenalty: Option<real>,
    repetitionContextSize: int,
    eosTokenId: int,
    stopTokenIds: set<int>)

  /** The source's default configuration. */
  const DefaultPromptEnhanceConfig :=
    PromptEnhanceConfig(512, 0.7, 0.9, Some(1.05), 20, 151645, {151645, 151643})

  /** The sampler configuration built from it on every step. */
  function SamplerConfig(c: PromptEnhanceConfig): GenerationConfig
  {
    GenerationConfig(c.maxNewTokens, c.temperature, c.topP, c.repetitionPenalty, c.repetitionContextSize)
  }

  /** A sampled token ends generation when it is a stop token or the eos token. */
  predicate IsStop(c: PromptEnhanceConfig, t: int)
  {
    t in c.stopTokenIds || t == c.eosTokenId
  }

  /** forward(context, input): last-position logits of `input` after `context`. */
  type Forward = (seq<int>, seq<int>) -> seq<real>

  ghost predicate ForwardOk(forward: Forward, vocab: nat)
  {
    forall context, input :: |forward(context, input)| == vocab
  }

  /** sample(logits, previousTokens, key): the next token id (`sampleToken`). */
  type Sampler = (seq<real>, seq<int>, nat) -> int

  /** From vocabulary-sized logits and a history of ids, a sampler draws an id. */
  ghost predicate SamplerOk(sample: Sampler, vocab: nat)
  {
    forall logits, history, key ::
      |logits| == vocab && InRange(history, vocab) ==> 0 <= sample(logits, history, key) < vocab
  }

  /** What the sampler needs of the configuration: see SamplerInputsOk. */
  predicate DecodeConfigOk(c: PromptEnhanceConfig, vocab: nat)
  {
    && vocab > 0
    && (c.repetitionPenalty.Some? ==>
          c.repetitionContextSize >= 0 && c.repetitionPenalty.value != 0.0)
  }

  /**
   * The default configuration suits every vocabulary, samples by nucleus,
   * stops on its own eos id, and gives the sampler the sampler's own defaults
   * except for the token budget.
   */
  lemma DefaultConfigs(vocab: nat)
    requires vocab > 0
    ensures DecodeConfigOk(DefaultPromptEnhanceConfig, vocab)
    ensures SamplerConfig(DefaultPromptEnhanceConfig)
            == DefaultGenerationConfig.(maxTokens := DefaultPromptEnhanceConfig.maxNewTokens)
    ensures ChooseStrategy(DefaultPromptEnhanceConfig.temperature, DefaultPromptEnhanceConfig.topP) == Nucleus
    ensures IsStop(DefaultPromptEnhanceConfig, DefaultPromptEnhanceConfig.eosTokenId)
  {
  }

  /** Every history of vocabulary ids is an acceptable sampler input. */
  lemma SamplerInputsFromHistory(logits: seq<real>, c: PromptEnhanceConfig, vocab: nat, history: seq<int>)
    requires DecodeConfigOk(c, vocab) && |logits| == vocab
    requires InRange(history, vocab)
    ensures SamplerInputsOk(logits, SamplerConfig(c), history)
  {
    if PenaltyApplies(SamplerConfig(c), history) {
      var ctx := ContextTokens(history, c.repetitionContextSize);
      forall j | 0 <= j < |ctx|
        ensures 0 <= ctx[j] < vocab
      {
        assert ctx[j] == history[|history| - |ctx| + j];
      }
    }
  }

  /**
   * The sampler `generate` uses: SampleToken with the sampler configuration
   * built from c, on the given logits and history.
   */
  function TokenSampler(c: PromptEnhanceConfig, k: Kernels): Sampler
    requires KernelsOk(k)
  {
    (logits: seq<real>, history: seq<int>, key: nat) =>
      if SamplerInputsOk(logits, SamplerConfig(c), history)
      then SampleToken(logits, SamplerConfig(c), history, k, key)
      else 0
  }

  /** That sampler draws vocabulary ids, and is SampleToken on every valid input. */
  lemma TokenSamplerOk(c: PromptEnhanceConfig, k: Kernels, vocab: nat)
    requires KernelsOk(k) && DecodeConfigOk(c, vocab)
    ensures SamplerOk(TokenSampler(c, k), vocab)
    ensures forall logits, history, key ::
              |logits| == vocab && InRange(history, vocab) ==>
                SamplerInputsOk(logits, SamplerConfig(c), history) &&
                TokenSampler(c, k)(logits, history, key) == SampleToken(logits, SamplerConfig(c), history, k, key)
  {
    forall logits, history | |logits| == vocab && InRange(history, vocab)
      ensures SamplerInputsOk(logits, SamplerConfig(c), history)
    {
      SamplerInputsFromHistory(logits, c, vocab, history);
    }
  }

  /**
   * The tokens decoding appends to `history` when `logits` are the current
   * last-position logits, `step` rounds have run and `budget` rounds remain.
   */
  function DecodeFrom(history: seq<int>, logits: seq<real>, step: nat, budget: nat,
                      c: PromptEnhanceConfig, vocab: nat, forward: Forward, sample: Sampler): (r: seq<int>)
    requires ForwardOk(forward, vocab) && SamplerOk(sample, vocab)
    requires |logits| == vocab && InRange(history, vocab)
    ensures |r| <= budget
    decreases budget
  {
    if budget == 0 then []
    else
      var t := sample(logits, history, step);
      if IsStop(c, t) then []
      else [t] + DecodeFrom(history + [t], forward(history, [t]), step + 1, budget - 1, c, vocab, forward, sample)
  }

  /** What `generate` returns for a prompt: the prefill, then DecodeFrom. */
  function Generation(prompt: seq<int>, c: PromptEnhanceConfig, vocab: nat, forward: Forward, sample: Sampler): (r: seq<int>)
    requires ForwardOk(forward, vocab) && SamplerOk(sample, vocab)
    requires c.maxNewTokens >= 0 && InRange(prompt, vocab)
    ensures |r| <= c.maxNewTokens
  {
    DecodeFrom(prompt, forward([], prompt), 0, c.maxNewTokens, c, vocab, forward, sample)
  }

  /** The logits round i of DecodeFrom samples from, given the tokens r it appended. */
  function RoundLogits(history: seq<int>, logits: seq<real>, r: seq<int>, i: nat, forward: Forward): seq<real>
    requires i <= |r|
  {
    if i == 0 then logits else forward(history + r[..i - 1], [r[i - 1]])
  }

  /** Decoding only ever appends vocabulary ids that are not stop or eos ids. */
  lemma {:induction false} DecodeTokensValid(history: seq<int>, logits: seq<real>, step: nat, budget: nat,
                                              c: PromptEnhanceConfig, vocab: nat, forward: Forward, sample: Sampler)
    requires ForwardOk(forward, vocab) && SamplerOk(sample, vocab)
    requires |logits| == vocab && InRange(history, vocab)
    ensures var r := DecodeFrom(history, logits, step, budget, c, vocab, forward, sample);
            forall j :: 0 <= j < |r| ==> 0 <= r[j] < vocab && !IsStop(c, r[j])
    decreases budget
  {
    if budget > 0 {
      DecodeUnfold(history, logits, step, budget, c, vocab, forward, sample);
      var t := sample(logits, history, step);
      if !IsStop(c, t) {
        DecodeTokensValid(history + [t], forward(history, [t]), step + 1, budget - 1, c, vocab, forward, sample);
      }
    }
  }

  /** Generation returns vocabulary ids only, none of them a stop or eos id. */
  lemma GenerationTokensValid(prompt: seq<int>, c: PromptEnhanceConfig, vocab: nat, forward: Forward, sample: Sampler)
    requires ForwardOk(forward, vocab) && SamplerOk(sample, vocab)
    requires c.maxNewTokens >= 0 && InRange(prompt, vocab)
    ensures forall t :: t in Generation(prompt, c, vocab, forward, sample) ==> 0 <= t < vocab && !IsStop(c, t)
  {
    var r := Generation(prompt, c, vocab, forward, sample);
    DecodeTokensValid(prompt, forward([], prompt), 0, c.maxNewTokens, c, vocab, forward, sample);
    assert r == DecodeFrom(prompt, forward([], prompt), 0, c.maxNewTokens, c, vocab, forward, sample);
    forall t | t in r
      ensures 0 <= t < vocab && !IsStop(c, t)
    {
      var j :| 0 <= j < |r| && r[j] == t;
      assert 0 <= r[j] < vocab && !IsStop(c, r[j]);
    }
  }

  /** One round of DecodeFrom: draw, then stop or append and go on. */
  lemma DecodeUnfold(history: seq<int>, logits: seq<real>, step: nat, budget: nat,
                     c: PromptEnhanceConfig, vocab: nat, forward: Forward, sample: Sampler)
    requires ForwardOk(forward, vocab) && SamplerOk(sample, vocab)
    requires |logits| == vocab && InRange(history, vocab)
    requires budget > 0
    ensures var t := sample(logits, history, step);
            && (IsStop(c, t) ==> DecodeFrom(history, logits, step, budget, c, vocab, forward, sample) == [])
            && (!IsStop(c, t) ==>
                  DecodeFrom(history, logits, step, budget, c, vocab, forward, sample)
                  == [t] + DecodeFrom(history + [t], forward(history, [t]), step + 1, budget - 1, c, vocab, forward, sample))
  {
  }

  /**
   * Round by round: token i is what the sampler draws from the logits of the
   * previous input, with the history followed by the i tokens before it, at
   * random key step + i.
   */
  lemma {:induction false} DecodeRoundToken(history: seq<int>, logits: seq<real>, step: nat, budget: nat,
                                             c: PromptEnhanceConfig, vocab: nat, forward: Forward, sample: Sampler, i: nat)
    requires ForwardOk(forward, vocab) && SamplerOk(sample, vocab)
    requires |logits| == vocab && InRange(history, vocab)
    requires i < |DecodeFrom(history, logits, step, budget, c, vocab, forward, sample)|
    ensures var r := DecodeFrom(history, logits, step, budget, c, vocab, forward, sample);
            r[i] == sample(RoundLogits(history, logits, r, i, forward), history + r[..i], step + i)
    decreases budget
  {
    var r := DecodeFrom(history, logits, step, budget, c, vocab, forward, sample);
    DecodeUnfold(history, logits, step, budget, c, vocab, forward, sample);
    var t := sample(logits, history, step);
    if i == 0 {
      assert history + r[..0] == history;
    } else {
      var h' := history + [t];
      var l' := forward(history, [t]);
      var rest := DecodeFrom(h', l', step + 1, budget - 1, c, vocab, forward, sample);
      assert r == [t] + rest;
      DecodeRoundToken(h', l', step + 1, budget - 1, c, vocab, forward, sample, i - 1);
      assert history + r[..i] == h' + rest[..i - 1];
      RoundLogitsShift(history, logits, t, rest, i, forward);
    }
  }

  /** The logits of round i of a decode that began with t are those of round i - 1 after it. */
  lemma RoundLogitsShift(history: seq<int>, logits: seq<real>, t: int, rest: seq<int>, i: nat, forward: Forward)
    requires 0 < i <= |rest| + 1
    ensures RoundLogits(history, logits, [t] + rest, i, forward)
         == RoundLogits(history + [t], forward(history, [t]), rest, i - 1, forward)
  {
    var r := [t] + rest;
    if i > 1 {
      assert r[..i - 1] == [t] + rest[..i - 2];
      assert history + r[..i - 1] == (history + [t]) + rest[..i - 2];
      assert r[i - 1] == rest[i - 2];
    } else {
      assert history + r[..0] == history;
    }
  }

  /** When fewer tokens than the budget come out, the next draw was a stop token. */
  lemma {:induction false} DecodeEndsOnStop(history: seq<int>, logits: seq<real>, step: nat, budget: nat,
                                             c: PromptEnhanceConfig, vocab: nat, forward: Forward, sample: Sampler)
    requires ForwardOk(forward, vocab) && SamplerOk(sample, vocab)
    requires |logits| == vocab && InRange(history, vocab)
    requires |DecodeFrom(history, logits, step, budget, c, vocab, forward, sample)| < budget
    ensures var r := DecodeFrom(history, logits, step, budget, c, vocab, forward, sample);
            IsStop(c, sample(RoundLogits(history, logits, r, |r|, forward), history + r, step + |r|))
    decreases budget
  {
    var r := DecodeFrom(history, logits, step, budget, c, vocab, forward, sample);
    DecodeUnfold(history, logits, step, budget, c, vocab, forward, sample);
    var t := sample(logits, history, step);
    if IsStop(c, t) {
      assert history + r == history;
    } else {
      var h' := history + [t];
      var l' := forward(history, [t]);
      var rest := DecodeFrom(h', l', step + 1, budget - 1, c, vocab, forward, sample);
      assert r == [t] + rest;
      DecodeEndsOnStop(h', l', step + 1, budget - 1, c, vocab, forward, sample);
      assert history + r == h' + rest;
      RoundLogitsShift(history, logits, t, rest, |r|, forward);
    }
  }

  /** A first sampled token that is a stop or eos token yields no tokens. */
  lemma FirstStopGivesNothing(prompt: seq<int>, c: PromptEnhanceConfig, vocab: nat, forward: Forward, sample: Sampler)
    requires ForwardOk(forward, vocab) && SamplerOk(sample, vocab)
    requires c.maxNewTokens >= 0 && InRange(prompt, vocab)
    requires IsStop(c, sample(forward([], prompt), prompt, 0))
    ensures Generation(prompt, c, vocab, forward, sample) == []
  {
  }

  /**
   * One round of the decode loop in terms of the tokens `done` so far and
   * the decode still ahead: a stop ends it, another token moves to `done`.
   */
  lemma DecodeAdvance(target: seq<int>, done: seq<int>, history: seq<int>, logits: seq<real>, step: nat, budget: nat,
                      c: PromptEnhanceConfig, vocab: nat, forward: Forward, sample: Sampler)
    requires ForwardOk(forward, vocab) && SamplerOk(sample, vocab)
    requires |logits| == vocab && InRange(history, vocab)
    requires budget > 0
    requires target == done + DecodeFrom(history, logits, step, budget, c, vocab, forward, sample)
    ensures var t := sample(logits, history, step);
            && (IsStop(c, t) ==> target == done)
            && (!IsStop(c, t) ==>
                  target == (done + [t]) + DecodeFrom(history + [t], forward(history, [t]), step + 1, budget - 1, c, vocab, forward, sample))
  {
    DecodeUnfold(history, logits, step, budget, c, vocab, forward, sample);
  }

  /** One call of the forward pass: (cached context, fed input). */
  type ForwardCall = (seq<int>, seq<int>)

  /**
   * The forward calls of a run that returned `generated`: one prefill over the
   * whole prompt, then each appended token fed alone after everything before it.
   */
  function ForwardCalls(prompt: seq<int>, generated: seq<int>): (calls: seq<ForwardCall>)
    ensures |calls| == 1 + |generated|
    ensures calls[0] == ([], prompt)
    ensures forall i :: 0 <= i < |generated| ==> calls[i + 1].1 == [generated[i]]
  {
    [([], prompt)] + seq(|generated|, i requires 0 <= i < |generated| => (prompt + generated[..i], [generated[i]]))
  }

  /** Appending a token adds exactly one forward call, fed after the previous tokens. */
  lemma {:induction false} ForwardCallsAppend(prompt: seq<int>, generated: seq<int>, t: int)
    ensures ForwardCalls(prompt, generated + [t]) == ForwardCalls(prompt, generated) + [(prompt + generated, [t])]
  {
    var g := generated + [t];
    assert g[..|generated|] == generated;
    forall i | 0 <= i < |generated|
      ensures g[..i] == generated[..i]
    {
    }
  }

  /**
   * The decode loop of `generate`: prefill the prompt, then per round draw a
   * token, stop on a stop or eos id, otherwise append it and feed it alone.
   * `calls` logs the forward pass's inputs in the order they were made.
   */
  method Generate(prompt: seq<int>, c: PromptEnhanceConfig, vocab: nat, forward: Forward, sample: Sampler)
    returns (generated: seq<int>, ghost calls: seq<ForwardCall>)
    requires ForwardOk(forward, vocab) && SamplerOk(sample, vocab)
    requires c.maxNewTokens >= 0 && InRange(prompt, vocab)
    ensures generated == Generation(prompt, c, vocab, forward, sample)
    ensures calls == ForwardCalls(prompt, generated)
  {
    var tokens := prompt;
    var inputLength := |tokens|;
    var logits := forward([], tokens);
    calls := [([], tokens)];
    ghost var target := Generation(prompt, c, vocab, forward, sample);
    assert tokens[inputLength..] == [];
    for i := 0 to c.maxNewTokens
      invariant |tokens| == inputLength + i && tokens[..inputLength] == prompt
      invariant InRange(tokens, vocab) && |logits| == vocab
      invariant target == tokens[inputLength..] + DecodeFrom(tokens, logits, i, c.maxNewTokens - i, c, vocab, forward, sample)
      invariant calls == ForwardCalls(prompt, tokens[inputLength..])
    {
      DecodeAdvance(target, tokens[inputLength..], tokens, logits, i, c.maxNewTokens - i, c, vocab, forward, sample);
      var nextToken := sample(logits, tokens, i);
      if IsStop(c, nextToken) {
        break;
      }
      var previousTokens := tokens;
      tokens := tokens + [nextToken];
      assert tokens[inputLength..] == previousTokens[inputLength..] + [nextToken];
      assert tokens[..inputLength] == previousTokens[..inputLength];
      assert previousTokens == prompt + previousTokens[inputLength..];
      ForwardCallsAppend(prompt, previousTokens[inputLength..], nextToken);
      logits := forward(previousTokens, [nextToken]);
      calls := calls + [(previousTokens, [nextToken])];
    }
    generated := tokens[inputLength..];
  }

  // ---------------------------------------------------------------------------
  // Post-processing of the decoded text

  const ThinkEnd: string := "</think>"
  const ThinkStart: string := "<think>"

  /** `pattern` occurs in `text` starting at index i. */
  predicate OccursAt(text: string, pattern: string, i: nat)
  {
    i + |pattern| <= |text| && text[i..i + |pattern|] == pattern
  }

  /** The first occurrence of `pattern` at or after `from`, if any. */
  function FindFirst(text: string, pattern: string, from: nat): (r: Option<nat>)
    ensures r.Some? ==>
              && from <= r.value
              && OccursAt(text, pattern, r.value)
              && forall j: nat :: from <= j < r.value ==> !OccursAt(text, pattern, j)
    ensures r.None? ==> forall j: nat :: from <= j ==> !OccursAt(text, pattern, j)
    decreases |text| - from
  {
    if from + |pattern| > |text| then None
    else if text[from..from + |pattern|] == pattern then Some(from)
    else FindFirst(text, pattern, from + 1)
  }

  /** Foundation's whitespacesAndNewlines: Unicode Zs, tab, and the line breaks. */
  predicate IsSpace(ch: char)
  {
    || ch == ' ' || ch == '\t'
    || ('\n' <= ch <= '\r') || ch == '\U{85}'
    || ch == '\U{A0}' || ch == '\U{1680}' || ('\U{2000}' <= ch <= '\U{200A}')
    || ch == '\U{2028}' || ch == '\U{2029}'
    || ch == '\U{202F}' || ch == '\U{205F}' || ch == '\U{3000}'
  }

  /** Drops the leading whitespace. */
  function TrimStart(s: string): (r: string)
    ensures |r| <= |s| && r == s[|s| - |r|..]
    ensures forall i :: 0 <= i < |s| - |r| ==> IsSpace(s[i])
    ensures r != [] ==> !IsSpace(r[0])
  {
    if |s| > 0 && IsSpace(s[0]) then TrimStart(s[1..]) else s
  }

  /** Drops the trailing whitespace. */
  function TrimEnd(s: string): (r: string)
    ensures |r| <= |s| && r == s[..|r|]
    ensures forall i :: |r| <= i < |s| ==> IsSpace(s[i])
    ensures r != [] ==> !IsSpace(r[|r| - 1])
  {
    if |s| > 0 && IsSpace(s[|s| - 1]) then TrimEnd(s[..|s| - 1]) else s
  }

  /**
   * `trimmingCharacters(in: .whitespacesAndNewlines)`: neither end of the
   * result is whitespace.
   */
  function Trim(s: string): (r: string)
    ensures |r| <= |s|
    ensures r != [] ==> !IsSpace(r[0]) && !IsSpace(r[|r| - 1])
  {
    var t := TrimStart(s);
    var r := TrimEnd(t);
    assert r != [] ==> r[0] == t[0];
    r
  }

  /** Trim removes whitespace only: the result is the slice of s between whitespace-only ends. */
  lemma TrimSlice(s: string)
    ensures var r, lo := Trim(s), |s| - |TrimStart(s)|;
            && lo + |r| <= |s| && r == s[lo..lo + |r|]
            && (forall i :: 0 <= i < lo ==> IsSpace(s[i]))
            && (forall i :: lo + |r| <= i < |s| ==> IsSpace(s[i]))
  {
    var t := TrimStart(s);
    var lo := |s| - |t|;
    assert t == s[lo..];
    assert Trim(s) == TrimEnd(t);
    TrimEndOfSuffix(s, lo);
  }

  /** Trimming the end of a suffix of s leaves a slice of s followed by whitespace only. */
  lemma TrimEndOfSuffix(s: string, lo: nat)
    requires lo <= |s|
    ensures var r := TrimEnd(s[lo..]);
            && r == s[lo..lo + |r|]
            && (forall i :: lo + |r| <= i < |s| ==> IsSpace(s[i]))
  {
    var t := s[lo..];
    var r := TrimEnd(t);
    assert r == t[..|r|];
    forall i | lo + |r| <= i < |s|
      ensures IsSpace(s[i])
    {
      assert s[i] == t[i - lo];
    }
  }

  /** Trimming twice is trimming once. */
  lemma TrimIdempotent(s: string)
    ensures Trim(Trim(s)) == Trim(s)
  {
    var r := Trim(s);
    if r != [] {
      assert TrimStart(r) == r;
      assert TrimEnd(r) == r;
    }
  }

  /**
   * The post-processing of `enhancePrompt`: the trimmed text after the first
   * `</think>`; otherwise "" for an opened but unclosed `<think>` block;
   * otherwise the text unchanged.
   */
  function PostProcess(text: string): (r: string)
    ensures |r| <= |text|
  {
    match FindFirst(text, ThinkEnd, 0)
    case Some(i) => Trim(text[i + |ThinkEnd|..])
    case None => if FindFirst(text, ThinkStart, 0).Some? then "" else text
  }

  /** After a closed think block: what follows its first `</think>`, trimmed. */
  lemma PostProcessClosedThink(text: string, i: nat)
    requires OccursAt(text, ThinkEnd, i)
    requires forall j: nat :: j < i ==> !OccursAt(text, ThinkEnd, j)
    ensures PostProcess(text) == Trim(text[i + |ThinkEnd|..])
  {
  }

  /** An opened think block that never closes signals an incomplete answer: "". */
  lemma PostProcessUnclosedThink(text: string, i: nat)
    requires forall j: nat :: !OccursAt(text, ThinkEnd, j)
    requires OccursAt(text, ThinkStart, i)
    ensures PostProcess(text) == ""
  {
  }

  /** Text with no think markers passes through unchanged. */
  lemma PostProcessPlain(text: string)
    requires forall j: nat :: !OccursAt(text, ThinkEnd, j)
    requires forall j: nat :: !OccursAt(text, ThinkStart, j)
    ensures PostProcess(text) == text
  {
  }

  /** The configuration after the tokenizer's eos id, when it has one, overrides the configured one. */
  function EffectiveConfig(c: PromptEnhanceConfig, tokenizerEos: Option<int>): (e: PromptEnhanceConfig)
    ensures tokenizerEos.None? ==> e == c
    ensures tokenizerEos.Some? ==> IsStop(e, tokenizerEos.value)
    ensures tokenizerEos.Some? ==> e == c.(eosTokenId := tokenizerEos.value)
    ensures e.stopTokenIds == c.stopTokenIds && e.maxNewTokens == c.maxNewTokens
    ensures SamplerConfig(e) == SamplerConfig(c)
  {
    match tokenizerEos
    case Some(eos) => c.(eosTokenId := eos)
    case None => c
  }

  /**
   * `enhancePrompt` after tokenisation: generate with the effective
   * configuration and its sampler, decode, post-process. `promptTokens` is
   * the encoded chat and `decode` the tokenizer's decoder.
   */
  method EnhancePrompt(promptTokens: seq<int>, tokenizerEos: Option<int>, decode: seq<int> -> string,
                       c: PromptEnhanceConfig, vocab: nat, forward: Forward, k: Kernels)
    returns (text: string, generated: seq<int>)
    requires DecodeConfigOk(c, vocab) && ForwardOk(forward, vocab) && KernelsOk(k)
    requires c.maxNewTokens >= 0 && InRange(promptTokens, vocab)
    ensures var e := EffectiveConfig(c, tokenizerEos);
            SamplerOk(TokenSampler(e, k), vocab) &&
            generated == Generation(promptTokens, e, vocab, forward, TokenSampler(e, k))
    ensures text == PostProcess(decode(generated))
    ensures tokenizerEos.Some? ==> tokenizerEos.value !in generated
    ensures forall t :: t in generated ==> t !in c.stopTokenIds
  {
    var effective := EffectiveConfig(c, tokenizerEos);
    TokenSamplerOk(effective, k, vocab);
    ghost var calls;
    generated, calls := Generate(promptTokens, effective, vocab, forward, TokenSampler(effective, k));
    GenerationTokensValid(promptTokens, effective, vocab, forward, TokenSampler(effective, k));
    text := PostProcess(decode(generated));
  }
}
