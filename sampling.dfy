/**
 * Next-token sampling over one logit vector: the repetition penalty, greedy
 * (argmax) decoding, nucleus (top-p) sampling and plain categorical sampling,
 * and the dispatch between them.
 *
 * Logits and probabilities are `real`s. The tensor kernels whose numerics are
 * not modelled (softmax, log, argSort, and the random categorical draw) are
 * oracle functions gathered in `Kernels`; `KernelsOk` states the shape facts
 * the sampler relies on and that argSort sorts ascending.
 */
module Sampling {
  import opened Optional

  /** The sampler's configuration (GenerationConfig in the source). */
  datatype GenerationConfig = GenerationConfig(
    maxTokens: int,
    temperature: real,
    topP: real,
    repetitionPenalty: Option<real>,
    repetitionContextSize: int)

  /** The source's default configuration. */
  const DefaultGenerationConfig := GenerationConfig(256, 0.7, 0.9, Some(1.05), 20)

  /** Opaque tensor kernels; `key` stands for the random state of one draw. */
  datatype Kernels = Kernels(
    softmax: seq<real> -> seq<real>,
    log: seq<real> -> seq<real>,
    argSort: seq<real> -> seq<int>,
    categorical: (seq<real>, nat) -> int)

  /** idx lists every index of p exactly once, in ascending order of p. */
  predicate IsArgSort(p: seq<real>, idx: seq<int>)
  {
    && |idx| == |p|
    && (forall k :: 0 <= k < |idx| ==> 0 <= idx[k] < |p|)
    && (forall a, b :: 0 <= a < b < |idx| ==> idx[a] != idx[b])
    && (forall a, b :: 0 <= a < b < |idx| ==> p[idx[a]] <= p[idx[b]])
  }

  /**
   * Shape facts of the kernels: element-wise kernels keep the length, argSort
   * sorts ascending, and a categorical draw from a non-empty vector is one of
   * its positions.
   */
  ghost predicate KernelsOk(k: Kernels)
  {
    && (forall w :: |k.softmax(w)| == |w|)
    && (forall w :: |k.log(w)| == |w|)
    && (forall p :: IsArgSort(p, k.argSort(p)))
    && (forall w, key :: |w| > 0 ==> 0 <= k.categorical(w, key) < |w|)
  }

  // ---------------------------------------------------------------------------
  // Repetition penalty

  /** A negative logit is multiplied by the penalty, any other divided by it. */
  function Penalize(x: real, penalty: real): real
    requires penalty != 0.0
  {
    if x < 0.0 then x * penalty else x / penalty
  }

  predicate InRange(tokens: seq<int>, n: int)
  {
    forall j :: 0 <= j < |tokens| ==> 0 <= tokens[j] < n
  }

  /** `s[idx]` and `s.take(idx)`: the entries of s at the given indices. */
  function Gather(s: seq<real>, idx: seq<int>): (r: seq<real>)
    requires InRange(idx, |s|)
    ensures |r| == |idx|
  {
    seq(|idx|, j requires 0 <= j < |idx| => s[idx[j]])
  }

  /** `base[idx] = vals`: writes vals[j] at idx[j], one index after another. */
  function Scatter(base: seq<real>, idx: seq<int>, vals: seq<real>): (r: seq<real>)
    requires |idx| == |vals|
    requires InRange(idx, |base|)
    ensures |r| == |base|
    decreases |idx|
  {
    if |idx| == 0 then base
    else Scatter(base[idx[0] := vals[0]], idx[1..], vals[1..])
  }

  /**
   * When every value written is the target's value at its own index, the
   * scatter yields the target at every listed index and the base elsewhere,
   * however often an index repeats.
   */
  lemma {:induction false} ScatterDetermined(base: seq<real>, idx: seq<int>, vals: seq<real>, target: seq<real>)
    requires |idx| == |vals| && |target| == |base|
    requires InRange(idx, |base|)
    requires forall j :: 0 <= j < |idx| ==> vals[j] == target[idx[j]]
    ensures forall k :: 0 <= k < |base| ==>
              Scatter(base, idx, vals)[k] == if k in idx then target[k] else base[k]
    decreases |idx|
  {
    if |idx| > 0 {
      var next := base[idx[0] := vals[0]];
      ScatterDetermined(next, idx[1..], vals[1..], target);
      assert idx == [idx[0]] + idx[1..];
      forall k | 0 <= k < |base|
        ensures Scatter(base, idx, vals)[k] == if k in idx then target[k] else base[k]
      {
        if k !in idx[1..] && k != idx[0] {
          assert k !in idx;
        }
      }
    }
  }

  /**
   * Penalises the logits of the listed token ids: each listed id gets its
   * original logit penalised once, every other id keeps its logit.
   */
  function ApplyRepetitionPenalty(logits: seq<real>, tokens: seq<int>, penalty: real): (r: seq<real>)
    requires |tokens| == 0 || penalty != 0.0
    requires InRange(tokens, |logits|)
    ensures |r| == |logits|
    ensures forall k :: 0 <= k < |logits| ==>
              r[k] == if k in tokens then Penalize(logits[k], penalty) else logits[k]
    ensures |tokens| == 0 || penalty == 1.0 ==> r == logits
  {
    if |tokens| == 0 || penalty == 1.0 then logits
    else
      var selected := Gather(logits, tokens);
      var penalized := seq(|selected|, j requires 0 <= j < |selected| =>
                         if selected[j] < 0.0 then selected[j] * penalty else selected[j] / penalty);
      ScatterDetermined(logits, tokens, penalized,
                        seq(|logits|, k requires 0 <= k < |logits| => Penalize(logits[k], penalty)));
      Scatter(logits, tokens, penalized)
  }

  /**
   * Only the set of listed ids matters: repeating an id, or listing the ids in
   * another order, penalises exactly the same logits exactly once.
   */
  lemma PenaltyDependsOnlyOnIdSet(logits: seq<real>, tokens: seq<int>, others: seq<int>, penalty: real)
    requires penalty != 0.0
    requires InRange(tokens, |logits|) && InRange(others, |logits|)
    requires forall t :: t in tokens <==> t in others
    ensures ApplyRepetitionPenalty(logits, tokens, penalty) == ApplyRepetitionPenalty(logits, others, penalty)
  {
    var a := ApplyRepetitionPenalty(logits, tokens, penalty);
    var b := ApplyRepetitionPenalty(logits, others, penalty);
    forall k | 0 <= k < |logits|
      ensures a[k] == b[k]
    {
    }
  }

  /** A penalty of at least 1 never raises a logit. */
  lemma PenaltySuppresses(logits: seq<real>, tokens: seq<int>, penalty: real)
    requires penalty >= 1.0
    requires InRange(tokens, |logits|)
    ensures forall k :: 0 <= k < |logits| ==> ApplyRepetitionPenalty(logits, tokens, penalty)[k] <= logits[k]
  {
    forall x: real | true
      ensures Penalize(x, penalty) <= x
    {
      if x < 0.0 {
        assert x * penalty - x == x * (penalty - 1.0);
        assert x * (penalty - 1.0) <= 0.0;
      } else {
        assert x / penalty * penalty == x;
      }
    }
  }

  /** `previousTokens.suffix(size)`: the last `size` tokens, or all of them. */
  function ContextTokens(previous: seq<int>, size: nat): (r: seq<int>)
    ensures |r| == if size < |previous| then size else |previous|
    ensures r == previous[|previous| - |r|..]
  {
    if size >= |previous| then previous else previous[|previous| - size..]
  }

  /** The penalty is configured and there is a history to penalise. */
  predicate PenaltyApplies(config: GenerationConfig, previous: seq<int>)
  {
    config.repetitionPenalty.Some? && |previous| > 0
  }

  /**
   * What the sampler needs of its inputs: a non-empty vocabulary and, when the
   * penalty applies, a context size `suffix` accepts, a penalty that can be
   * divided by, and context ids that index the logits.
   */
  predicate SamplerInputsOk(logits: seq<real>, config: GenerationConfig, previous: seq<int>)
  {
    && |logits| > 0
    && (PenaltyApplies(config, previous) ==>
          && config.repetitionContextSize >= 0
          && config.repetitionPenalty.value != 0.0
          && InRange(ContextTokens(previous, config.repetitionContextSize), |logits|))
  }

  /**
   * The logits after the optional penalty: penalised with the last
   * `repetitionContextSize` previous tokens when a penalty is configured and
   * the history is non-empty, unchanged otherwise.
   */
  function PenalizedLogits(logits: seq<real>, config: GenerationConfig, previous: seq<int>): (r: seq<real>)
    requires SamplerInputsOk(logits, config, previous)
    ensures |r| == |logits|
    ensures !PenaltyApplies(config, previous) ==> r == logits
    ensures PenaltyApplies(config, previous) ==>
              forall k :: 0 <= k < |logits| ==>
                r[k] == if k in ContextTokens(previous, config.repetitionContextSize)
                        then Penalize(logits[k], config.repetitionPenalty.value)
                        else logits[k]
  {
    if PenaltyApplies(config, previous) then
      ApplyRepetitionPenalty(logits, ContextTokens(previous, config.repetitionContextSize),
                             config.repetitionPenalty.value)
    else logits
  }

  // ---------------------------------------------------------------------------
  // Greedy

  /** Index of the largest logit; among equal maxima, the first one. */
  function ArgMax(s: seq<real>): (r: nat)
    requires |s| > 0
    ensures r < |s|
    ensures forall j :: 0 <= j < |s| ==> s[j] <= s[r]
    ensures forall j :: 0 <= j < r ==> s[j] < s[r]
  {
    if |s| == 1 then 0
    else
      var best := ArgMax(s[..|s| - 1]);
      if s[|s| - 1] > s[best] then |s| - 1 else best
  }

  // ---------------------------------------------------------------------------
  // Nucleus (top-p)

  /** Sum of a sequence of reals. */
  function Sum(s: seq<real>): real
  {
    if |s| == 0 then 0.0 else Sum(s[..|s| - 1]) + s[|s| - 1]
  }

  /** `cumsum`: entry k is the sum of the first k + 1 entries. */
  function CumSum(s: seq<real>): (c: seq<real>)
    ensures |c| == |s|
  {
    seq(|s|, k requires 0 <= k < |s| => Sum(s[..k + 1]))
  }

  /** `s / t` element-wise. */
  function Scale(s: seq<real>, t: real): (r: seq<real>)
    requires t != 0.0
    ensures |r| == |s|
  {
    seq(|s|, k requires 0 <= k < |s| => s[k] / t)
  }

  /** Whether ascending-sorted entry k survives the top-p cut. */
  predicate Kept(sorted: seq<real>, topP: real, k: nat)
    requires k < |sorted|
  {
    CumSum(sorted)[k] > 1.0 - topP
  }

  /** The top-p weights over the ascending order: kept entries, zero elsewhere. */
  function TopPWeights(sorted: seq<real>, topP: real): (w: seq<real>)
    ensures |w| == |sorted|
  {
    var cumulative := CumSum(sorted);
    seq(|sorted|, k requires 0 <= k < |sorted| => if cumulative[k] > 1.0 - topP then sorted[k] else 0.0)
  }

  /** `probs + 1e-10`, the floor that keeps the log of a dropped entry finite. */
  function Floor(w: seq<real>): (r: seq<real>)
    ensures |r| == |w|
  {
    seq(|w|, k requires 0 <= k < |w| => w[k] + 0.0000000001)
  }

  /**
   * Nucleus sampling: softmax of the tempered logits, sorted ascending, cut by
   * the cumulative rule, a categorical draw over the sorted order, and the
   * drawn sorted position mapped back to a vocabulary index.
   */
  function TopPSample(logits: seq<real>, temperature: real, topP: real, k: Kernels, key: nat): (r: int)
    requires |logits| > 0 && temperature != 0.0
    requires KernelsOk(k)
    ensures 0 <= r < |logits|
    ensures r in k.argSort(k.softmax(Scale(logits, temperature)))
  {
    var probs := k.softmax(Scale(logits, temperature));
    var sortedIndices := k.argSort(probs);
    assert IsArgSort(probs, sortedIndices);
    var sortedProbs := Gather(probs, sortedIndices);
    var topProbs := TopPWeights(sortedProbs, topP);
    var sortedToken := k.categorical(k.log(Floor(topProbs)), key);
    sortedIndices[sortedToken]
  }

  /** Plain categorical sampling from the tempered logits. */
  function CategoricalSample(logits: seq<real>, temperature: real, k: Kernels, key: nat): (r: int)
    requires |logits| > 0 && temperature != 0.0
    requires KernelsOk(k)
    ensures 0 <= r < |logits|
  {
    k.categorical(Scale(logits, temperature), key)
  }

  predicate NonNegative(s: seq<real>)
  {
    forall k :: 0 <= k < |s| ==> s[k] >= 0.0
  }

  lemma {:induction false} SumPrefixMonotone(s: seq<real>, i: nat, j: nat)
    requires NonNegative(s)
    requires i <= j <= |s|
    ensures Sum(s[..i]) <= Sum(s[..j])
    decreases j - i
  {
    if i < j {
      SumPrefixMonotone(s, i, j - 1);
      assert s[..j][..j - 1] == s[..j - 1];
    }
  }

  lemma {:induction false} SumConcat(a: seq<real>, b: seq<real>)
    ensures Sum(a + b) == Sum(a) + Sum(b)
    decreases |b|
  {
    if |b| == 0 {
      assert a + b == a;
    } else {
      SumConcat(a, b[..|b| - 1]);
      assert (a + b)[..|a + b| - 1] == a + b[..|b| - 1];
      assert (a + b)[|a + b| - 1] == b[|b| - 1];
    }
  }

  lemma {:induction false} SumZeros(n: nat)
    ensures Sum(seq(n, _ => 0.0)) == 0.0
  {
    if n > 0 {
      SumZeros(n - 1);
      assert seq(n, _ => 0.0)[..n - 1] == seq(n - 1, _ => 0.0);
    }
  }

  /**
   * Over non-negative probabilities the kept entries form a suffix of the
   * ascending order: once an entry is kept, so is every later one.
   */
  lemma NucleusIsSuffix(sorted: seq<real>, topP: real, a: nat, b: nat)
    requires NonNegative(sorted)
    requires a <= b < |sorted|
    requires Kept(sorted, topP, a)
    ensures Kept(sorted, topP, b)
  {
    SumPrefixMonotone(sorted, a + 1, b + 1);
  }

  /**
   * Over an ascending argSort, no dropped token is more probable than a kept
   * one: the nucleus holds the most probable tokens.
   */
  lemma NucleusHoldsMostProbable(probs: seq<real>, idx: seq<int>, topP: real, dropped: nat, kept: nat)
    requires NonNegative(probs)
    requires IsArgSort(probs, idx)
    requires dropped < |idx| && kept < |idx|
    requires Kept(Gather(probs, idx), topP, kept) && !Kept(Gather(probs, idx), topP, dropped)
    ensures dropped < kept
    ensures probs[idx[dropped]] <= probs[idx[kept]]
  {
    var sorted := Gather(probs, idx);
    assert NonNegative(sorted);
    if kept <= dropped {
      NucleusIsSuffix(sorted, topP, kept, dropped);
    }
  }

  /** With probabilities summing to 1 and topP > 0, the largest entry is kept. */
  lemma NucleusNonEmpty(sorted: seq<real>, topP: real)
    requires |sorted| > 0
    requires Sum(sorted) == 1.0 && topP > 0.0
    ensures Kept(sorted, topP, |sorted| - 1)
  {
    assert sorted[..|sorted|] == sorted;
  }

  /**
   * Over non-negative probabilities, when m is the first kept entry the top-p
   * weights are zero before m and the probabilities themselves from m on.
   */
  lemma NucleusWeights(sorted: seq<real>, topP: real, m: nat)
    requires NonNegative(sorted)
    requires m < |sorted|
    requires Kept(sorted, topP, m)
    requires m == 0 || !Kept(sorted, topP, m - 1)
    ensures TopPWeights(sorted, topP) == seq(m, _ => 0.0) + sorted[m..]
  {
    var w := TopPWeights(sorted, topP);
    var z := seq(m, _ => 0.0);
    forall k | 0 <= k < |sorted|
      ensures w[k] == (z + sorted[m..])[k]
    {
      if k < m {
        if Kept(sorted, topP, k) {
          NucleusIsSuffix(sorted, topP, k, m - 1);
        }
      } else {
        NucleusIsSuffix(sorted, topP, m, k);
      }
    }
  }

  /** The mass of a suffix is the total less the mass of the prefix before it. */
  lemma SuffixMass(s: seq<real>, m: nat)
    requires m <= |s|
    ensures Sum(s[m..]) == Sum(s) - Sum(s[..m])
  {
    assert s == s[..m] + s[m..];
    SumConcat(s[..m], s[m..]);
  }

  /**
   * With probabilities summing to 1 and 0 < topP < 1, when m is the first
   * kept entry: the kept mass is at least topP, and without entry m it would
   * be less than topP, so the nucleus is the smallest such suffix.
   */
  lemma NucleusMass(sorted: seq<real>, topP: real, m: nat)
    requires NonNegative(sorted)
    requires Sum(sorted) == 1.0 && 0.0 < topP < 1.0
    requires m < |sorted|
    requires Kept(sorted, topP, m)
    requires m == 0 || !Kept(sorted, topP, m - 1)
    ensures Sum(TopPWeights(sorted, topP)) == Sum(sorted[m..]) >= topP
    ensures Sum(sorted[m + 1..]) < topP
  {
    NucleusWeights(sorted, topP, m);
    SumConcat(seq(m, _ => 0.0), sorted[m..]);
    SumZeros(m);
    SuffixMass(sorted, m);
    SuffixMass(sorted, m + 1);
    if m > 0 {
      assert Sum(sorted[..m]) <= 1.0 - topP;
    } else {
      assert sorted[..0] == [];
    }
    assert Sum(sorted[..m + 1]) > 1.0 - topP;
  }

  /**
   * When even the least probable entry clears the threshold, nothing is cut:
   * nucleus sampling draws from the whole distribution, as plain sampling does.
   */
  lemma NucleusKeepsAll(sorted: seq<real>, topP: real)
    requires NonNegative(sorted)
    requires |sorted| > 0 && Kept(sorted, topP, 0)
    ensures TopPWeights(sorted, topP) == sorted
  {
    forall k | 0 <= k < |sorted|
      ensures TopPWeights(sorted, topP)[k] == sorted[k]
    {
      NucleusIsSuffix(sorted, topP, 0, k);
    }
  }

  // ---------------------------------------------------------------------------
  // Dispatch

  datatype Strategy = Greedy | Nucleus | Plain

  /** Greedy at temperature 0; otherwise nucleus iff 0 < topP < 1; else plain. */
  function ChooseStrategy(temperature: real, topP: real): (s: Strategy)
    ensures s == Greedy <==> temperature == 0.0
    ensures s == Nucleus <==> temperature != 0.0 && 0.0 < topP && topP < 1.0
    ensures s == Plain <==> temperature != 0.0 && !(0.0 < topP && topP < 1.0)
  {
    if temperature == 0.0 then Greedy
    else if 0.0 < topP && topP < 1.0 then Nucleus
    else Plain
  }

  /**
   * One sampling step: the optional repetition penalty first, then exactly one
   * of greedy, nucleus or plain categorical sampling. The result is always a
   * vocabulary index, and at temperature 0 a maximal one.
   */
  function SampleToken(logits: seq<real>, config: GenerationConfig, previous: seq<int>, k: Kernels, key: nat): (r: int)
    requires SamplerInputsOk(logits, config, previous)
    requires KernelsOk(k)
    ensures 0 <= r < |logits|
    ensures config.temperature == 0.0 ==>
              var l := PenalizedLogits(logits, config, previous);
              forall j :: 0 <= j < |l| ==> l[j] <= l[r]
  {
    var l := PenalizedLogits(logits, config, previous);
    match ChooseStrategy(config.temperature, config.topP)
    case Greedy => ArgMax(l)
    case Nucleus => TopPSample(l, config.temperature, config.topP, k, key)
    case Plain => CategoricalSample(l, config.temperature, k, key)
  }

  /**
   * At temperature 0 the result is the first maximal penalised logit, whatever
   * topP, the kernels and the random key are.
   */
  lemma GreedyIgnoresTopP(logits: seq<real>, config: GenerationConfig, previous: seq<int>,
                          k: Kernels, key: nat, otherTopP: real, other: Kernels, otherKey: nat)
    requires SamplerInputsOk(logits, config, previous)
    requires KernelsOk(k) && KernelsOk(other)
    requires config.temperature == 0.0
    ensures SampleToken(logits, config, previous, k, key) == ArgMax(PenalizedLogits(logits, config, previous))
    ensures SampleToken(logits, config, previous, k, key)
         == SampleToken(logits, config.(topP := otherTopP), previous, other, otherKey)
  {
  }
}
