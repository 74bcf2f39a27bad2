/**
 * The weights audit: matches a module's flattened parameter names against the
 * keys of a loaded weight dictionary, prefix-qualified name first, and
 * reports how many matched, which were missing and which weights were never
 * used. Only the dictionary's key set matters, so weights are a set of keys.
 */
module WeightsAudit {
  import StringOrder

  datatype Summary = Summary(matched: nat, missing: seq<string>, extra: seq<string>)

  /** The second candidate: `prefix.key`, or the key alone when prefix is empty. */
  function Qualified(prefix: string, key: string): (q: string)
    ensures |prefix| == 0 ==> q == key
    ensures |prefix| > 0 ==>
              && |q| == |prefix| + 1 + |key|
              && q[..|prefix|] == prefix && q[|prefix|] == '.' && q[|prefix| + 1..] == key
  {
    if |prefix| == 0 then key else prefix + "." + key
  }

  /** The weight key a parameter is matched with, if any: qualified name first. */
  function Resolve(key: string, prefix: string, weights: set<string>): (r: string)
    requires Qualified(prefix, key) in weights || key in weights
    ensures r in weights
    ensures r == Qualified(prefix, key) || r == key
    ensures Qualified(prefix, key) in weights ==> r == Qualified(prefix, key)
  {
    if Qualified(prefix, key) in weights then Qualified(prefix, key) else key
  }

  predicate Found(key: string, prefix: string, weights: set<string>)
  {
    Qualified(prefix, key) in weights || key in weights
  }

  /** Number of parameters with a weight under either candidate name. */
  function MatchedCount(params: seq<string>, prefix: string, weights: set<string>): (r: nat)
    ensures r <= |params|
  {
    if |params| == 0 then 0
    else
      var init := params[..|params| - 1];
      var last := params[|params| - 1];
      MatchedCount(init, prefix, weights) + (if Found(last, prefix, weights) then 1 else 0)
  }

  /** The qualified names of the parameters without a weight, in parameter order. */
  function MissingKeys(params: seq<string>, prefix: string, weights: set<string>): (r: seq<string>)
    ensures |r| <= |params|
  {
    if |params| == 0 then []
    else
      var init := params[..|params| - 1];
      var last := params[|params| - 1];
      MissingKeys(init, prefix, weights) + (if Found(last, prefix, weights) then [] else [Qualified(prefix, last)])
  }

  /** The weight keys some parameter was matched with. */
  function UsedKeys(params: seq<string>, prefix: string, weights: set<string>): (r: set<string>)
    ensures r <= weights
  {
    if |params| == 0 then {}
    else
      var init := params[..|params| - 1];
      var last := params[|params| - 1];
      UsedKeys(init, prefix, weights) + (if Found(last, prefix, weights) then {Resolve(last, prefix, weights)} else {})
  }

  /** The weight keys no parameter was matched with. */
  function ExtraKeys(params: seq<string>, prefix: string, weights: set<string>): (r: set<string>)
    ensures r <= weights
    ensures r !! UsedKeys(params, prefix, weights)
  {
    weights - UsedKeys(params, prefix, weights)
  }

  /** How many entries `prefix(max(0, sample))` keeps of a list of length len. */
  function SampleSize(sample: int, len: nat): (n: nat)
    ensures n <= len
    ensures sample <= 0 ==> n == 0
    ensures sample >= len ==> n == len
    ensures 0 <= sample <= len ==> n == sample
  {
    var k := if sample < 0 then 0 else sample;
    if k < len then k else len
  }

  predicate Distinct(s: seq<string>)
  {
    forall i, j :: 0 <= i < j < |s| ==> s[i] != s[j]
  }

  /** Every parameter has a weight under one of its names exactly when all are matched. */
  lemma {:induction false} MatchedAll(params: seq<string>, prefix: string, weights: set<string>)
    ensures MatchedCount(params, prefix, weights) == |params| <==>
              forall i :: 0 <= i < |params| ==> Found(params[i], prefix, weights)
  {
    if |params| > 0 {
      var init := params[..|params| - 1];
      MatchedAll(init, prefix, weights);
      assert forall i :: 0 <= i < |init| ==> init[i] == params[i];
    }
  }

  /**
   * The missing list holds the qualified name of every parameter found under
   * neither name, and nothing else; none of its names is a weight key.
   */
  lemma {:induction false} MissingKeysMembers(params: seq<string>, prefix: string, weights: set<string>)
    ensures forall m :: m in MissingKeys(params, prefix, weights) ==> m !in weights
    ensures forall m :: m in MissingKeys(params, prefix, weights) <==>
              exists i :: 0 <= i < |params| && !Found(params[i], prefix, weights) && m == Qualified(prefix, params[i])
  {
    if |params| > 0 {
      var init := params[..|params| - 1];
      MissingKeysMembers(init, prefix, weights);
      assert forall i :: 0 <= i < |init| ==> init[i] == params[i];
    }
  }

  /** The used keys are exactly the keys the parameters resolved to. */
  lemma {:induction false} UsedKeysMembers(params: seq<string>, prefix: string, weights: set<string>)
    ensures forall u :: u in UsedKeys(params, prefix, weights) <==>
              exists i :: 0 <= i < |params| && Found(params[i], prefix, weights) && u == Resolve(params[i], prefix, weights)
  {
    if |params| > 0 {
      var init := params[..|params| - 1];
      UsedKeysMembers(init, prefix, weights);
      assert forall i :: 0 <= i < |init| ==> init[i] == params[i];
    }
  }

  /** Every parameter is matched or missing, never both and never neither. */
  lemma {:induction false} MatchedPlusMissing(params: seq<string>, prefix: string, weights: set<string>)
    ensures MatchedCount(params, prefix, weights) + |MissingKeys(params, prefix, weights)| == |params|
  {
    if |params| > 0 {
      MatchedPlusMissing(params[..|params| - 1], prefix, weights);
    }
  }

  /** Several parameters can share one weight key, so there are never more used keys than matches. */
  lemma {:induction false} UsedAtMostMatched(params: seq<string>, prefix: string, weights: set<string>)
    ensures |UsedKeys(params, prefix, weights)| <= MatchedCount(params, prefix, weights)
  {
    if |params| > 0 {
      UsedAtMostMatched(params[..|params| - 1], prefix, weights);
    }
  }

  /** When every prefix-qualified parameter name is a weight key, nothing is missing. */
  lemma AllQualifiedPresent(params: seq<string>, prefix: string, weights: set<string>)
    requires forall i :: 0 <= i < |params| ==> Qualified(prefix, params[i]) in weights
    ensures MissingKeys(params, prefix, weights) == []
    ensures MatchedCount(params, prefix, weights) == |params|
    ensures UsedKeys(params, prefix, weights) == set i | 0 <= i < |params| :: Qualified(prefix, params[i])
  {
    MatchedAll(params, prefix, weights);
    MatchedPlusMissing(params, prefix, weights);
    UsedKeysMembers(params, prefix, weights);
  }

  /** The extra count is the weight count less the used keys. */
  lemma ExtraCount(params: seq<string>, prefix: string, weights: set<string>)
    ensures |ExtraKeys(params, prefix, weights)| == |weights| - |UsedKeys(params, prefix, weights)|
  {
    var used := UsedKeys(params, prefix, weights);
    assert weights == ExtraKeys(params, prefix, weights) + used;
  }

  /**
   * `audit`: the matching loop, then the conversion of the remaining keys to
   * a list, and the samples the log lines show (the first entries of
   * `missing` and of the sorted extra keys).
   */
  method Audit(params: seq<string>, weights: set<string>, prefix: string, sample: int)
    returns (summary: Summary, missingSample: seq<string>, extraSample: seq<string>)
    ensures summary.matched == MatchedCount(params, prefix, weights)
    ensures summary.missing == MissingKeys(params, prefix, weights)
    ensures Distinct(summary.extra)
    ensures forall x :: x in summary.extra <==> x in ExtraKeys(params, prefix, weights)
    ensures |summary.extra| == |ExtraKeys(params, prefix, weights)|
    ensures missingSample == summary.missing[..SampleSize(sample, |summary.missing|)]
    ensures extraSample == StringOrder.SortStrings(summary.extra)[..SampleSize(sample, |summary.extra|)]
  {
    var matched := 0;
    var missingKeys: seq<string> := [];
    var remaining := weights;
    for i := 0 to |params|
      invariant matched == MatchedCount(params[..i], prefix, weights)
      invariant missingKeys == MissingKeys(params[..i], prefix, weights)
      invariant remaining == weights - UsedKeys(params[..i], prefix, weights)
    {
      MatchStep(params, i, prefix, weights);
      var key := params[i];
      var candidate1 := key;
      var candidate2 := Qualified(prefix, key);
      if candidate2 in weights {
        assert Found(key, prefix, weights) && Resolve(key, prefix, weights) == candidate2;
        matched := matched + 1;
        remaining := remaining - {candidate2};
      } else if candidate1 in weights {
        assert Found(key, prefix, weights) && Resolve(key, prefix, weights) == candidate1;
        matched := matched + 1;
        remaining := remaining - {candidate1};
      } else {
        assert !Found(key, prefix, weights);
        missingKeys := missingKeys + [candidate2];
      }
    }
    assert params[..|params|] == params;
    assert remaining == ExtraKeys(params, prefix, weights);

    var extra := ListKeys(remaining);

    summary := Summary(matched, missingKeys, extra);
    missingSample := missingKeys[..SampleSize(sample, |missingKeys|)];
    var sorted := StringOrder.SortStrings(extra);
    extraSample := sorted[..SampleSize(sample, |extra|)];
  }

  /** One more parameter: its outcome is added to the tallies of the ones before it. */
  lemma MatchStep(params: seq<string>, i: nat, prefix: string, weights: set<string>)
    requires i < |params|
    ensures var p, key := params[..i + 1], params[i];
            && MatchedCount(p, prefix, weights) == MatchedCount(params[..i], prefix, weights) + (if Found(key, prefix, weights) then 1 else 0)
            && MissingKeys(p, prefix, weights) == MissingKeys(params[..i], prefix, weights) + (if Found(key, prefix, weights) then [] else [Qualified(prefix, key)])
            && UsedKeys(p, prefix, weights) == UsedKeys(params[..i], prefix, weights) + (if Found(key, prefix, weights) then {Resolve(key, prefix, weights)} else {})
  {
    assert params[..i + 1][..i] == params[..i];
  }

  /** `Array(remaining)`: the keys of a set, each once, in some order. */
  method ListKeys(keys: set<string>) returns (list: seq<string>)
    ensures Distinct(list)
    ensures forall x :: x in list <==> x in keys
    ensures |list| == |keys|
  {
    list := [];
    var rest := keys;
    while rest != {}
      invariant rest <= keys
      invariant forall x :: x in list <==> x in keys && x !in rest
      invariant Distinct(list)
      invariant |list| + |rest| == |keys|
      decreases |rest|
    {
      var x :| x in rest;
      list := list + [x];
      rest := rest - {x};
    }
  }

  /**
   * The extra sample holds the alphabetically first extra keys: each of them
   * comes before every extra key it leaves out.
   */
  lemma ExtraSampleSmallest(extra: seq<string>, sample: int)
    requires Distinct(extra)
    ensures var sorted := StringOrder.SortStrings(extra);
            var n := SampleSize(sample, |extra|);
            forall x, y :: x in sorted[..n] && y in sorted[n..] ==> StringOrder.Less(x, y)
  {
    var sorted := StringOrder.SortStrings(extra);
    forall i, j | 0 <= i < j < |sorted|
      ensures sorted[i] != sorted[j]
    {
      if sorted[i] == sorted[j] {
        RepeatCounts(sorted, i, j);
        DistinctCounts(extra, sorted[i]);
        assert false;
      }
    }
    StringOrder.SortedPrefixSmallest(sorted, SampleSize(sample, |extra|));
  }

  /** A string at two positions occurs at least twice. */
  lemma RepeatCounts(s: seq<string>, i: nat, j: nat)
    requires i < j < |s| && s[i] == s[j]
    ensures multiset(s)[s[i]] >= 2
  {
    assert s == s[..j] + s[j..];
    assert s[i] in s[..j];
    assert s[j..] == [s[j]] + s[j + 1..];
  }

  /** In a sequence without repeats, every string occurs at most once. */
  lemma {:induction false} DistinctCounts(s: seq<string>, x: string)
    requires Distinct(s)
    ensures multiset(s)[x] <= 1
    decreases |s|
  {
    if |s| > 0 {
      assert s == [s[0]] + s[1..];
      DistinctCounts(s[1..], x);
      if s[0] == x {
        assert x !in s[1..];
      }
    }
  }
}
