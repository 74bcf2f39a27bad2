/**
 * The growable key/value cache of one attention layer (KVCacheSimple) and the
 * attention-mask rules that go with it.
 *
 * Only the time axis of the buffers is modelled: a buffer is an array of
 * positions, each holding an abstract row of type T (the batch, head and
 * head-dim axes are folded into T). A missing buffer (Swift `nil`) is `null`.
 */
module KVCache {

  /** The mask modes the cache hands to scaled dot-product attention. */
  datatype MaskMode = NoMask | Causal

  /** ceil(n / step), computed as (step + n - 1) / step like the source. */
  function CeilDiv(n: nat, step: nat): (q: nat)
    requires step > 0
    ensures q * step >= n
    ensures q > 0 ==> (q - 1) * step < n
  {
    var q := (step + n - 1) / step;
    assert q * step <= step + n - 1 < (q + 1) * step;
    q
  }

  /** A multiple of step leaves no remainder. */
  lemma MultipleMod(q: nat, step: nat)
    requires step > 0
    ensures (q * step) % step == 0
  {
    var x := q * step;
    var d, r := x / step, x % step;
    assert (q - d) * step == r by {
      assert x == d * step + r;
      assert (q - d) * step == q * step - d * step;
    }
    if q - d >= 1 {
      assert false;
    } else if q - d <= -1 {
      assert false;
    }
  }

  /** Number of zero positions one grow appends for n incoming positions. */
  function GrowBy(n: nat, step: nat): (g: nat)
    requires step > 0
    ensures n <= g < n + step
    ensures g % step == 0
  {
    var q := CeilDiv(n, step);
    if q == 0 then 0
    else
      assert q * step == (q - 1) * step + step;
      MultipleMod(q, step);
      q * step
  }

  /**
   * Capacity after a grow: the old buffer (trimmed to `previous` when that is
   * not a multiple of `step`, kept whole otherwise; nothing when there is no
   * buffer yet) followed by GrowBy(n, step) zero positions.
   */
  function GrownCapacity(hasBuffer: bool, capacity: nat, previous: nat, n: nat, step: nat): nat
    requires step > 0
  {
    (if !hasBuffer then 0 else if previous % step != 0 then previous else capacity) + GrowBy(n, step)
  }

  /** A grow always leaves room for the write at [previous, previous + n). */
  lemma GrownCapacityFits(hasBuffer: bool, capacity: nat, previous: nat, n: nat, step: nat)
    requires step > 0
    requires hasBuffer ==> previous <= capacity
    requires !hasBuffer ==> previous == 0
    ensures GrownCapacity(hasBuffer, capacity, previous, n, step) >= previous + n
    ensures GrownCapacity(hasBuffer, capacity, previous, n, step) < previous + n + step + (capacity - previous)
  {
  }

  /**
   * A grow keeps the capacity a multiple of step when the old capacity was one
   * and the offset is aligned (the buffer is kept whole), or when there was no
   * buffer; CapacityDriftExample shows an unaligned offset breaking it.
   */
  lemma GrownCapacityAligned(hasBuffer: bool, capacity: nat, previous: nat, n: nat, step: nat)
    requires step > 0
    requires hasBuffer ==> capacity % step == 0 && previous % step == 0
    ensures GrownCapacity(hasBuffer, capacity, previous, n, step) % step == 0
  {
    var g := GrowBy(n, step);
    if hasBuffer {
      var a, b := capacity / step, g / step;
      assert capacity == a * step;
      assert g == b * step;
      assert capacity + g == (a + b) * step;
      MultipleMod(a + b, step);
    }
  }

  class KVCacheSimple<T> {
    var keys: array?<T>
    var values: array?<T>
    var offset: nat
    const step: nat
    /** The filler value of a freshly allocated position (MLXArray.zeros). */
    const zero: T

    /**
     * Object invariant: both buffers exist or neither does, they have the same
     * capacity, `offset` valid positions fit in it, and every position at or
     * beyond `offset` holds zero filler.
     */
    ghost predicate Valid()
      reads this, keys, values
    {
      && step > 0
      && (keys == null <==> values == null)
      && (keys == null ==> offset == 0)
      && (keys != null ==>
            && keys != values
            && keys.Length == values.Length
            && offset <= keys.Length
            && (forall i :: offset <= i < keys.Length ==> keys[i] == zero)
            && (forall i :: offset <= i < values.Length ==> values[i] == zero))
    }

    /** Number of positions the buffers can hold (0 before the first update). */
    ghost function Capacity(): nat
      reads this, keys
    {
      if keys == null then 0 else keys.Length
    }

    /** The valid keys, [0, offset) of the key buffer. */
    ghost function ValidKeys(): seq<T>
      reads this, keys, values
      requires Valid()
    {
      if keys == null then [] else keys[..offset]
    }

    /** The valid values, [0, offset) of the value buffer. */
    ghost function ValidValues(): seq<T>
      reads this, keys, values
      requires Valid()
    {
      if values == null then [] else values[..offset]
    }

    /** Whether an update with n new positions reallocates the buffers. */
    ghost predicate NeedsGrow(n: nat)
      reads this, keys
    {
      keys == null || offset + n > keys.Length
    }

    constructor (step: nat, zero: T)
      requires step > 0
      ensures Valid()
      ensures this.step == step && this.zero == zero
      ensures keys == null && values == null && offset == 0
    {
      this.step := step;
      this.zero := zero;
      keys := null;
      values := null;
      offset := 0;
    }

    /** A fresh buffer: the first `base` positions of a, then `extra` zero positions. */
    method Extended(a: array<T>, base: nat, extra: nat) returns (b: array<T>)
      requires base <= a.Length
      ensures fresh(b) && b.Length == base + extra
      ensures forall i :: 0 <= i < base ==> b[i] == a[i]
      ensures forall i :: base <= i < b.Length ==> b[i] == zero
    {
      var z := zero;
      b := new T[base + extra](_ => z);
      forall i | 0 <= i < base {
        b[i] := a[i];
      }
    }

    /**
     * The reallocation of Update (the `reset` branch): the old buffer, trimmed
     * to `offset` when that is not a multiple of `step`, followed by
     * GrowBy(n, step) zero positions; with no buffer yet, the zero block alone.
     */
    method Grow(n: nat)
      requires Valid() && NeedsGrow(n)
      modifies this
      ensures Valid() && fresh(keys) && fresh(values)
      ensures offset == old(offset)
      ensures ValidKeys() == old(ValidKeys()) && ValidValues() == old(ValidValues())
      ensures Capacity() == GrownCapacity(old(keys) != null, old(Capacity()), offset, n, step)
      ensures Capacity() >= offset + n
    {
      var extra := GrowBy(n, step);
      GrownCapacityFits(keys != null, Capacity(), offset, n, step);
      if keys != null {
        var base := if offset % step != 0 then offset else keys.Length;
        var k := Extended(keys, base, extra);
        var v := Extended(values, base, extra);
        assert k[..offset] == keys[..offset];
        assert v[..offset] == values[..offset];
        keys, values := k, v;
      } else {
        var z := zero;
        keys := new T[extra](_ => z);
        values := new T[extra](_ => z);
      }
    }

    /** Writes n positions behind `offset` into buffers with room for them. */
    method Store(newKeys: seq<T>, newValues: seq<T>)
      requires Valid() && !NeedsGrow(|newKeys|)
      requires |newKeys| == |newValues|
      modifies this, keys, values
      ensures Valid()
      ensures keys == old(keys) && values == old(values)
      ensures offset == old(offset) + |newKeys|
      ensures ValidKeys() == old(ValidKeys()) + newKeys
      ensures ValidValues() == old(ValidValues()) + newValues
    {
      var previous := offset;
      ghost var before := ValidKeys();
      ghost var beforeValues := ValidValues();
      offset := offset + |newKeys|;
      forall i | previous <= i < offset {
        keys[i] := newKeys[i - previous];
      }
      forall i | previous <= i < offset {
        values[i] := newValues[i - previous];
      }
      assert keys[..offset] == before + newKeys;
      assert values[..offset] == beforeValues + newValues;
    }

    /**
     * Appends n = |newKeys| positions and returns the valid prefix of both
     * buffers. The buffers are reallocated exactly when there is no buffer yet
     * or the n positions do not fit behind `offset`.
     */
    method Update(newKeys: seq<T>, newValues: seq<T>) returns (allKeys: seq<T>, allValues: seq<T>)
      requires Valid()
      requires |newKeys| == |newValues|
      modifies this, keys, values
      ensures Valid()
      ensures offset == old(offset) + |newKeys|
      ensures allKeys == old(ValidKeys()) + newKeys
      ensures allValues == old(ValidValues()) + newValues
      ensures allKeys == ValidKeys() && allValues == ValidValues()
      ensures Capacity() >= offset
      ensures !old(NeedsGrow(|newKeys|)) ==> keys == old(keys) && values == old(values)
      ensures old(NeedsGrow(|newKeys|)) ==>
                && fresh(keys) && fresh(values)
                && Capacity() == GrownCapacity(old(keys) != null, old(Capacity()), old(offset), |newKeys|, step)
    {
      var n := |newKeys|;
      if keys == null || offset + n > keys.Length {
        Grow(n);
      }
      Store(newKeys, newValues);
      allKeys := keys[..offset];
      allValues := values[..offset];
    }

    /** The mask policy: no mask for a single query position, causal otherwise. */
    function MakeMask(n: int): (m: MaskMode)
      ensures m == NoMask <==> n == 1
      ensures m == Causal <==> n != 1
    {
      if n == 1 then NoMask else Causal
    }

    /** Drops both buffers and rewinds `offset`; the next update allocates afresh. */
    method Reset()
      requires Valid()
      modifies this
      ensures Valid()
      ensures keys == null && values == null && offset == 0
      ensures ValidKeys() == [] && ValidValues() == [] && NeedsGrow(0)
    {
      keys := null;
      values := null;
      offset := 0;
    }
  }

  /** The half-open integer range [lo, hi) as a sequence. */
  function Range(lo: int, hi: int): (r: seq<int>)
    requires lo <= hi
    ensures |r| == hi - lo
    ensures forall k :: 0 <= k < |r| ==> r[k] == lo + k
  {
    seq(hi - lo, k => lo + k)
  }

  /** Broadcast comparison `rows[i] >= cols[j]` of a column against a row. */
  function OuterGreaterEqual(rows: seq<int>, cols: seq<int>): (m: seq<seq<bool>>)
  {
    seq(|rows|, i requires 0 <= i < |rows| => seq(|cols|, j requires 0 <= j < |cols| => rows[i] >= cols[j]))
  }

  /**
   * The boolean causal mask of n queries at absolute positions
   * [offset, offset + n) against keys [0, offset + n): query i may see key j
   * exactly when j is not after its own position.
   */
  function CreateCausalMask(n: nat, offset: nat): (m: seq<seq<bool>>)
    ensures |m| == n
    ensures forall i :: 0 <= i < n ==> |m[i]| == n + offset
    ensures forall i, j :: 0 <= i < n && 0 <= j < n + offset ==> (m[i][j] <==> j <= offset + i)
  {
    OuterGreaterEqual(Range(offset, n + offset), Range(0, n + offset))
  }

  /** All-true row of length a followed by all-false of length b. */
  function Visible(a: nat, b: nat): (r: seq<bool>)
  {
    seq(a, _ => true) + seq(b, _ => false)
  }

  /**
   * Row i of the causal mask lets query i see exactly the offset + i + 1
   * keys up to and including its own position, and none after it.
   */
  lemma CausalMaskRows(n: nat, offset: nat, i: nat)
    requires i < n
    ensures CreateCausalMask(n, offset)[i] == Visible(offset + i + 1, n - 1 - i)
  {
    var m := CreateCausalMask(n, offset);
    var v := Visible(offset + i + 1, n - 1 - i);
    assert |v| == |m[i]|;
    forall j | 0 <= j < |v|
      ensures m[i][j] == v[j]
    {
      if j <= offset + i {
        assert v[j] == seq(offset + i + 1, _ => true)[j];
      } else {
        assert v[j] == seq(n - 1 - i, _ => false)[j - (offset + i + 1)];
      }
    }
  }

  /**
   * The mask for an input of sequence length n: the cache's own policy when a
   * cache is given, the same rule otherwise.
   */
  function CreateAttentionMask<T>(n: int, cache: KVCacheSimple?<T>): (m: MaskMode)
    ensures m == NoMask <==> n == 1
    ensures cache != null ==> m == cache.MakeMask(n)
  {
    if cache != null then cache.MakeMask(n)
    else if n == 1 then NoMask
    else Causal
  }

  /**
   * A client run: with step 4, one position then four more positions force a
   * grow from an unaligned offset, which trims to 1 and appends 4, leaving a
   * capacity of 5 that is not a multiple of the step.
   */
  method CapacityDriftExample(a: int, b: int, c: int, d: int, e: int)
  {
    var cache := new KVCacheSimple<int>(4, 0);
    var ks, vs := cache.Update([a], [a]);
    assert cache.Capacity() == 4 && ks == [a];
    ks, vs := cache.Update([b, c, d, e], [b, c, d, e]);
    assert cache.Capacity() == 5 && cache.Capacity() % 4 != 0;
    assert ks == [a, b, c, d, e] && vs == ks;
    cache.Reset();
    ks, vs := cache.Update([e], [e]);
    assert ks == [e] && cache.Capacity() == 4;
  }
}
