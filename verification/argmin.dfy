/**
 * The index Python's builtin `min(xs, key=k)` selects: it scans left to right
 * and replaces its current candidate only when a later key is STRICTLY
 * smaller, so among equal minima the first one wins.
 */
module ArgMin {

  /** `k` is a minimum of `keys` and no earlier index attains that minimum. */
  predicate IsFirstMin(keys: seq<int>, k: nat) {
    && k < |keys|
    && (forall j :: 0 <= j < |keys| ==> keys[k] <= keys[j])
    && (forall j :: 0 <= j < k ==> keys[k] < keys[j])
  }

  /**
   * The scan of `min` from position `i`, holding candidate `best`, which is the
   * first minimum of the prefix already seen.
   */
  function ScanFrom(keys: seq<int>, i: nat, best: nat): (k: nat)
    requires best < i <= |keys|
    requires IsFirstMin(keys[..i], best)
    ensures IsFirstMin(keys, k)
    decreases |keys| - i
  {
    if i == |keys| then
      assert keys[..i] == keys;
      best
    else if keys[i] < keys[best] then
      ScanFrom(keys, i + 1, i)
    else
      ScanFrom(keys, i + 1, best)
  }

  /** The index `min` returns for a non-empty key sequence. */
  function FirstMinIndex(keys: seq<int>): (k: nat)
    requires |keys| > 0
    ensures IsFirstMin(keys, k)
  {
    ScanFrom(keys, 1, 0)
  }

  /** There is only one first minimum, so the scan's answer is the only one. */
  lemma FirstMinUnique(keys: seq<int>, k: nat, k': nat)
    requires IsFirstMin(keys, k) && IsFirstMin(keys, k')
    ensures k == k'
  {
    assert keys[k] == keys[k'];
  }

  /** Characterisation in both directions: `k` is the scan's answer exactly when it is the first minimum. */
  lemma FirstMinIndexIff(keys: seq<int>, k: nat)
    requires |keys| > 0
    ensures k == FirstMinIndex(keys) <==> IsFirstMin(keys, k)
  {
    if IsFirstMin(keys, k) {
      FirstMinUnique(keys, k, FirstMinIndex(keys));
    }
  }
}
