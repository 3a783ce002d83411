/**
  A priority table: a Python dict literal from category names to integer
  priorities, kept as the sequence of its entries in insertion order.
 */
module PriorityTable {

  type Table = seq<(string, int)>

  /** `key in d`. */
  predicate HasKey(d: Table, key: string) {
    exists i :: 0 <= i < |d| && d[i].0 == key
  }

  /** Entry `i` is the first one with key `key`. */
  predicate IsFirstKey(d: Table, key: string, i: int) {
    0 <= i < |d| && d[i].0 == key && forall j :: 0 <= j < i ==> d[j].0 != key
  }

  /** No key is written twice, as in every dict literal of the source. */
  predicate DistinctKeys(d: Table) {
    forall i, j :: 0 <= i < j < |d| ==> d[i].0 != d[j].0
  }

  /** `d.get(key, default)`: the value of the entry with that key, or
      `default` when the key is absent. */
  function Get(d: Table, key: string, default: int): (v: int)
    ensures !HasKey(d, key) ==> v == default
    ensures forall i :: IsFirstKey(d, key, i) ==> v == d[i].1
  {
    if d == [] then
      default
    else if d[0].0 == key then
      d[0].1
    else
      var v := Get(d[1..], key, default);
      assert forall i :: 1 <= i < |d| ==> d[i] == d[1..][i - 1];
      v
  }

  /** A present key has a first entry. */
  lemma FirstKeyExists(d: Table, key: string) returns (i: nat)
    requires HasKey(d, key)
    ensures IsFirstKey(d, key, i)
  {
    var k :| 0 <= k < |d| && d[k].0 == key;
    i := 0;
    while d[i].0 != key
      invariant 0 <= i <= k
      invariant forall j :: 0 <= j < i ==> d[j].0 != key
      decreases k - i
    {
      i := i + 1;
    }
  }

  /** With distinct keys the lookup returns the value written beside the
      key, which is what the Python dict holds. */
  lemma GetDistinct(d: Table, i: nat, default: int)
    requires DistinctKeys(d) && i < |d|
    ensures Get(d, d[i].0, default) == d[i].1
  {
    assert IsFirstKey(d, d[i].0, i);
  }

  /** Keys of a concatenation: distinct when both halves are and no key is
      shared between them. */
  lemma DistinctAppend(a: Table, b: Table)
    requires DistinctKeys(a) && DistinctKeys(b)
    requires forall i, j :: 0 <= i < |a| && 0 <= j < |b| ==> a[i].0 != b[j].0
    ensures DistinctKeys(a + b)
  {
    forall i, j | 0 <= i < j < |a + b|
      ensures (a + b)[i].0 != (a + b)[j].0
    {
      if j < |a| {
        assert (a + b)[i] == a[i] && (a + b)[j] == a[j];
      } else if i < |a| {
        assert (a + b)[i] == a[i] && (a + b)[j] == b[j - |a|];
      } else {
        assert (a + b)[i] == b[i - |a|] && (a + b)[j] == b[j - |a|];
      }
    }
  }
}
