/** A dictionary that remembers insertion order, as Python's does: a key that is
    set again keeps its place, one that was removed and is set again goes to the
    end, and popping keys leaves the others where they were. */
module OrderedDict {
  import opened Subsequences

  datatype Dict<V> = Dict(keys: seq<string>, at: map<string, V>)

  ghost predicate Valid<V>(d: Dict<V>) {
    && (forall i, j :: 0 <= i < j < |d.keys| ==> d.keys[i] != d.keys[j])
    && (forall k :: k in d.keys <==> k in d.at)
  }

  function Empty<V>(): Dict<V> {
    Dict([], map[])
  }

  /** A key that is already there keeps its place. */
  function Put<V>(d: Dict<V>, k: string, v: V): Dict<V> {
    Dict(if k in d.at then d.keys else d.keys + [k], d.at[k := v])
  }

  function Without(keys: seq<string>, k: string): (r: seq<string>)
    ensures forall x :: x in r <==> x in keys && x != k
    decreases |keys|
  {
    if keys == [] then []
    else
      var front, last := keys[..|keys| - 1], keys[|keys| - 1];
      assert keys == front + [last];
      if last == k then Without(front, k) else Without(front, k) + [last]
  }

  function Pop<V>(d: Dict<V>, k: string): Dict<V> {
    Dict(Without(d.keys, k), d.at - {k})
  }

  function PopAll<V>(d: Dict<V>, ks: seq<string>): Dict<V>
    decreases |ks|
  {
    if ks == [] then d else Pop(PopAll(d, ks[..|ks| - 1]), ks[|ks| - 1])
  }

  lemma PutValid<V>(d: Dict<V>, k: string, v: V)
    requires Valid(d)
    ensures Valid(Put(d, k, v))
    ensures |Put(d, k, v).keys| == |d.keys| + if k in d.at then 0 else 1
  {
  }

  lemma {:induction false} WithoutDistinct(keys: seq<string>, k: string)
    requires Distinct(keys)
    ensures Distinct(Without(keys, k)) && |Without(keys, k)| == |keys| - if k in keys then 1 else 0
    decreases |keys|
  {
    if keys != [] {
      var front, last := keys[..|keys| - 1], keys[|keys| - 1];
      assert keys == front + [last];
      WithoutDistinct(front, k);
      assert last !in front;
    }
  }

  lemma PopValid<V>(d: Dict<V>, k: string)
    requires Valid(d)
    ensures Valid(Pop(d, k)) && |Pop(d, k).keys| == |d.keys| - if k in d.at then 1 else 0
  {
    WithoutDistinct(d.keys, k);
  }

  /** Popping distinct keys that are there removes exactly these. */
  lemma {:induction false} PopAllFacts<V>(d: Dict<V>, ks: seq<string>)
    requires Valid(d) && Distinct(ks) && forall k :: k in ks ==> k in d.at
    ensures Valid(PopAll(d, ks)) && |PopAll(d, ks).keys| == |d.keys| - |ks|
    ensures forall k :: k in PopAll(d, ks).at <==> k in d.at && k !in ks
    ensures forall k :: k in PopAll(d, ks).at ==> PopAll(d, ks).at[k] == d.at[k]
    decreases |ks|
  {
    if ks != [] {
      var front, last := ks[..|ks| - 1], ks[|ks| - 1];
      assert ks == front + [last];
      PopAllFacts(d, front);
      assert last !in front;
      PopValid(PopAll(d, front), last);
    }
  }
}
