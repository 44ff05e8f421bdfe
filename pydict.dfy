/** Python dictionaries as the pipeline uses them: insertion-ordered, one entry per key. */
module PyDict {

  /** A dict literal or a dict built by assignments: (key, value) pairs in insertion order. */
  type Dict<V> = seq<(string, V)>

  function Keys<V>(d: Dict<V>): (r: seq<string>)
    ensures |r| == |d| && forall i :: 0 <= i < |d| ==> r[i] == d[i].0
  {
    if d == [] then [] else [d[0].0] + Keys(d[1..])
  }

  predicate UniqueKeys<V>(d: Dict<V>) {
    forall i, j :: 0 <= i < j < |d| ==> d[i].0 != d[j].0
  }

  /** `d.get(k, default)`. */
  function Get<V>(d: Dict<V>, k: string, default: V): V {
    if d == [] then default else if d[0].0 == k then d[0].1 else Get(d[1..], k, default)
  }

  /** `d[k] = v`: an existing key keeps its position, a new key goes last. */
  function Set<V>(d: Dict<V>, k: string, v: V): Dict<V> {
    if d == [] then [(k, v)]
    else if d[0].0 == k then [(k, v)] + d[1..]
    else [d[0]] + Set(d[1..], k, v)
  }

  /** `d[k] = v` keeps the key order of d and appends a new key. */
  lemma {:induction false} SetKeys<V>(d: Dict<V>, k: string, v: V)
    ensures Keys(Set(d, k, v)) == if k in Keys(d) then Keys(d) else Keys(d) + [k]
  {
    if d != [] && d[0].0 != k {
      SetKeys(d[1..], k, v);
    }
  }

  lemma KeysSnoc<V>(d: Dict<V>, x: (string, V))
    ensures Keys(d + [x]) == Keys(d) + [x.0]
  {
  }

  /** Setting a new key appends the pair. */
  lemma {:induction false} SetAppends<V>(d: Dict<V>, k: string, v: V)
    requires k !in Keys(d)
    ensures Set(d, k, v) == d + [(k, v)]
  {
    if d != [] {
      SetAppends(d[1..], k, v);
      assert d == [d[0]] + d[1..];
    }
  }

  /** `d[k] = v` keeps the keys unique. */
  lemma SetUniqueKeys<V>(d: Dict<V>, k: string, v: V)
    requires UniqueKeys(d)
    ensures UniqueKeys(Set(d, k, v))
  {
    SetKeys(d, k, v);
    var r := Set(d, k, v);
    var ks := Keys(r);
    forall i, j | 0 <= i < j < |r| ensures r[i].0 != r[j].0 {
      assert ks[i] == r[i].0 && ks[j] == r[j].0;
    }
  }

  /** After `d[k] = v`, `d.get(k)` is v and every other key reads as before. */
  lemma {:induction false} GetSet<V>(d: Dict<V>, k: string, v: V, other: string, default: V)
    ensures Get(Set(d, k, v), k, default) == v
    ensures other != k ==> Get(Set(d, k, v), other, default) == Get(d, other, default)
  {
    if d != [] && d[0].0 != k {
      GetSet(d[1..], k, v, other, default);
    }
  }

  /** A key that is present reads as the value stored with it. */
  lemma {:induction false} GetPresent<V>(d: Dict<V>, i: nat, default: V)
    requires UniqueKeys(d) && i < |d|
    ensures Get(d, d[i].0, default) == d[i].1
  {
    if i > 0 {
      GetPresent(d[1..], i - 1, default);
    }
  }

  /** A key that is absent reads as the default. */
  lemma {:induction false} GetAbsent<V>(d: Dict<V>, k: string, default: V)
    requires k !in Keys(d)
    ensures Get(d, k, default) == default
  {
    if d != [] {
      assert Keys(d) == [d[0].0] + Keys(d[1..]);
      GetAbsent(d[1..], k, default);
    }
  }
}
