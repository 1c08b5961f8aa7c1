/**
 * Python dictionaries remember the order in which their keys were first inserted, and the
 * writers iterate over them (`dict.values()`, `dict.items()`) in that order. `Assoc` is such a
 * dictionary as an association list: `d[k] = v` is `Put`, `d.setdefault(k, v)` is `SetDefault`.
 */
module OrderedMap {
  import opened Wrappers

  type Assoc<K, V> = seq<(K, V)>

  /** The keys in insertion order. */
  function Keys<K, V>(m: Assoc<K, V>): (r: seq<K>)
    ensures |r| == |m|
    ensures forall i :: 0 <= i < |m| ==> r[i] == m[i].0
  {
    if |m| == 0 then [] else [m[0].0] + Keys(m[1..])
  }

  /** The values in insertion order of their keys (`dict.values()`). */
  function Values<K, V>(m: Assoc<K, V>): (r: seq<V>)
    ensures |r| == |m|
    ensures forall i :: 0 <= i < |m| ==> r[i] == m[i].1
  {
    if |m| == 0 then [] else [m[0].1] + Values(m[1..])
  }

  /** Appending an entry appends its value. */
  lemma ValuesSnoc<K, V>(m: Assoc<K, V>, e: (K, V))
    ensures Values(m + [e]) == Values(m) + [e.1]
  {
    var lhs, rhs := Values(m + [e]), Values(m) + [e.1];
    assert |lhs| == |rhs|;
    forall i | 0 <= i < |lhs| ensures lhs[i] == rhs[i] {
      if i < |m| {
        assert rhs[i] == Values(m)[i] == m[i].1;
      }
    }
  }

  /** Appending a new key makes it map to the appended value. */
  lemma {:induction false} AppendGet<K, V>(m: Assoc<K, V>, k: K, v: V)
    requires k !in Keys(m)
    ensures Get(m + [(k, v)], k) == Some(v)
  {
    if |m| > 0 {
      assert (m + [(k, v)])[1..] == m[1..] + [(k, v)];
      assert Keys(m)[0] == m[0].0;
      assert Keys(m[1..]) == Keys(m)[1..];
      AppendGet(m[1..], k, v);
    }
  }

  /** Appending an entry leaves every other key as it was. */
  lemma {:induction false} AppendGetOther<K, V>(m: Assoc<K, V>, k: K, v: V, k': K)
    requires k' != k
    ensures Get(m + [(k, v)], k') == Get(m, k')
  {
    if |m| > 0 {
      assert (m + [(k, v)])[1..] == m[1..] + [(k, v)];
      AppendGetOther(m[1..], k, v, k');
    }
  }

  /** No key occurs twice, as in every dictionary. */
  predicate Unique<K(==), V>(m: Assoc<K, V>) {
    forall i, j :: 0 <= i < j < |m| ==> m[i].0 != m[j].0
  }

  /** `d.get(k)`. */
  function Get<K(==), V>(m: Assoc<K, V>, k: K): (r: Option<V>)
    ensures r.None? <==> k !in Keys(m)
    ensures r.Some? ==> exists i :: 0 <= i < |m| && m[i].0 == k && m[i].1 == r.value
  {
    if |m| == 0 then None
    else if m[0].0 == k then Some(m[0].1)
    else Get(m[1..], k)
  }

  /** `d[k] = v`: an existing key keeps its position, a new key goes last. */
  function Put<K(==), V>(m: Assoc<K, V>, k: K, v: V): (r: Assoc<K, V>)
    ensures Keys(r) == if k in Keys(m) then Keys(m) else Keys(m) + [k]
  {
    if |m| == 0 then [(k, v)]
    else if m[0].0 == k then [(k, v)] + m[1..]
    else [m[0]] + Put(m[1..], k, v)
  }

  /** `d.setdefault(k, v)`: the entry stored under `k` afterwards, and the new dictionary. */
  function SetDefault<K(==), V>(m: Assoc<K, V>, k: K, v: V): (r: (V, Assoc<K, V>))
    ensures Get(m, k).Some? ==> r == (Get(m, k).value, m)
    ensures Get(m, k).None? ==> r == (v, m + [(k, v)])
  {
    match Get(m, k)
    case Some(u) => (u, m)
    case None => (v, m + [(k, v)])
  }

  /** After `d[k] = v`, `d[k]` is `v`. */
  lemma {:induction false} GetPutSame<K, V>(m: Assoc<K, V>, k: K, v: V)
    ensures Get(Put(m, k, v), k) == Some(v)
  {
    if |m| > 0 && m[0].0 != k {
      GetPutSame(m[1..], k, v);
      assert Put(m, k, v)[1..] == Put(m[1..], k, v);
    }
  }

  /** After `d[k] = v`, every other key maps to what it mapped to before. */
  lemma {:induction false} GetPutOther<K, V>(m: Assoc<K, V>, k: K, v: V, k': K)
    requires k' != k
    ensures Get(Put(m, k, v), k') == Get(m, k')
  {
    if |m| > 0 && m[0].0 != k {
      GetPutOther(m[1..], k, v, k');
      assert Put(m, k, v)[1..] == Put(m[1..], k, v);
    } else if |m| > 0 {
      assert Put(m, k, v)[1..] == m[1..];
    }
  }

  /** Storing twice under the same key keeps only the second value. */
  lemma {:induction false} PutPut<K, V>(m: Assoc<K, V>, k: K, v: V, w: V)
    ensures Put(Put(m, k, v), k, w) == Put(m, k, w)
  {
    if |m| > 0 && m[0].0 != k {
      PutPut(m[1..], k, v, w);
      assert Put(m, k, v)[1..] == Put(m[1..], k, v);
    }
  }

  /** `d[k] = v` keeps a dictionary's keys distinct. */
  lemma PutUnique<K, V>(m: Assoc<K, V>, k: K, v: V)
    requires Unique(m)
    ensures Unique(Put(m, k, v))
  {
    var r := Put(m, k, v);
    assert Keys(r) == if k in Keys(m) then Keys(m) else Keys(m) + [k];
    forall i, j | 0 <= i < j < |r|
      ensures r[i].0 != r[j].0
    {
      assert Keys(r)[i] == r[i].0 && Keys(r)[j] == r[j].0;
      if k !in Keys(m) && j == |m| {
        assert Keys(m)[i] == m[i].0;
      } else {
        assert Keys(m)[i] == m[i].0 && Keys(m)[j] == m[j].0;
      }
    }
  }

  /** `d[k] = v` on an existing key replaces exactly that entry in place. */
  lemma {:induction false} PutInPlace<K, V>(m: Assoc<K, V>, i: nat, v: V)
    requires Unique(m) && i < |m|
    ensures Put(m, m[i].0, v) == m[i := (m[i].0, v)]
  {
    var k := m[i].0;
    var t := m[1..];
    if i > 0 {
      assert m[0].0 != k;
      assert Put(m, k, v) == [m[0]] + Put(t, k, v);
      UniqueTail(m);
      assert t[i - 1] == m[i];
      PutInPlace(t, i - 1, v);
      UpdateBehindHead(m, i, (k, v));
    } else {
      assert Put(m, k, v) == [(k, v)] + t;
      assert m[i := (k, v)] == [(k, v)] + t;
    }
  }

  /** Replacing an entry behind the first one replaces it in the tail. */
  lemma UpdateBehindHead<K, V>(m: Assoc<K, V>, i: nat, e: (K, V))
    requires 0 < i < |m|
    ensures m[i := e] == [m[0]] + m[1..][i - 1 := e]
  {
    var lhs, rhs := m[i := e], [m[0]] + m[1..][i - 1 := e];
    assert |lhs| == |rhs|;
    forall j | 0 <= j < |lhs| ensures lhs[j] == rhs[j] {
      if j > 0 {
        assert rhs[j] == m[1..][i - 1 := e][j - 1];
      }
    }
  }

  lemma UniqueTail<K, V>(m: Assoc<K, V>)
    requires Unique(m) && |m| > 0
    ensures Unique(m[1..])
  {
    forall a, b | 0 <= a < b < |m| - 1 ensures m[1..][a].0 != m[1..][b].0 {
      assert m[1..][a] == m[a + 1] && m[1..][b] == m[b + 1];
    }
  }
}
