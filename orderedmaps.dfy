/**
 * JavaScript plain objects as the script uses them: string-keyed maps that
 * remember the order in which keys were first inserted. Assigning to a key
 * already present replaces its value and keeps its position; `for..in`,
 * `Object.values` and `Object.assign` all follow that order.
 */
module OrderedMaps {
  import opened Wrappers

  datatype Binding<K, V> = Binding(key: K, value: V)

  type OrderedMap<K, V> = seq<Binding<K, V>>

  function Keys<K, V>(m: OrderedMap<K, V>): (ks: seq<K>)
    ensures |ks| == |m|
    ensures forall i :: 0 <= i < |m| ==> ks[i] == m[i].key
  {
    if |m| == 0 then [] else [m[0].key] + Keys(m[1..])
  }

  function Values<K, V>(m: OrderedMap<K, V>): (vs: seq<V>)
    ensures |vs| == |m|
    ensures forall i :: 0 <= i < |m| ==> vs[i] == m[i].value
  {
    if |m| == 0 then [] else [m[0].value] + Values(m[1..])
  }

  ghost predicate UniqueKeys<K, V>(m: OrderedMap<K, V>)
  {
    forall i, j :: 0 <= i < j < |m| ==> m[i].key != m[j].key
  }

  /** Property lookup `m[k]`: the value of the first binding for `k`. */
  function Get<K(==), V>(m: OrderedMap<K, V>, k: K): (r: Option<V>)
    ensures r.None? <==> k !in Keys(m)
  {
    if |m| == 0 then None
    else if m[0].key == k then Some(m[0].value)
    else Get(m[1..], k)
  }

  /** Property assignment `m[k] = v`. */
  function Put<K(==,!new), V>(m: OrderedMap<K, V>, k: K, v: V): (r: OrderedMap<K, V>)
    ensures Get(r, k) == Some(v)
    ensures forall k' :: k' != k ==> Get(r, k') == Get(m, k')
    ensures forall b :: b in r ==> b in m || b == Binding(k, v)
  {
    if |m| == 0 then [Binding(k, v)]
    else if m[0].key == k then [Binding(k, v)] + m[1..]
    else [m[0]] + Put(m[1..], k, v)
  }

  /** A key already present keeps its position; a new key goes last. */
  lemma {:induction false} PutKeys<K(!new), V>(m: OrderedMap<K, V>, k: K, v: V)
    ensures Keys(Put(m, k, v)) == if k in Keys(m) then Keys(m) else Keys(m) + [k]
  {
    if |m| > 0 {
      var r := Put(m, k, v);
      assert Keys(m) == [m[0].key] + Keys(m[1..]);
      assert Keys(r) == [r[0].key] + Keys(r[1..]);
      if m[0].key == k {
        assert r[1..] == m[1..];
      } else {
        assert r[1..] == Put(m[1..], k, v);
        PutKeys(m[1..], k, v);
      }
    }
  }

  /** Assigning a key the object does not hold appends it. */
  lemma {:induction false} PutNew<K(!new), V>(m: OrderedMap<K, V>, k: K, v: V)
    requires k !in Keys(m)
    ensures Put(m, k, v) == m + [Binding(k, v)]
  {
    if |m| > 0 {
      KeysTail(m);
      PutNew(m[1..], k, v);
      calc {
        Put(m, k, v);
        [m[0]] + Put(m[1..], k, v);
        [m[0]] + (m[1..] + [Binding(k, v)]);
        { assert [m[0]] + m[1..] == m; }
        m + [Binding(k, v)];
      }
    }
  }

  lemma KeysTail<K, V>(m: OrderedMap<K, V>)
    requires |m| > 0
    ensures Keys(m) == [m[0].key] + Keys(m[1..])
  {
  }

  /** An object never holds a key twice: assignment keeps the keys distinct. */
  lemma PutKeepsKeysUnique<K(!new), V>(m: OrderedMap<K, V>, k: K, v: V)
    requires UniqueKeys(m)
    ensures UniqueKeys(Put(m, k, v))
  {
    var r := Put(m, k, v);
    PutKeys(m, k, v);
    forall i, j | 0 <= i < j < |r| ensures r[i].key != r[j].key {
      assert Keys(r)[i] == r[i].key && Keys(r)[j] == r[j].key;
      if j < |m| {
        assert Keys(m)[i] == m[i].key && Keys(m)[j] == m[j].key;
      } else {
        assert Keys(m)[i] == m[i].key;
      }
    }
  }

  /** `Object.assign(m, sub)`: the bindings of `sub` put into `m` in order. */
  function Assign<K(==,!new), V>(m: OrderedMap<K, V>, sub: OrderedMap<K, V>): (r: OrderedMap<K, V>)
    ensures forall k :: k in Keys(r) <==> k in Keys(m) || k in Keys(sub)
    ensures forall b :: b in r ==> b in m || b in sub
    decreases |sub|
  {
    if |sub| == 0 then m
    else
      PutKeys(m, sub[0].key, sub[0].value);
      Assign(Put(m, sub[0].key, sub[0].value), sub[1..])
  }

  /** `Object.assign` into an object with distinct keys keeps them distinct. */
  lemma {:induction false} AssignKeepsKeysUnique<K(!new), V>(m: OrderedMap<K, V>, sub: OrderedMap<K, V>)
    requires UniqueKeys(m)
    ensures UniqueKeys(Assign(m, sub))
    decreases |sub|
  {
    if |sub| > 0 {
      PutKeepsKeysUnique(m, sub[0].key, sub[0].value);
      AssignKeepsKeysUnique(Put(m, sub[0].key, sub[0].value), sub[1..]);
    }
  }

  /** After `Object.assign` a key of `sub` reads as in `sub`; every other key as before. */
  lemma {:induction false} AssignGet<K(!new), V>(m: OrderedMap<K, V>, sub: OrderedMap<K, V>, k: K)
    requires UniqueKeys(sub)
    ensures Get(Assign(m, sub), k) == if k in Keys(sub) then Get(sub, k) else Get(m, k)
    decreases |sub|
  {
    if |sub| > 0 {
      var m' := Put(m, sub[0].key, sub[0].value);
      var rest := sub[1..];
      assert UniqueKeys(rest) by {
        forall i, j | 0 <= i < j < |rest| ensures rest[i].key != rest[j].key {
          assert rest[i] == sub[i + 1] && rest[j] == sub[j + 1];
        }
      }
      AssignGet(m', rest, k);
      assert Keys(sub) == [sub[0].key] + Keys(rest);
      if k == sub[0].key {
        assert k !in Keys(rest) by {
          forall i | 0 <= i < |rest| ensures Keys(rest)[i] != k {
            assert rest[i] == sub[i + 1];
          }
        }
      }
    }
  }

  /** Every value is `f` of its key, as in an object filled by `obj[k] = f(k)`. */
  ghost predicate ValuesFollow<K, V>(m: OrderedMap<K, V>, f: K -> V)
  {
    forall j :: 0 <= j < |m| ==> m[j].value == f(m[j].key)
  }

  lemma {:induction false} PutFollows<K(!new), V>(m: OrderedMap<K, V>, k: K, f: K -> V)
    requires ValuesFollow(m, f)
    ensures ValuesFollow(Put(m, k, f(k)), f)
  {
    if |m| > 0 && m[0].key != k {
      PutFollows(m[1..], k, f);
      var r := Put(m, k, f(k));
      assert r == [m[0]] + Put(m[1..], k, f(k));
      forall j | 0 <= j < |r| ensures r[j].value == f(r[j].key) {
        if j > 0 { assert r[j] == Put(m[1..], k, f(k))[j - 1]; }
      }
    }
  }
}
