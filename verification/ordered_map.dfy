/**
 * Python dictionaries remember the order in which keys were first inserted:
 * iteration follows that order, assigning to an existing key keeps its place,
 * and deleting a key takes it out of the order. `OrderedMap` is that
 * dictionary as a value: the keys in insertion order beside the mapping.
 */
module OrderedMaps {
  import opened Options

  predicate Distinct<K(==)>(s: seq<K>) {
    forall i, j :: 0 <= i < j < |s| ==> s[i] != s[j]
  }

  /** `s` with every occurrence of `k` taken out, the rest in order. */
  function Without<K(==, !new)>(s: seq<K>, k: K): (r: seq<K>)
    ensures forall x :: x in r <==> x in s && x != k
    ensures Distinct(s) ==> Distinct(r)
    ensures k !in s ==> r == s
  {
    if s == [] then []
    else if s[0] == k then Without(s[1..], k)
    else
      var rest := Without(s[1..], k);
      assert Distinct(s) ==> Distinct(s[1..]) && s[0] !in s[1..] by {
        if Distinct(s) {
          forall j | 0 < j < |s| ensures s[0] != s[j] { }
        }
      }
      [s[0]] + rest
  }

  /**
   * In a list without repeats, taking out `k` joins up the slices on either
   * side of it: the other elements keep their order.
   */
  lemma {:induction false} WithoutSplits<K(!new)>(s: seq<K>, k: K, i: nat)
    requires Distinct(s) && i < |s| && s[i] == k
    ensures Without(s, k) == s[..i] + s[i + 1..]
  {
    if i == 0 {
      assert Without(s, k) == s[1..] by {
        assert k !in s[1..] by {
          forall j | 0 < j < |s| ensures s[j] != k { }
        }
      }
      assert s[..0] + s[1..] == s[1..];
    } else {
      assert Distinct(s[1..]) by {
        forall a, b | 0 <= a < b < |s| - 1 ensures s[1..][a] != s[1..][b] {
          assert s[1..][a] == s[a + 1] && s[1..][b] == s[b + 1];
        }
      }
      WithoutSplits(s[1..], k, i - 1);
      calc {
        Without(s, k);
        { assert s[0] != k; }
        [s[0]] + Without(s[1..], k);
        [s[0]] + (s[1..][..i - 1] + s[1..][i..]);
        { assert s[..i] == [s[0]] + s[1..][..i - 1]; assert s[i + 1..] == s[1..][i..]; }
        s[..i] + s[i + 1..];
      }
    }
  }

  datatype OrderedMap<K(==, !new), V> = OrderedMap(keys: seq<K>, values: map<K, V>)
  {
    /** Every key is listed once, and exactly the keys of the mapping are listed. */
    ghost predicate Valid() {
      && Distinct(keys)
      && (forall k :: k in values <==> k in keys)
    }

    /** `d.get(k)` */
    function Get(k: K): Option<V> {
      if k in values then Some(values[k]) else None
    }

    /** `d[k] = v`: a new key goes last, an existing key keeps its place. */
    function Put(k: K, v: V): (m: OrderedMap<K, V>)
      requires Valid()
      ensures m.Valid()
      ensures m.values == values[k := v]
      ensures m.Get(k) == Some(v)
      ensures forall k' :: k' != k ==> m.Get(k') == Get(k')
      ensures k in values ==> m.keys == keys
      ensures k !in values ==> m.keys == keys + [k] && |m.keys| == |keys| + 1
    {
      if k in values then OrderedMap(keys, values[k := v])
      else OrderedMap(keys + [k], values[k := v])
    }

    /** `del d[k]`: the other keys keep their order. */
    function Delete(k: K): (m: OrderedMap<K, V>)
      requires Valid()
      ensures m.Valid()
      ensures m.values == values - {k}
      ensures m.Get(k) == None
      ensures forall k' :: k' != k ==> m.Get(k') == Get(k')
      ensures m.keys == Without(keys, k)
    {
      OrderedMap(Without(keys, k), values - {k})
    }

    /** Deleting the key at position `i` leaves the keys before and after it, in order. */
    lemma DeleteKeepsOrder(k: K, i: nat)
      requires Valid() && i < |keys| && keys[i] == k
      ensures Delete(k).keys == keys[..i] + keys[i + 1..]
    {
      WithoutSplits(keys, k, i);
    }

    /** Deleting a key forgets what was last stored under it. */
    lemma PutThenDelete(k: K, v: V)
      requires Valid() && k in values
      ensures Put(k, v).Delete(k) == Delete(k)
    {
      assert (values[k := v]) - {k} == values - {k};
    }

    /** `list(d.items())` */
    function Items(): (r: seq<(K, V)>)
      requires Valid()
      ensures |r| == |keys|
      ensures forall i :: 0 <= i < |r| ==> r[i].0 == keys[i] && keys[i] in values && r[i].1 == values[keys[i]]
    {
      seq(|keys|, i requires 0 <= i < |keys| => (keys[i], values[keys[i]]))
    }

    /**
     * The position, in iteration order, of the first value satisfying `p`,
     * scanning from position `i`: what a `for key, value in d.items()` loop
     * that stops at the first hit finds.
     */
    function FirstFrom(p: V -> bool, i: nat): (r: Option<nat>)
      requires Valid() && i <= |keys|
      ensures r.Some? ==> i <= r.value < |keys| && p(values[keys[r.value]])
      ensures r.Some? ==> forall j :: i <= j < r.value ==> !p(values[keys[j]])
      ensures r.None? ==> forall j :: i <= j < |keys| ==> !p(values[keys[j]])
      decreases |keys| - i
    {
      if i == |keys| then None
      else if p(values[keys[i]]) then Some(i)
      else FirstFrom(p, i + 1)
    }

    function FirstWhere(p: V -> bool): (r: Option<nat>)
      requires Valid()
      ensures r.Some? ==> r.value < |keys| && p(values[keys[r.value]])
      ensures r.Some? ==> forall j :: 0 <= j < r.value ==> !p(values[keys[j]])
      ensures r.None? ==> forall k :: k in values ==> !p(values[k])
    {
      var r := FirstFrom(p, 0);
      if r.None? then
        assert forall k :: k in values ==> !p(values[k]) by {
          forall k | k in values ensures !p(values[k]) {
            var j :| 0 <= j < |keys| && keys[j] == k;
          }
        }
        r
      else r
    }
  }
}
