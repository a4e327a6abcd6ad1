/** A JavaScript plain object with string keys, kept as its entries in
    insertion order (the order `Object.keys`/`Object.values` report for keys
    that are not array indices). */
module JsObject {
  import opened Base

  datatype Entry<V> = Entry(key: string, val: V)

  type Obj<V> = seq<Entry<V>>

  function Keys<V>(o: Obj<V>): (ks: seq<string>)
    ensures |ks| == |o|
    ensures forall i :: 0 <= i < |o| ==> ks[i] == o[i].key
  {
    if o == [] then [] else [o[0].key] + Keys(o[1..])
  }

  function Values<V>(o: Obj<V>): (vs: seq<V>)
    ensures |vs| == |o|
    ensures forall i :: 0 <= i < |o| ==> vs[i] == o[i].val
  {
    if o == [] then [] else [o[0].val] + Values(o[1..])
  }

  /** No key appears twice. */
  predicate DistinctKeys<V>(o: Obj<V>) {
    Distinct(Keys(o))
  }

  predicate Distinct<T(==)>(s: seq<T>) {
    forall i, j :: 0 <= i < j < |s| ==> s[i] != s[j]
  }

  lemma DistinctTail<T>(s: seq<T>)
    requires s != [] && Distinct(s)
    ensures Distinct(s[1..])
    ensures s[0] !in s[1..]
  {
    forall a, b | 0 <= a < b < |s[1..]|
      ensures s[1..][a] != s[1..][b]
    {
      assert s[1..][a] == s[a + 1] && s[1..][b] == s[b + 1];
    }
  }

  /** Without its first entry an object keeps distinct keys. */
  lemma DistinctKeysTail<V>(o: Obj<V>)
    requires o != [] && DistinctKeys(o)
    ensures DistinctKeys(o[1..])
    ensures o[0].key !in Keys(o[1..])
  {
    assert Keys(o)[1..] == Keys(o[1..]);
    DistinctTail(Keys(o));
  }

  /** `o[k]`, `undefined` as `None`. */
  function Get<V>(o: Obj<V>, k: string): (r: Option<V>)
    ensures r.Some? <==> k in Keys(o)
  {
    if o == [] then None
    else if o[0].key == k then Some(o[0].val)
    else Get(o[1..], k)
  }

  /** `o[k] = v`: an existing key keeps its place, a new key goes last
      (see `SetKeys`). */
  function Set<V>(o: Obj<V>, k: string, v: V): (r: Obj<V>)
    ensures Get(r, k) == Some(v)
    ensures forall k' :: k' != k ==> Get(r, k') == Get(o, k')
  {
    if o == [] then [Entry(k, v)]
    else if o[0].key == k then
      var r := [Entry(k, v)] + o[1..];
      assert r[1..] == o[1..];
      r
    else
      var rest := Set(o[1..], k, v);
      var r := [o[0]] + rest;
      assert r[1..] == rest;
      r
  }

  /** Assigning an existing key keeps the key order. */
  lemma {:induction false} SetKeysExisting<V>(o: Obj<V>, k: string, v: V)
    requires k in Keys(o)
    ensures Keys(Set(o, k, v)) == Keys(o)
  {
    var r := Set(o, k, v);
    if o[0].key == k {
      assert r == [Entry(k, v)] + o[1..];
      assert r[1..] == o[1..];
    } else {
      SetKeysExisting(o[1..], k, v);
      assert r == [o[0]] + Set(o[1..], k, v);
      assert r[1..] == Set(o[1..], k, v);
    }
  }

  /** Assigning a new key appends it. */
  lemma {:induction false} SetKeysNew<V>(o: Obj<V>, k: string, v: V)
    requires k !in Keys(o)
    ensures Keys(Set(o, k, v)) == Keys(o) + [k]
  {
    if o != [] {
      var r := Set(o, k, v);
      SetKeysNew(o[1..], k, v);
      assert r == [o[0]] + Set(o[1..], k, v);
      assert r[1..] == Set(o[1..], k, v);
      assert Keys(r) == [o[0].key] + (Keys(o[1..]) + [k]);
    }
  }

  lemma SetKeys<V>(o: Obj<V>, k: string, v: V)
    ensures Keys(Set(o, k, v)) == if k in Keys(o) then Keys(o) else Keys(o) + [k]
  {
    if k in Keys(o) {
      SetKeysExisting(o, k, v);
    } else {
      SetKeysNew(o, k, v);
    }
  }

  /** `delete o[k]`. */
  function Delete<V>(o: Obj<V>, k: string): (r: Obj<V>)
    ensures Get(r, k) == None
    ensures forall k' :: k' != k ==> Get(r, k') == Get(o, k')
    ensures forall k' :: k' in Keys(r) <==> k' in Keys(o) && k' != k
    ensures |r| <= |o|
  {
    if o == [] then []
    else if o[0].key == k then Delete(o[1..], k)
    else [o[0]] + Delete(o[1..], k)
  }

  /** The number of entries whose value is `v`
      (`Object.values(o).filter(x => x === v).length`). */
  function CountValue<V(==)>(o: Obj<V>, v: V): (n: nat)
    ensures n <= |o|
    ensures n == 0 <==> forall i :: 0 <= i < |o| ==> o[i].val != v
  {
    if o == [] then 0 else (if o[0].val == v then 1 else 0) + CountValue(o[1..], v)
  }

  /** In an object every entry is what a lookup of its key gives. */
  lemma {:induction false} GetEntry<V>(o: Obj<V>, i: nat)
    requires DistinctKeys(o) && i < |o|
    ensures Get(o, o[i].key) == Some(o[i].val)
  {
    if i > 0 {
      var ks := Keys(o);
      assert ks[0] == o[0].key && ks[i] == o[i].key && ks[0] != ks[i];
      DistinctKeysTail(o);
      GetEntry(o[1..], i - 1);
      assert o[1..][i - 1] == o[i];
    }
  }

  /** Assigning keeps the keys distinct. */
  lemma SetKeepsDistinct<V>(o: Obj<V>, k: string, v: V)
    requires DistinctKeys(o)
    ensures DistinctKeys(Set(o, k, v))
  {
    SetKeys(o, k, v);
    if k !in Keys(o) {
      DistinctSnoc(Keys(o), k);
    }
  }

  /** A value the sequence lacks keeps it distinct when appended. */
  lemma DistinctSnoc<T>(s: seq<T>, x: T)
    requires Distinct(s) && x !in s
    ensures Distinct(s + [x])
  {
    var t := s + [x];
    forall i, j | 0 <= i < j < |t|
      ensures t[i] != t[j]
    {
      assert t[i] == s[i];
      if j < |s| {
        assert t[j] == s[j];
      }
    }
  }

  /** Assigning `o[k] = v` changes the count of `w` by what it removes and
      what it adds. */
  lemma {:induction false} CountAfterSet<V>(o: Obj<V>, k: string, v: V, w: V)
    requires DistinctKeys(o)
    ensures CountValue(Set(o, k, v), w) + (if Get(o, k) == Some(w) then 1 else 0)
            == CountValue(o, w) + (if v == w then 1 else 0)
  {
    if o != [] {
      var r := Set(o, k, v);
      if o[0].key == k {
        assert r == [Entry(k, v)] + o[1..];
        assert r[1..] == o[1..];
      } else {
        assert Keys(o[1..]) == Keys(o)[1..];
        CountAfterSet(o[1..], k, v, w);
        assert r == [o[0]] + Set(o[1..], k, v);
        assert r[1..] == Set(o[1..], k, v);
      }
    }
  }

  /** Deleting a key that is not there changes nothing. */
  lemma {:induction false} DeleteAbsent<V>(o: Obj<V>, k: string)
    requires k !in Keys(o)
    ensures Delete(o, k) == o
  {
    if o != [] {
      assert Keys(o) == [o[0].key] + Keys(o[1..]);
      DeleteAbsent(o[1..], k);
    }
  }

  /** `delete o[k]` removes the one entry of `k` from the count. */
  lemma {:induction false} CountAfterDelete<V>(o: Obj<V>, k: string, w: V)
    requires DistinctKeys(o)
    ensures CountValue(Delete(o, k), w) + (if Get(o, k) == Some(w) then 1 else 0) == CountValue(o, w)
  {
    if o != [] {
      assert Keys(o[1..]) == Keys(o)[1..];
      if o[0].key == k {
        assert k !in Keys(o[1..]) by {
          forall i | 0 <= i < |o[1..]|
            ensures Keys(o[1..])[i] != k
          {
            assert Keys(o)[i + 1] == Keys(o[1..])[i];
          }
        }
        DeleteAbsent(o[1..], k);
      } else {
        CountAfterDelete(o[1..], k, w);
        assert Delete(o, k) == [o[0]] + Delete(o[1..], k);
        assert (Delete(o, k))[1..] == Delete(o[1..], k);
      }
    }
  }

  /** A second assignment to the same key overrides the first and keeps
      the place the first gave it. */
  lemma {:induction false} SetTwice<V>(o: Obj<V>, k: string, v: V, w: V)
    ensures Set(Set(o, k, v), k, w) == Set(o, k, w)
  {
    if o != [] && o[0].key != k {
      SetTwice(o[1..], k, v, w);
      var r := Set(o, k, v);
      assert r == [o[0]] + Set(o[1..], k, v);
      assert r[1..] == Set(o[1..], k, v);
    }
  }

  /** Deleting twice is deleting once. */
  lemma DeleteTwice<V>(o: Obj<V>, k: string)
    ensures Delete(Delete(o, k), k) == Delete(o, k)
  {
    DeleteAbsent(Delete(o, k), k);
  }
}
