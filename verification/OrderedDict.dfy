/** Dictionaries that keep insertion order: sequences of pairs with distinct keys. */
module OrderedDict {
  import opened Wrappers
  import opened Sequences

  function Keys<K, V>(d: seq<(K, V)>): (ks: seq<K>)
    ensures |ks| == |d| && forall i :: 0 <= i < |d| ==> ks[i] == d[i].0
  {
    seq(|d|, i requires 0 <= i < |d| => d[i].0)
  }

  function Values<K, V>(d: seq<(K, V)>): (vs: seq<V>)
  {
    seq(|d|, i requires 0 <= i < |d| => d[i].1)
  }

  predicate IsDict<K(==), V>(d: seq<(K, V)>) {
    Distinct(Keys(d))
  }

  function Get<K(==), V>(d: seq<(K, V)>, k: K): (r: Option<V>) {
    if d == [] then None else if d[0].0 == k then Some(d[0].1) else Get(d[1..], k)
  }

  /** Assignment: replaces the value of a known key in place, appends an unknown one. */
  function Put<K(==), V>(d: seq<(K, V)>, k: K, v: V): (r: seq<(K, V)>) {
    if d == [] then [(k, v)]
    else if d[0].0 == k then [(k, v)] + d[1..]
    else [d[0]] + Put(d[1..], k, v)
  }

  /** The dictionary updated with all pairs of another one, in order. */
  function Update<K(==), V>(d: seq<(K, V)>, e: seq<(K, V)>): (r: seq<(K, V)>) {
    if e == [] then d else Put(Update(d, e[..|e| - 1]), e[|e| - 1].0, e[|e| - 1].1)
  }

  lemma {:induction false} GetPut<K, V>(d: seq<(K, V)>, k: K, v: V, j: K)
    ensures Get(Put(d, k, v), j) == if j == k then Some(v) else Get(d, j)
  {
    if d != [] && d[0].0 != k {
      assert Put(d, k, v)[1..] == Put(d[1..], k, v);
      GetPut(d[1..], k, v, j);
    } else if d != [] {
      assert Put(d, k, v)[1..] == d[1..];
    }
  }

  lemma {:induction false} PutKeys<K, V>(d: seq<(K, V)>, k: K, v: V)
    ensures Keys(Put(d, k, v)) == if k in Keys(d) then Keys(d) else Keys(d) + [k]
  {
    if d != [] && d[0].0 != k {
      PutKeys(d[1..], k, v);
      assert Keys(d) == [d[0].0] + Keys(d[1..]);
      assert Keys(Put(d, k, v)) == [d[0].0] + Keys(Put(d[1..], k, v));
    } else if d != [] {
      assert Keys(d)[0] == k;
    }
  }

  lemma PutIsDict<K, V>(d: seq<(K, V)>, k: K, v: V)
    requires IsDict(d)
    ensures IsDict(Put(d, k, v))
  {
    PutKeys(d, k, v);
  }

  /** Lookups and pairs tell the same story. */
  lemma {:induction false} GetMember<K, V>(d: seq<(K, V)>, k: K, v: V)
    requires IsDict(d)
    ensures Get(d, k) == Some(v) <==> (k, v) in d
    ensures k in Keys(d) <==> Get(d, k).Some?
  {
    if d != [] {
      assert Keys(d)[1..] == Keys(d[1..]);
      assert d == [d[0]] + d[1..];
      GetMember(d[1..], k, v);
    }
  }

  /** After an update, the other dictionary's values win. */
  lemma {:induction false} GetUpdate<K, V>(d: seq<(K, V)>, e: seq<(K, V)>, k: K)
    requires IsDict(e)
    ensures Get(Update(d, e), k) == if k in Keys(e) then Get(e, k) else Get(d, k)
  {
    if e != [] {
      var n := |e| - 1;
      var init := e[..n];
      assert Keys(init) == Keys(e)[..n];
      GetUpdate(d, init, k);
      GetPut(Update(d, init), e[n].0, e[n].1, k);
      assert e[n] in e && Keys(e) == Keys(init) + [e[n].0];
      GetMember(e, e[n].0, e[n].1);
      if k in Keys(init) {
        GetMember(init, k, e[n].1);
        var v := Get(init, k).value;
        GetMember(init, k, v);
        GetMember(e, k, v);
        var i :| 0 <= i < n && init[i] == (k, v);
        assert e[i] == (k, v);
      }
    }
  }

  lemma {:induction false} PutSame<K, V>(d: seq<(K, V)>, k: K, v: V)
    requires Get(d, k) == Some(v)
    ensures Put(d, k, v) == d
  {
    if d[0].0 != k {
      PutSame(d[1..], k, v);
    }
    assert d == [d[0]] + d[1..];
  }

  lemma {:induction false} UpdatePrefix<K, V>(d: seq<(K, V)>, n: nat)
    requires IsDict(d) && n <= |d|
    ensures Update(d, d[..n]) == d
  {
    if n > 0 {
      assert d[..n][..n - 1] == d[..n - 1];
      UpdatePrefix(d, n - 1);
      GetMember(d, d[n - 1].0, d[n - 1].1);
      PutSame(d, d[n - 1].0, d[n - 1].1);
    }
  }

  /** Updating a dictionary with itself changes nothing. */
  lemma UpdateSelf<K, V>(d: seq<(K, V)>)
    requires IsDict(d)
    ensures Update(d, d) == d
  {
    UpdatePrefix(d, |d|);
    assert d[..|d|] == d;
  }

  lemma {:induction false} PutPairs<K, V>(d: seq<(K, V)>, k: K, v: V)
    ensures forall i :: 0 <= i < |Put(d, k, v)| ==> Put(d, k, v)[i] == (k, v) || Put(d, k, v)[i] in d
  {
    if d != [] && d[0].0 != k {
      PutPairs(d[1..], k, v);
    }
  }
}
