/**
 * Insertion-ordered dictionaries as association lists, the way a Python
 * `dict` behaves: assigning to a present key overwrites its value where it
 * stands, assigning to a new key appends it, and iteration follows the
 * order of first insertion.
 */
module OrderedDict {
  import opened Wrappers

  /** The keys of an association list, as a set. */
  function Keys<K(==, !new), V(==, !new)>(m: seq<(K, V)>): set<K>
  {
    set p | p in m :: p.0
  }

  /** The keys of an association list, in order. */
  function KeySeq<K(==, !new), V(==, !new)>(m: seq<(K, V)>): seq<K>
  {
    seq(|m|, i requires 0 <= i < |m| => m[i].0)
  }

  /** No key occurs twice: what every Python dict satisfies. */
  predicate DistinctKeys<K(==, !new), V(==, !new)>(m: seq<(K, V)>)
  {
    forall i, j :: 0 <= i < j < |m| ==> m[i].0 != m[j].0
  }

  /** `d.get(k)`: the value stored under the first occurrence of `k`. */
  function Lookup<K(==, !new), V(==, !new)>(m: seq<(K, V)>, k: K): (r: Option<V>)
    ensures r.Some? <==> k in Keys(m)
    ensures r.Some? ==> (k, r.value) in m
  {
    if |m| == 0 then None
    else if m[0].0 == k then Some(m[0].1)
    else
      assert forall p :: p in m <==> p == m[0] || p in m[1..];
      Lookup(m[1..], k)
  }

  /**
   * `d[k] = v`: the key set grows by `k` alone and every stored pair is an
   * old one or the new one. `LemmaPutLookup`, `LemmaPutOrder` and
   * `LemmaPutDistinct` state the rest of the dict semantics.
   */
  function Put<K(==, !new), V(==, !new)>(m: seq<(K, V)>, k: K, v: V): (r: seq<(K, V)>)
    ensures Keys(r) == Keys(m) + {k}
    ensures forall p :: p in r ==> p in m || p == (k, v)
  {
    if |m| == 0 then [(k, v)]
    else if m[0].0 == k then
      LemmaKeysCons(m[0], m[1..]);
      LemmaKeysCons((k, v), m[1..]);
      assert m == [m[0]] + m[1..];
      [(k, v)] + m[1..]
    else
      var rest := Put(m[1..], k, v);
      LemmaKeysCons(m[0], m[1..]);
      LemmaKeysCons(m[0], rest);
      assert m == [m[0]] + m[1..];
      [m[0]] + rest
  }

  /** After `d[k] = v`, `k` maps to `v` and every other key to what it did. */
  lemma {:induction false} LemmaPutLookup<K(!new), V(!new)>(m: seq<(K, V)>, k: K, v: V, k': K)
    ensures Lookup(Put(m, k, v), k') == if k' == k then Some(v) else Lookup(m, k')
  {
    if |m| > 0 && m[0].0 != k {
      LemmaPutLookup(m[1..], k, v, k');
    }
  }

  /** A present key keeps its position; a new key is appended at the end. */
  lemma {:induction false} LemmaPutOrder<K(!new), V(!new)>(m: seq<(K, V)>, k: K, v: V)
    ensures k in Keys(m) ==> KeySeq(Put(m, k, v)) == KeySeq(m)
    ensures k !in Keys(m) ==> Put(m, k, v) == m + [(k, v)]
  {
    if |m| > 0 {
      var rest := m[1..];
      assert m == [m[0]] + rest;
      LemmaKeysCons(m[0], rest);
      if m[0].0 != k {
        LemmaPutOrder(rest, k, v);
        var r := Put(rest, k, v);
        assert Put(m, k, v) == [m[0]] + r;
        if k in Keys(m) {
          LemmaKeySeqCons(m[0], r);
          LemmaKeySeqCons(m[0], rest);
        } else {
          assert [m[0]] + (rest + [(k, v)]) == m + [(k, v)];
        }
      } else {
        assert Put(m, k, v) == [(k, v)] + rest;
        LemmaKeySeqCons((k, v), rest);
        LemmaKeySeqCons(m[0], rest);
      }
    }
  }

  /** Assignment keeps a dict free of duplicate keys. */
  lemma {:induction false} LemmaPutDistinct<K(!new), V(!new)>(m: seq<(K, V)>, k: K, v: V)
    requires DistinctKeys(m)
    ensures DistinctKeys(Put(m, k, v))
  {
    if |m| > 0 && m[0].0 != k {
      LemmaPutDistinct(m[1..], k, v);
      var rest := Put(m[1..], k, v);
      assert m == [m[0]] + m[1..];
      LemmaDistinctCons(m[0], m[1..]);
      assert Put(m, k, v) == [m[0]] + rest;
      LemmaDistinctCons(m[0], rest);
    }
  }

  /** A list with a head pair has distinct keys iff its tail does and the head's key is new. */
  lemma {:induction false} LemmaDistinctCons<K(!new), V(!new)>(p: (K, V), m: seq<(K, V)>)
    ensures DistinctKeys([p] + m) <==> DistinctKeys(m) && p.0 !in Keys(m)
  {
    var r := [p] + m;
    if DistinctKeys(r) {
      forall q | q in m ensures q.0 != p.0 {
        var j :| 0 <= j < |m| && m[j] == q;
        assert r[0] == p && r[j + 1] == q;
      }
      forall i, j | 0 <= i < j < |m| ensures m[i].0 != m[j].0 {
        assert r[i + 1] == m[i] && r[j + 1] == m[j];
      }
    }
    if DistinctKeys(m) && p.0 !in Keys(m) {
      forall i, j | 0 <= i < j < |r| ensures r[i].0 != r[j].0 {
        if i == 0 {
          assert r[j] in m;
        } else {
          assert r[i] == m[i - 1] && r[j] == m[j - 1];
        }
      }
    }
  }

  /** A list with a last pair has distinct keys iff its front does and the last key is new. */
  lemma {:induction false} LemmaDistinctSnoc<K(!new), V(!new)>(m: seq<(K, V)>, p: (K, V))
    ensures DistinctKeys(m + [p]) <==> DistinctKeys(m) && p.0 !in Keys(m)
  {
    var r := m + [p];
    if DistinctKeys(r) {
      forall q | q in m ensures q.0 != p.0 {
        var j :| 0 <= j < |m| && m[j] == q;
        assert r[|m|] == p && r[j] == q;
      }
      forall i, j | 0 <= i < j < |m| ensures m[i].0 != m[j].0 {
        assert r[i] == m[i] && r[j] == m[j];
      }
    }
    if DistinctKeys(m) && p.0 !in Keys(m) {
      forall i, j | 0 <= i < j < |r| ensures r[i].0 != r[j].0 {
        if j == |m| {
          assert r[i] in m;
        } else {
          assert r[i] == m[i] && r[j] == m[j];
        }
      }
    }
  }

  /**
   * Building a dict by assigning the pairs of `ps` in order, starting from
   * `m`: the loop `for k, v in ps: d[k] = v`.
   */
  function PutAll<K(==, !new), V(==, !new)>(m: seq<(K, V)>, ps: seq<(K, V)>): (r: seq<(K, V)>)
    ensures Keys(r) == Keys(m) + Keys(ps)
    ensures forall p :: p in r ==> p in m || p in ps
  {
    if |ps| == 0 then m
    else
      var n := |ps| - 1;
      LemmaKeysSnoc(ps[..n], ps[n]);
      assert ps == ps[..n] + [ps[n]];
      Put(PutAll(m, ps[..n]), ps[n].0, ps[n].1)
  }

  /** The value of the LAST pair of `ps` whose key is `k`. */
  function LastLookup<K(==, !new), V(==, !new)>(ps: seq<(K, V)>, k: K): (r: Option<V>)
    ensures r.Some? <==> k in Keys(ps)
    ensures r.Some? ==> (k, r.value) in ps
  {
    if |ps| == 0 then None
    else
      var n := |ps| - 1;
      LemmaKeysSnoc(ps[..n], ps[n]);
      assert ps == ps[..n] + [ps[n]];
      if ps[n].0 == k then Some(ps[n].1) else LastLookup(ps[..n], k)
  }

  /** Last write wins: a key assigned in `ps` holds the value of its last pair. */
  lemma {:induction false} LemmaPutAllLookup<K(!new), V(!new)>(m: seq<(K, V)>, ps: seq<(K, V)>, k: K)
    ensures Lookup(PutAll(m, ps), k) == if k in Keys(ps) then LastLookup(ps, k) else Lookup(m, k)
  {
    if |ps| > 0 {
      var n := |ps| - 1;
      LemmaKeysSnoc(ps[..n], ps[n]);
      assert ps == ps[..n] + [ps[n]];
      LemmaPutAllLookup(m, ps[..n], k);
      LemmaPutLookup(PutAll(m, ps[..n]), ps[n].0, ps[n].1, k);
    }
  }

  /** `LastLookup` picks the pair at `i` when no later pair has its key. */
  lemma {:induction false} LemmaLastLookupAt<K(!new), V(!new)>(ps: seq<(K, V)>, i: nat)
    requires i < |ps|
    requires forall j :: i < j < |ps| ==> ps[j].0 != ps[i].0
    ensures LastLookup(ps, ps[i].0) == Some(ps[i].1)
  {
    var n := |ps| - 1;
    if i < n {
      assert ps[..n][i] == ps[i];
      LemmaLastLookupAt(ps[..n], i);
    }
  }

  /** Building a dict from pairs never produces a duplicate key. */
  lemma {:induction false} LemmaPutAllDistinct<K(!new), V(!new)>(m: seq<(K, V)>, ps: seq<(K, V)>)
    requires DistinctKeys(m)
    ensures DistinctKeys(PutAll(m, ps))
  {
    if |ps| > 0 {
      var n := |ps| - 1;
      LemmaPutAllDistinct(m, ps[..n]);
      LemmaPutDistinct(PutAll(m, ps[..n]), ps[n].0, ps[n].1);
    }
  }

  /** Pairs whose keys are all new are simply appended, in order. */
  lemma {:induction false} LemmaPutAllFresh<K(!new), V(!new)>(m: seq<(K, V)>, ps: seq<(K, V)>)
    requires DistinctKeys(m + ps)
    ensures PutAll(m, ps) == m + ps
  {
    if |ps| > 0 {
      var n := |ps| - 1;
      assert m + ps == (m + ps[..n]) + [ps[n]];
      assert DistinctKeys(m + ps[..n]) by {
        forall i, j | 0 <= i < j < |m + ps[..n]|
          ensures (m + ps[..n])[i].0 != (m + ps[..n])[j].0
        {
          assert (m + ps[..n])[i] == (m + ps)[i] && (m + ps[..n])[j] == (m + ps)[j];
        }
      }
      LemmaPutAllFresh(m, ps[..n]);
      assert ps[n].0 !in Keys(m + ps[..n]) by {
        forall q | q in m + ps[..n] ensures q.0 != ps[n].0 {
          var j :| 0 <= j < |m + ps[..n]| && (m + ps[..n])[j] == q;
          assert (m + ps)[j] == q && (m + ps)[|m + ps| - 1] == ps[n];
        }
      }
      LemmaPutOrder(m + ps[..n], ps[n].0, ps[n].1);
    }
  }

  /**
   * A sequence with every element after its first occurrence dropped: the
   * order in which the distinct elements were first seen.
   */
  function Dedup<K(==, !new)>(s: seq<K>): (r: seq<K>)
    ensures forall x :: x in r <==> x in s
    ensures forall i, j :: 0 <= i < j < |r| ==> r[i] != r[j]
  {
    if |s| == 0 then []
    else
      var d := Dedup(s[..|s| - 1]);
      assert s == s[..|s| - 1] + [s[|s| - 1]];
      if s[|s| - 1] in d then d else d + [s[|s| - 1]]
  }

  /** The keys of an association list, in order, are its set of keys. */
  lemma {:induction false} LemmaKeySeqKeys<K(!new), V(!new)>(m: seq<(K, V)>, k: K)
    ensures k in KeySeq(m) <==> k in Keys(m)
  {
    if k in Keys(m) {
      var p :| p in m && p.0 == k;
      var i :| 0 <= i < |m| && m[i] == p;
      assert KeySeq(m)[i] == k;
    }
  }

  /**
   * A dict built from `ps` lists its keys in the order of their FIRST
   * occurrence in `ps`: overwriting a key does not move it.
   */
  lemma {:induction false} LemmaPutAllKeyOrder<K(!new), V(!new)>(ps: seq<(K, V)>)
    ensures KeySeq(PutAll([], ps)) == Dedup(KeySeq(ps))
  {
    if |ps| > 0 {
      var n := |ps| - 1;
      var k := ps[n].0;
      var r' := PutAll([], ps[..n]);
      LemmaPutAllKeyOrder(ps[..n]);
      assert KeySeq(ps)[..n] == KeySeq(ps[..n]);
      assert Keys(r') == Keys(ps[..n]) by {
        assert Keys<K, V>([]) == {};
      }
      LemmaKeySeqKeys(ps[..n], k);
      LemmaPutOrder(r', k, ps[n].1);
      LemmaKeySeqSnoc(r', (k, ps[n].1));
    }
  }

  /**
   * A list of pairs has at most as many keys as pairs, and exactly as many
   * precisely when no key repeats.
   */
  lemma {:induction false} LemmaKeysCard<K(!new), V(!new)>(m: seq<(K, V)>)
    ensures |Keys(m)| <= |m|
    ensures DistinctKeys(m) <==> |Keys(m)| == |m|
  {
    if |m| > 0 {
      var n := |m| - 1;
      LemmaKeysCard(m[..n]);
      assert m == m[..n] + [m[n]];
      LemmaKeysSnoc(m[..n], m[n]);
      LemmaDistinctSnoc(m[..n], m[n]);
    }
  }

  /**
   * Two puts of different keys: the keys keep their order, and each new key
   * is appended after them in the order it was put.
   */
  lemma {:induction false} LemmaPutTwoOrder<K(!new), V(!new)>(m: seq<(K, V)>, k1: K, v1: V, k2: K, v2: V)
    requires k1 != k2
    ensures KeySeq(Put(Put(m, k1, v1), k2, v2))
         == KeySeq(m) + (if k1 in Keys(m) then [] else [k1]) + (if k2 in Keys(m) then [] else [k2])
    ensures k1 !in Keys(m) && k2 !in Keys(m) ==> Put(Put(m, k1, v1), k2, v2) == m + [(k1, v1), (k2, v2)]
  {
    var m1 := Put(m, k1, v1);
    LemmaPutOrder(m, k1, v1);
    LemmaPutOrder(m1, k2, v2);
    LemmaKeySeqSnoc(m, (k1, v1));
    LemmaKeySeqSnoc(m1, (k2, v2));
    if k1 !in Keys(m) && k2 !in Keys(m) {
      assert m + [(k1, v1)] + [(k2, v2)] == m + [(k1, v1), (k2, v2)];
    }
  }

  lemma {:induction false} LemmaKeySeqCons<K(!new), V(!new)>(p: (K, V), m: seq<(K, V)>)
    ensures KeySeq([p] + m) == [p.0] + KeySeq(m)
  {
    assert |KeySeq([p] + m)| == |[p.0] + KeySeq(m)|;
  }

  lemma {:induction false} LemmaKeySeqSnoc<K(!new), V(!new)>(m: seq<(K, V)>, p: (K, V))
    ensures KeySeq(m + [p]) == KeySeq(m) + [p.0]
  {
    assert |KeySeq(m + [p])| == |KeySeq(m) + [p.0]|;
  }

  lemma {:induction false} LemmaKeysSnoc<K(!new), V(!new)>(m: seq<(K, V)>, p: (K, V))
    ensures Keys(m + [p]) == Keys(m) + {p.0}
  {
    assert forall q :: q in m + [p] <==> q in m || q == p;
  }

  lemma {:induction false} LemmaKeysCons<K(!new), V(!new)>(p: (K, V), m: seq<(K, V)>)
    ensures Keys([p] + m) == {p.0} + Keys(m)
  {
    assert forall q :: q in [p] + m <==> q == p || q in m;
  }
}
