/**
 * `sanitize_for_mongo`: a recursive walk that rewrites every mapping key,
 * at every depth, with `RewriteKey`, maps lists element by element and
 * returns scalars unchanged. Rewritten pairs are assigned one by one into a
 * fresh dict, so two keys that collide after the rewrite keep the value of
 * the later one at the position of the earlier one.
 */
module Sanitizer {
  import opened Wrappers
  import opened OrderedDict
  import opened KeyRewrite
  import opened JsonValue

  function Sanitize(j: Json): (r: Json)
    decreases j, 1
    ensures IsScalar(j) ==> r == j
    ensures j.JArr? ==> r.JArr? && |r.items| == |j.items|
    ensures j.JObj? ==> r.JObj? && |r.fields| <= |j.fields|
  {
    match j
    case JArr(items) =>
      JArr(seq(|items|, i requires 0 <= i < |items| => Sanitize(items[i])))
    case JObj(fields) =>
      var ps := SanitizedPairs(fields);
      LemmaPutAllSize(ps);
      JObj(PutAll([], ps))
    case _ => j
  }

  /** The rewritten pairs of a mapping, in iteration order, before they are assigned. */
  function SanitizedPairs(fields: seq<(string, Json)>): (ps: seq<(string, Json)>)
    ensures |ps| == |fields|
    ensures forall i :: 0 <= i < |fields| ==> ps[i].0 == RewriteKey(fields[i].0) && ps[i].1 == Sanitize(fields[i].1)
    decreases JObj(fields), 0
  {
    seq(|fields|, i requires 0 <= i < |fields| => (RewriteKey(fields[i].0), Sanitize(fields[i].1)))
  }

  /** The image of a mapping's keys under the rewrite. */
  function RewrittenKeys(fields: seq<(string, Json)>): set<string>
  {
    set p | p in fields :: RewriteKey(p.0)
  }

  /** The mapping's keys, rewritten, in iteration order. */
  function RewrittenKeySeq(fields: seq<(string, Json)>): (ks: seq<string>)
    ensures |ks| == |fields|
    ensures forall i :: 0 <= i < |fields| ==> ks[i] == RewriteKey(fields[i].0)
  {
    seq(|fields|, i requires 0 <= i < |fields| => RewriteKey(fields[i].0))
  }

  /** No two keys of the mapping rewrite to the same key. */
  predicate NoCollision(fields: seq<(string, Json)>)
  {
    forall i, j :: 0 <= i < j < |fields| ==> RewriteKey(fields[i].0) != RewriteKey(fields[j].0)
  }

  /** Assigning store-ready pairs with legal keys into a fresh dict gives a store-ready mapping. */
  lemma {:induction false} LemmaBuildStoreReady(ps: seq<(string, Json)>)
    requires forall i :: 0 <= i < |ps| ==> KeyOk(ps[i].0) && StoreReady(ps[i].1)
    ensures StoreReady(JObj(PutAll([], ps)))
  {
    var r := PutAll([], ps);
    assert forall i :: 0 <= i < |r| ==> KeyOk(r[i].0) && StoreReady(r[i].1) by {
      forall i | 0 <= i < |r| ensures KeyOk(r[i].0) && StoreReady(r[i].1) {
        assert r[i] in r;
        var k :| 0 <= k < |ps| && ps[k] == r[i];
      }
    }
    assert Clean(JObj(r));
    assert WellFormed(JObj(r)) by {
      LemmaPutAllDistinct([], ps);
    }
  }

  /** After sanitising, no key at any depth holds `.` or `$`, and no mapping repeats a key. */
  lemma {:induction false} LemmaSanitizeStoreReady(j: Json)
    ensures StoreReady(Sanitize(j))
  {
    match j
    case JArr(items) =>
      forall i | 0 <= i < |items| ensures StoreReady(Sanitize(items[i])) {
        LemmaSanitizeStoreReady(items[i]);
      }
    case JObj(fields) =>
      LemmaSanitizeObject(fields);
      var ps := SanitizedPairs(fields);
      forall i | 0 <= i < |ps| ensures KeyOk(ps[i].0) && StoreReady(ps[i].1) {
        LemmaSanitizeStoreReady(fields[i].1);
      }
      LemmaBuildStoreReady(ps);
    case _ =>
  }

  /** A dict built from `ps` has one entry per distinct key of `ps`. */
  lemma {:induction false} LemmaPutAllSize(ps: seq<(string, Json)>)
    ensures |PutAll([], ps)| == |Keys(ps)| <= |ps|
    ensures |PutAll([], ps)| == |ps| <==> DistinctKeys(ps)
  {
    var r := PutAll([], ps);
    LemmaPutAllDistinct([], ps);
    LemmaKeysCard(r);
    LemmaKeysCard(ps);
    assert Keys(r) == Keys(ps) by {
      assert Keys<string, Json>([]) == {};
    }
  }

  /** On a mapping, the result is the fresh dict built from the rewritten pairs. */
  lemma {:induction false} LemmaSanitizeObject(fields: seq<(string, Json)>)
    ensures Sanitize(JObj(fields)) == JObj(PutAll([], SanitizedPairs(fields)))
  {
  }

  /** A list keeps its length and order; element i of the result is element i sanitised. */
  lemma {:induction false} LemmaSanitizeList(items: seq<Json>)
    ensures Sanitize(JArr(items)).JArr?
    ensures |Sanitize(JArr(items)).items| == |items|
    ensures forall i :: 0 <= i < |items| ==> Sanitize(JArr(items)).items[i] == Sanitize(items[i])
  {
  }

  /** The result's key set is exactly the image of the original keys under the rewrite. */
  lemma {:induction false} LemmaSanitizeObjectKeys(fields: seq<(string, Json)>)
    ensures Keys(Sanitize(JObj(fields)).fields) == RewrittenKeys(fields)
  {
    LemmaSanitizeObject(fields);
    var ps := SanitizedPairs(fields);
    forall k | k in Keys(ps) ensures k in RewrittenKeys(fields) {
      var p :| p in ps && p.0 == k;
      var i :| 0 <= i < |ps| && ps[i] == p;
      assert fields[i] in fields;
    }
    forall k | k in RewrittenKeys(fields) ensures k in Keys(ps) {
      var p :| p in fields && RewriteKey(p.0) == k;
      var i :| 0 <= i < |fields| && fields[i] == p;
      assert ps[i] in ps;
    }
  }

  /**
   * The result never has more keys than the original, and has as many
   * exactly when no two original keys collide after the rewrite.
   */
  lemma {:induction false} LemmaSanitizeObjectSize(fields: seq<(string, Json)>)
    ensures |Sanitize(JObj(fields)).fields| <= |fields|
    ensures |Sanitize(JObj(fields)).fields| == |fields| <==> NoCollision(fields)
  {
    LemmaSanitizeObject(fields);
    var ps := SanitizedPairs(fields);
    LemmaPutAllSize(ps);
    assert DistinctKeys(ps) <==> NoCollision(fields) by {
      assert forall i :: 0 <= i < |ps| ==> ps[i].0 == RewriteKey(fields[i].0);
    }
  }

  /**
   * Last write wins: a rewritten key holds the sanitised value of the LAST
   * original key that rewrites to it.
   */
  lemma {:induction false} LemmaSanitizeObjectLastWins(fields: seq<(string, Json)>, i: nat)
    requires i < |fields|
    requires forall j :: i < j < |fields| ==> RewriteKey(fields[j].0) != RewriteKey(fields[i].0)
    ensures Lookup(Sanitize(JObj(fields)).fields, RewriteKey(fields[i].0)) == Some(Sanitize(fields[i].1))
  {
    LemmaSanitizeObject(fields);
    var ps := SanitizedPairs(fields);
    assert ps[i] in ps;
    LemmaPutAllLookup([], ps, ps[i].0);
    LemmaLastLookupAt(ps, i);
  }

  /** A key outside the image of the original keys is absent from the result. */
  lemma {:induction false} LemmaSanitizeObjectAbsent(fields: seq<(string, Json)>, k: string)
    requires k !in RewrittenKeys(fields)
    ensures Lookup(Sanitize(JObj(fields)).fields, k) == None
  {
    LemmaSanitizeObjectKeys(fields);
  }

  /**
   * The result lists its keys in the order in which each rewritten key was
   * FIRST produced: a collision does not move the surviving key.
   */
  lemma {:induction false} LemmaSanitizeObjectOrder(fields: seq<(string, Json)>)
    ensures KeySeq(Sanitize(JObj(fields)).fields) == Dedup(RewrittenKeySeq(fields))
  {
    LemmaSanitizeObject(fields);
    LemmaPutAllKeyOrder(SanitizedPairs(fields));
    LemmaSanitizedKeySeq(fields);
  }

  lemma {:induction false} LemmaSanitizedKeySeq(fields: seq<(string, Json)>)
    ensures KeySeq(SanitizedPairs(fields)) == RewrittenKeySeq(fields)
  {
  }

  /** A list whose elements are each left unchanged is left unchanged. */
  lemma {:induction false} LemmaSanitizeListFixed(items: seq<Json>)
    requires forall i :: 0 <= i < |items| ==> Sanitize(items[i]) == items[i]
    ensures Sanitize(JArr(items)) == JArr(items)
  {
    assert Sanitize(JArr(items)).items == items;
  }

  /**
   * A mapping with distinct legal keys whose values are each left unchanged
   * is left unchanged, order included.
   */
  lemma {:induction false} LemmaSanitizeObjectFixed(fields: seq<(string, Json)>)
    requires DistinctKeys(fields)
    requires forall i :: 0 <= i < |fields| ==> KeyOk(fields[i].0) && Sanitize(fields[i].1) == fields[i].1
    ensures Sanitize(JObj(fields)) == JObj(fields)
  {
    LemmaSanitizeObject(fields);
    var ps := SanitizedPairs(fields);
    forall i | 0 <= i < |fields| ensures ps[i] == fields[i] {
      LemmaRewriteKeyFixed(fields[i].0);
    }
    assert ps == fields;
    LemmaPutAllFresh([], fields);
    assert [] + fields == fields;
  }

  /** A value is left unchanged exactly when it is already store-ready. */
  lemma {:induction false} LemmaSanitizeFixpoint(j: Json)
    ensures Sanitize(j) == j <==> StoreReady(j)
  {
    LemmaSanitizeStoreReady(j);
    if StoreReady(j) {
      match j
      case JArr(items) =>
        forall i | 0 <= i < |items| ensures Sanitize(items[i]) == items[i] {
          LemmaSanitizeFixpoint(items[i]);
        }
        LemmaSanitizeListFixed(items);
      case JObj(fields) =>
        forall i | 0 <= i < |fields| ensures Sanitize(fields[i].1) == fields[i].1 {
          LemmaSanitizeFixpoint(fields[i].1);
        }
        LemmaSanitizeObjectFixed(fields);
      case _ =>
    }
  }

  /** Sanitising twice is sanitising once. */
  lemma {:induction false} LemmaSanitizeIdempotent(j: Json)
    ensures Sanitize(Sanitize(j)) == Sanitize(j)
  {
    LemmaSanitizeStoreReady(j);
    LemmaSanitizeFixpoint(Sanitize(j));
  }

  /** A record with keys "a.b" then "a$b" keeps one key "a_b" holding the later value. */
  lemma {:induction false} LemmaSanitizeCollisionExample()
    ensures Sanitize(JObj([("a.b", JNum(1)), ("a$b", JNum(2))])) == JObj([("a_b", JNum(2))])
  {
    var fields := [("a.b", JNum(1)), ("a$b", JNum(2))];
    var ps := SanitizedPairs(fields);
    assert ps == [("a_b", JNum(1)), ("a_b", JNum(2))] by {
      LemmaRewriteKeyCollision();
      assert Sanitize(JNum(1)) == JNum(1) && Sanitize(JNum(2)) == JNum(2);
    }
    assert PutAll([], ps) == [("a_b", JNum(2))] by {
      var first := PutAll([], ps[..1]);
      assert first == [("a_b", JNum(1))] by {
        assert ps[..1] == [("a_b", JNum(1))];
        assert ps[..1][..0] == [];
        assert first == Put(PutAll([], ps[..1][..0]), "a_b", JNum(1));
      }
      assert PutAll([], ps) == Put(first, "a_b", JNum(2));
    }
    LemmaSanitizeObject(fields);
  }
}
