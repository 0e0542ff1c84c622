/**
 * `transform`: flattens a feed mapping `identifier -> list of records` into
 * one list of documents. Each record is sanitised, then stamped with
 * `threatfox_id` (its identifier) and `ingested_at` (a clock reading).
 * Entries whose value is not a list are skipped; a list element that is not
 * a mapping aborts the whole transform.
 *
 * The clock is read once per document, so it is modelled as a parameter
 * `clock: nat -> string` whose k-th value is the timestamp of the k-th
 * document produced.
 */
module Transformer {
  import opened Wrappers
  import opened OrderedDict
  import opened KeyRewrite
  import opened JsonValue
  import opened Sanitizer

  /** Why the transform failed: the two type errors the source can raise. */
  datatype TransformError =
    | FeedNotAMapping                          // the feed has no `.items()`
    | RecordNotAMapping(id: string, index: nat) // item assignment on a non-dict record

  const IdKey: string := "threatfox_id"
  const StampKey: string := "ingested_at"

  /**
   * One record of the feed, as the nested loops visit it: the position of
   * its entry in the feed, the entry's identifier, its position in the
   * entry's list, and the record itself.
   */
  datatype Candidate = Candidate(entry: nat, id: string, index: nat, record: Json)

  /** Sanitise `record`, then set `threatfox_id` and `ingested_at`; fails unless the record is a mapping. */
  function StampRecord(record: Json, id: string, index: nat, ts: string): (r: Result<Json, TransformError>)
    ensures r.Success? <==> record.JObj?
    ensures r.Failure? ==> r.error == RecordNotAMapping(id, index)
    ensures r.Success? ==> r.value.JObj?
  {
    var doc := Sanitize(record);
    if !doc.JObj? then Failure(RecordNotAMapping(id, index))
    else Success(JObj(Put(Put(doc.fields, IdKey, JStr(id)), StampKey, JStr(ts))))
  }

  /**
   * A stamped document holds `threatfox_id` and `ingested_at` with the given
   * values, overwriting a same-named key of the record in place; every other
   * key is the sanitised record's, and the document is store-ready.
   */
  lemma {:induction false} LemmaStampedDocument(record: Json, id: string, index: nat, ts: string)
    requires record.JObj?
    ensures var doc := StampRecord(record, id, index, ts).value.fields;
      && Lookup(doc, IdKey) == Some(JStr(id))
      && Lookup(doc, StampKey) == Some(JStr(ts))
      && (forall k :: k != IdKey && k != StampKey ==> Lookup(doc, k) == Lookup(Sanitize(record).fields, k))
      && Keys(doc) == Keys(Sanitize(record).fields) + {IdKey, StampKey}
      && StoreReady(JObj(doc))
  {
    var fields := Sanitize(record).fields;
    var withId := Put(fields, IdKey, JStr(id));
    var stamped := Put(withId, StampKey, JStr(ts));
    assert StampRecord(record, id, index, ts).value.fields == stamped;
    LemmaSanitizeStoreReady(record);
    LemmaStampedReady(fields, id, ts);
    forall k ensures Lookup(stamped, k) == if k == StampKey then Some(JStr(ts)) else Lookup(withId, k) {
      LemmaPutLookup(withId, StampKey, JStr(ts), k);
    }
    forall k ensures Lookup(withId, k) == if k == IdKey then Some(JStr(id)) else Lookup(fields, k) {
      LemmaPutLookup(fields, IdKey, JStr(id), k);
    }
  }

  /**
   * The document lists the sanitised record's keys in their order, followed
   * by whichever of `threatfox_id` and `ingested_at` the record lacked, in
   * that order; a record lacking both gains exactly the two pairs at its end.
   */
  lemma {:induction false} LemmaStampedOrder(record: Json, id: string, index: nat, ts: string)
    requires record.JObj?
    ensures var fields := Sanitize(record).fields;
      var doc := StampRecord(record, id, index, ts).value.fields;
      && KeySeq(doc) == KeySeq(fields)
           + (if IdKey in Keys(fields) then [] else [IdKey])
           + (if StampKey in Keys(fields) then [] else [StampKey])
      && (IdKey !in Keys(fields) && StampKey !in Keys(fields) ==>
            doc == fields + [(IdKey, JStr(id)), (StampKey, JStr(ts))])
  {
    var fields := Sanitize(record).fields;
    var withId := Put(fields, IdKey, JStr(id));
    var stamped := Put(withId, StampKey, JStr(ts));
    assert StampRecord(record, id, index, ts).value.fields == stamped;
    assert StampKey != IdKey by {
      assert StampKey[0] != IdKey[0];
    }
    LemmaPutTwoOrder(fields, IdKey, JStr(id), StampKey, JStr(ts));
  }

  /** Stamping a store-ready mapping with the two metadata keys keeps it store-ready. */
  lemma {:induction false} LemmaStampedReady(fields: seq<(string, Json)>, id: string, ts: string)
    requires StoreReady(JObj(fields))
    ensures StoreReady(JObj(Put(Put(fields, IdKey, JStr(id)), StampKey, JStr(ts))))
  {
    assert KeyOk(IdKey) by {
      assert forall i :: 0 <= i < |IdKey| ==> IdKey[i] != '.' && IdKey[i] != '$';
    }
    assert KeyOk(StampKey) by {
      assert forall i :: 0 <= i < |StampKey| ==> StampKey[i] != '.' && StampKey[i] != '$';
    }
    var withId := Put(fields, IdKey, JStr(id));
    var stamped := Put(withId, StampKey, JStr(ts));
    LemmaPutDistinct(fields, IdKey, JStr(id));
    LemmaPutDistinct(withId, StampKey, JStr(ts));
    forall i | 0 <= i < |withId| ensures KeyOk(withId[i].0) && StoreReady(withId[i].1) {
      assert withId[i] in withId;
      if withId[i] != (IdKey, JStr(id)) {
        var j :| 0 <= j < |fields| && fields[j] == withId[i];
      }
    }
    forall i | 0 <= i < |stamped| ensures KeyOk(stamped[i].0) && StoreReady(stamped[i].1) {
      assert stamped[i] in stamped;
      if stamped[i] != (StampKey, JStr(ts)) {
        var j :| 0 <= j < |withId| && withId[j] == stamped[i];
      }
    }
  }

  /** Every record passes the item assignment: it is a mapping. */
  predicate AllMappings(cs: seq<Candidate>)
  {
    forall k :: 0 <= k < |cs| ==> cs[k].record.JObj?
  }

  /** The position of the first record that is not a mapping. */
  function FirstNonMapping(cs: seq<Candidate>): (f: nat)
    requires !AllMappings(cs)
    ensures f < |cs| && !cs[f].record.JObj?
    ensures AllMappings(cs[..f])
  {
    if !cs[0].record.JObj? then 0
    else
      var f := 1 + FirstNonMapping(cs[1..]);
      assert forall k :: 0 < k < f ==> cs[..f][k] == cs[1..][..f - 1][k - 1];
      f
  }

  /**
   * The body of the inner loop, given a record, its identifier, its
   * position in the list and the clock reading. The loops below are stated
   * for any such body; `Transform` runs them with `StampRecord`.
   */
  type Stamper = (Json, string, nat, string) -> Result<Json, TransformError>

  /** Stamping the k-th record with `clock(start + k)` succeeds for every record. */
  predicate StampsSucceed(stamp: Stamper, cs: seq<Candidate>, clock: nat -> string, start: nat)
  {
    forall k :: 0 <= k < |cs| ==> stamp(cs[k].record, cs[k].id, cs[k].index, clock(start + k)).Success?
  }

  /**
   * Reference semantics over the flat record list: stamp records one after
   * the other, the k-th with the clock reading `clock(start + k)`, stopping
   * at the first failure. `LemmaStampAllSuccess` states what it yields.
   */
  function StampAll(stamp: Stamper, cs: seq<Candidate>, clock: nat -> string, start: nat): (r: Result<seq<Json>, TransformError>)
    ensures r.Success? ==> |r.value| == |cs|
  {
    if |cs| == 0 then Success([])
    else
      var doc :- stamp(cs[0].record, cs[0].id, cs[0].index, clock(start));
      var rest :- StampAll(stamp, cs[1..], clock, start + 1);
      Success([doc] + rest)
  }

  /**
   * The flat stamping succeeds exactly when every record's stamping does,
   * and then yields one document per record, the k-th being the k-th record
   * stamped with `clock(start + k)`.
   */
  lemma {:induction false} LemmaStampAllSuccess(stamp: Stamper, cs: seq<Candidate>, clock: nat -> string, start: nat)
    ensures StampAll(stamp, cs, clock, start).Success? <==> StampsSucceed(stamp, cs, clock, start)
    ensures StampAll(stamp, cs, clock, start).Success? ==> forall k :: 0 <= k < |cs| ==>
      stamp(cs[k].record, cs[k].id, cs[k].index, clock(start + k)) == Success(StampAll(stamp, cs, clock, start).value[k])
  {
    if |cs| > 0 {
      var first := stamp(cs[0].record, cs[0].id, cs[0].index, clock(start));
      var tail := cs[1..];
      LemmaStampAllSuccess(stamp, tail, clock, start + 1);
      assert StampsSucceed(stamp, cs, clock, start) <==> first.Success? && StampsSucceed(stamp, tail, clock, start + 1) by {
        assert forall k :: 0 <= k < |tail| ==> cs[k + 1] == tail[k] && start + (k + 1) == start + 1 + k;
      }
      if first.Success? {
        var rest := StampAll(stamp, tail, clock, start + 1);
        if rest.Success? {
          var docs := [first.value] + rest.value;
          forall k | 0 <= k < |cs|
            ensures stamp(cs[k].record, cs[k].id, cs[k].index, clock(start + k)) == Success(docs[k])
          {
            if k > 0 {
              assert cs[k] == tail[k - 1] && start + k == start + 1 + (k - 1);
              assert docs[k] == rest.value[k - 1];
            }
          }
        }
      }
    }
  }

  /** With `StampRecord`, stamping succeeds for every record exactly when every record is a mapping. */
  lemma {:induction false} LemmaStampRecordsSucceed(cs: seq<Candidate>, clock: nat -> string, start: nat)
    ensures StampsSucceed(StampRecord, cs, clock, start) <==> AllMappings(cs)
  {
  }

  /** `StampAll` over a concatenation: the first part, then the second with the clock moved on. */
  lemma {:induction false} LemmaStampAllAppend(stamp: Stamper, a: seq<Candidate>, b: seq<Candidate>, clock: nat -> string, start: nat)
    ensures StampAll(stamp, a + b, clock, start) ==
      match StampAll(stamp, a, clock, start)
      case Failure(e) => Failure(e)
      case Success(x) =>
        match StampAll(stamp, b, clock, start + |a|)
        case Failure(e) => Failure(e)
        case Success(y) => Success(x + y)
  {
    if |a| > 0 {
      assert (a + b)[0] == a[0];
      assert (a + b)[1..] == a[1..] + b;
      LemmaStampAllAppend(stamp, a[1..], b, clock, start + 1);
      var first := stamp(a[0].record, a[0].id, a[0].index, clock(start));
      if first.Success? {
        match StampAll(stamp, a[1..], clock, start + 1)
        case Failure(e) =>
        case Success(x) =>
          match StampAll(stamp, b, clock, start + |a|)
          case Failure(e) =>
          case Success(y) =>
            assert [first.value] + (x + y) == ([first.value] + x) + y;
      }
    } else {
      assert a + b == b;
      match StampAll(stamp, b, clock, start)
      case Failure(e) =>
      case Success(y) =>
        assert [] + y == y;
    }
  }

  /** How many records the feed's list-valued entries hold together. */
  function TotalRecords(entries: seq<(string, Json)>): nat
  {
    if |entries| == 0 then 0
    else EntryRecords(entries[0]) + TotalRecords(entries[1..])
  }

  /** How many records one entry holds: its list's length, or none when it is not a list. */
  function EntryRecords(entry: (string, Json)): nat
  {
    if entry.1.JArr? then |entry.1.items| else 0
  }

  /** The records `records[from..]` of the entry at position `e`, in list order. */
  function ListCandidates(e: nat, id: string, records: seq<Json>, from: nat): (cs: seq<Candidate>)
    requires from <= |records|
    ensures |cs| == |records| - from
    ensures forall j :: 0 <= j < |cs| ==> cs[j] == Candidate(e, id, from + j, records[from + j])
    decreases |records| - from
  {
    if from == |records| then []
    else [Candidate(e, id, from, records[from])] + ListCandidates(e, id, records, from + 1)
  }

  /** The records of one entry, in list order; none when its value is not a list. */
  function EntryCandidates(e: nat, entry: (string, Json)): (cs: seq<Candidate>)
    ensures |cs| == EntryRecords(entry)
  {
    match entry.1
    case JArr(records) => ListCandidates(e, entry.0, records, 0)
    case _ => []
  }

  /**
   * Every record of the feed in the order the nested loops visit them:
   * entries in iteration order, and within an entry its list in order. The
   * entry at position `p` of `entries` is numbered `base + p`.
   */
  function Candidates(entries: seq<(string, Json)>, base: nat): (cs: seq<Candidate>)
    ensures |cs| == TotalRecords(entries)
  {
    if |entries| == 0 then []
    else EntryCandidates(base, entries[0]) + Candidates(entries[1..], base + 1)
  }

  /**
   * Record `i` of the entry at position `e` is visited at position
   * `TotalRecords(entries[..e]) + i`: after every record of every earlier
   * entry and after the earlier records of its own list.
   */
  lemma {:induction false} LemmaCandidatePosition(entries: seq<(string, Json)>, base: nat, e: nat, i: nat)
    requires e < |entries| && entries[e].1.JArr? && i < |entries[e].1.items|
    ensures TotalRecords(entries[..e]) + i < TotalRecords(entries)
    ensures Candidates(entries, base)[TotalRecords(entries[..e]) + i]
         == Candidate(base + e, entries[e].0, i, entries[e].1.items[i])
  {
    if e == 0 {
      assert entries[..0] == [];
      LemmaCandidateInHead(entries, base, i);
    } else {
      LemmaCandidatePosition(entries[1..], base + 1, e - 1, i);
      assert entries[1..][e - 1] == entries[e];
      LemmaTotalRecordsPrefix(entries, e);
      LemmaCandidateInTail(entries, base, TotalRecords(entries[1..][..e - 1]) + i);
    }
  }

  /** The first entry's records come first, in list order. */
  lemma {:induction false} LemmaCandidateInHead(entries: seq<(string, Json)>, base: nat, i: nat)
    requires 0 < |entries| && entries[0].1.JArr? && i < |entries[0].1.items|
    ensures i < TotalRecords(entries)
    ensures Candidates(entries, base)[i] == Candidate(base, entries[0].0, i, entries[0].1.items[i])
  {
    var head := EntryCandidates(base, entries[0]);
    assert Candidates(entries, base)[i] == head[i];
  }

  /** The later entries' records follow those of the first entry. */
  lemma {:induction false} LemmaCandidateInTail(entries: seq<(string, Json)>, base: nat, k: nat)
    requires 0 < |entries| && k < TotalRecords(entries[1..])
    ensures EntryRecords(entries[0]) + k < TotalRecords(entries)
    ensures Candidates(entries, base)[EntryRecords(entries[0]) + k] == Candidates(entries[1..], base + 1)[k]
  {
    var head := EntryCandidates(base, entries[0]);
    var tail := Candidates(entries[1..], base + 1);
    assert Candidates(entries, base) == head + tail;
  }

  /** The records before entry `e` are the first entry's and those of the entries between. */
  lemma {:induction false} LemmaTotalRecordsPrefix(entries: seq<(string, Json)>, e: nat)
    requires 0 < e <= |entries|
    ensures TotalRecords(entries[..e]) == EntryRecords(entries[0]) + TotalRecords(entries[1..][..e - 1])
  {
    assert entries[..e][1..] == entries[1..][..e - 1];
    assert entries[..e][0] == entries[0];
  }

  /** Record `i` of the list-valued entry at position `e` is the one visited at position `k`. */
  predicate RecordAt(entries: seq<(string, Json)>, e: nat, i: nat, k: nat)
  {
    e < |entries| && entries[e].1.JArr? && i < |entries[e].1.items| && k == TotalRecords(entries[..e]) + i
  }

  /**
   * The converse of `LemmaCandidatePosition`: every visiting position comes
   * from some record of some list-valued entry.
   */
  lemma {:induction false} LemmaCandidateOrigin(entries: seq<(string, Json)>, base: nat, k: nat)
    requires k < TotalRecords(entries)
    ensures exists e: nat, i: nat ::
              && RecordAt(entries, e, i, k)
              && Candidates(entries, base)[k] == Candidate(base + e, entries[e].0, i, entries[e].1.items[i])
  {
    var e, i := LemmaOriginOf(entries, base, k);
    assert RecordAt(entries, e, i, k);
  }

  /** The entry and list position of the record visited at position `k`. */
  lemma {:induction false} LemmaOriginOf(entries: seq<(string, Json)>, base: nat, k: nat) returns (e: nat, i: nat)
    requires k < TotalRecords(entries)
    ensures RecordAt(entries, e, i, k)
    ensures Candidates(entries, base)[k] == Candidate(base + e, entries[e].0, i, entries[e].1.items[i])
  {
    var n := EntryRecords(entries[0]);
    if k < n {
      e, i := 0, k;
      assert entries[..0] == [];
      LemmaCandidateInHead(entries, base, k);
    } else {
      var e', i' := LemmaOriginOf(entries[1..], base + 1, k - n);
      e, i := e' + 1, i';
      assert entries[1..][e'] == entries[e];
      LemmaTotalRecordsPrefix(entries, e);
      LemmaCandidateInTail(entries, base, k - n);
    }
  }

  /** Distinct records are visited at distinct positions: a position has exactly one record. */
  lemma {:induction false} LemmaRecordAtUnique(entries: seq<(string, Json)>, e: nat, i: nat, e': nat, i': nat, k: nat)
    requires RecordAt(entries, e, i, k) && RecordAt(entries, e', i', k)
    ensures e == e' && i == i'
  {
    if e < e' {
      LemmaRecordAtBefore(entries, e, i, e', i', k);
    } else if e' < e {
      LemmaRecordAtBefore(entries, e', i', e, i, k);
    }
  }

  /** A record of a later entry is visited after every record of an earlier one. */
  lemma {:induction false} LemmaRecordAtBefore(entries: seq<(string, Json)>, e: nat, i: nat, e': nat, i': nat, k: nat)
    requires RecordAt(entries, e, i, k) && e < e' < |entries|
    ensures k < TotalRecords(entries[..e'])
  {
    assert entries[..e'] == entries[..e + 1] + entries[e + 1..e'];
    LemmaTotalRecordsAppend(entries[..e + 1], entries[e + 1..e']);
    assert entries[..e + 1] == entries[..e] + [entries[e]];
    LemmaTotalRecordsAppend(entries[..e], [entries[e]]);
    assert [entries[e]][1..] == [];
  }

  /** The records of a concatenation are those of both parts. */
  lemma {:induction false} LemmaTotalRecordsAppend(a: seq<(string, Json)>, b: seq<(string, Json)>)
    ensures TotalRecords(a + b) == TotalRecords(a) + TotalRecords(b)
  {
    if |a| == 0 {
      assert a + b == b;
    } else {
      assert (a + b)[0] == a[0];
      assert (a + b)[1..] == a[1..] + b;
      LemmaTotalRecordsAppend(a[1..], b);
    }
  }

  /** A value that is not a list, or a list whose every element is a mapping. */
  predicate NoBadRecords(v: Json)
  {
    v.JArr? ==> forall i :: 0 <= i < |v.items| ==> v.items[i].JObj?
  }

  /** Every list element of every list-valued entry is a mapping. */
  predicate RecordsAreMappings(entries: seq<(string, Json)>)
  {
    forall e :: 0 <= e < |entries| ==> NoBadRecords(entries[e].1)
  }

  /** The records of a concatenation are all mappings exactly when those of both parts are. */
  lemma {:induction false} LemmaAllMappingsAppend(a: seq<Candidate>, b: seq<Candidate>)
    ensures AllMappings(a + b) <==> AllMappings(a) && AllMappings(b)
  {
    assert forall k :: 0 <= k < |a| ==> (a + b)[k] == a[k];
    assert forall k :: 0 <= k < |b| ==> (a + b)[|a| + k] == b[k];
  }

  /** One entry's records are all mappings exactly when its value has no bad record. */
  lemma {:induction false} LemmaEntryMappings(e: nat, entry: (string, Json))
    ensures AllMappings(EntryCandidates(e, entry)) <==> NoBadRecords(entry.1)
  {
    if entry.1.JArr? {
      var cs := EntryCandidates(e, entry);
      assert forall i :: 0 <= i < |cs| ==> cs[i].record == entry.1.items[i];
    }
  }

  /** The flat record list holds only mappings exactly when every list element of the feed is one. */
  lemma {:induction false} LemmaAllMappingsIff(entries: seq<(string, Json)>, base: nat)
    ensures AllMappings(Candidates(entries, base)) <==> RecordsAreMappings(entries)
  {
    if |entries| > 0 {
      var head := EntryCandidates(base, entries[0]);
      var tail := Candidates(entries[1..], base + 1);
      LemmaAllMappingsIff(entries[1..], base + 1);
      LemmaAllMappingsAppend(head, tail);
      LemmaEntryMappings(base, entries[0]);
      assert RecordsAreMappings(entries) <==> NoBadRecords(entries[0].1) && RecordsAreMappings(entries[1..]) by {
        assert forall e :: 0 < e < |entries| ==> entries[e] == entries[1..][e - 1];
      }
    }
  }

  /**
   * The inner loop of `transform`: stamp `records[from..]` of the entry
   * `id`, the first of them with the clock reading `clock(start)`.
   */
  function StampList(stamp: Stamper, id: string, records: seq<Json>, from: nat, clock: nat -> string, start: nat): (r: Result<seq<Json>, TransformError>)
    requires from <= |records|
    ensures r.Success? ==> |r.value| == |records| - from
    decreases |records| - from
  {
    if from == |records| then Success([])
    else
      var doc :- stamp(records[from], id, from, clock(start));
      var rest :- StampList(stamp, id, records, from + 1, clock, start + 1);
      Success([doc] + rest)
  }

  /**
   * The outer loop of `transform`: for each entry in order, run the inner
   * loop when its value is a list and skip it otherwise.
   */
  function TransformEntries(stamp: Stamper, entries: seq<(string, Json)>, clock: nat -> string, start: nat): (r: Result<seq<Json>, TransformError>)
    ensures r.Success? ==> |r.value| == TotalRecords(entries)
  {
    if |entries| == 0 then Success([])
    else
      var docs :- StampEntry(stamp, entries[0], clock, start);
      var rest :- TransformEntries(stamp, entries[1..], clock, start + |docs|);
      Success(docs + rest)
  }

  /** One pass of the outer loop: the inner loop when the entry is a list, nothing otherwise. */
  function StampEntry(stamp: Stamper, entry: (string, Json), clock: nat -> string, start: nat): (r: Result<seq<Json>, TransformError>)
    ensures r.Success? ==> |r.value| == EntryRecords(entry)
  {
    match entry.1
    case JArr(records) => StampList(stamp, entry.0, records, 0, clock, start)
    case _ => Success([])
  }

  /** The inner loop stamps exactly the entry's records from `from` on. */
  lemma {:induction false} LemmaStampList(stamp: Stamper, e: nat, id: string, records: seq<Json>, from: nat, clock: nat -> string, start: nat)
    requires from <= |records|
    ensures StampList(stamp, id, records, from, clock, start)
         == StampAll(stamp, ListCandidates(e, id, records, from), clock, start)
    decreases |records| - from
  {
    if from < |records| {
      LemmaStampList(stamp, e, id, records, from + 1, clock, start + 1);
      var cs := ListCandidates(e, id, records, from);
      assert cs[1..] == ListCandidates(e, id, records, from + 1);
    }
  }

  /** The nested loops compute the reference semantics over the flat record list. */
  lemma {:induction false} LemmaTransformEntries(stamp: Stamper, entries: seq<(string, Json)>, base: nat, clock: nat -> string, start: nat)
    ensures TransformEntries(stamp, entries, clock, start) == StampAll(stamp, Candidates(entries, base), clock, start)
  {
    if |entries| > 0 {
      var head := EntryCandidates(base, entries[0]);
      var tail := Candidates(entries[1..], base + 1);
      assert Candidates(entries, base) == head + tail;
      LemmaStampAllAppend(stamp, head, tail, clock, start);
      LemmaStampEntry(stamp, base, entries[0], clock, start);
      var first := StampAll(stamp, head, clock, start);
      if first.Success? {
        LemmaTransformEntries(stamp, entries[1..], base + 1, clock, start + |head|);
      }
    }
  }

  /** One pass of the outer loop stamps exactly that entry's records. */
  lemma {:induction false} LemmaStampEntry(stamp: Stamper, base: nat, entry: (string, Json), clock: nat -> string, start: nat)
    ensures StampEntry(stamp, entry, clock, start) == StampAll(stamp, EntryCandidates(base, entry), clock, start)
  {
    match entry.1
    case JArr(records) =>
      LemmaStampList(stamp, base, entry.0, records, 0, clock, start);
    case _ =>
  }

  /**
   * `transform`: a feed that is not a mapping fails; otherwise the nested
   * loops with `StampRecord` as their body give the reference semantics
   * over the flat record list, the k-th document being stamped with the
   * k-th clock reading.
   */
  function Transform(raw: Json, clock: nat -> string): (r: Result<seq<Json>, TransformError>)
    ensures !raw.JObj? ==> r == Failure(FeedNotAMapping)
    ensures raw.JObj? ==> r == StampAll(StampRecord, Candidates(raw.fields, 0), clock, 0)
  {
    match raw
    case JObj(entries) =>
      LemmaTransformEntries(StampRecord, entries, 0, clock, 0);
      TransformEntries(StampRecord, entries, clock, 0)
    case _ => Failure(FeedNotAMapping)
  }

  /** The transform succeeds exactly when the feed is a mapping whose list elements are all mappings. */
  lemma {:induction false} LemmaTransformSucceeds(raw: Json, clock: nat -> string)
    ensures Transform(raw, clock).Success? <==> raw.JObj? && RecordsAreMappings(raw.fields)
  {
    if raw.JObj? {
      var cs := Candidates(raw.fields, 0);
      LemmaStampAllSuccess(StampRecord, cs, clock, 0);
      LemmaStampRecordsSucceed(cs, clock, 0);
      LemmaAllMappingsIff(raw.fields, 0);
    }
  }

  /**
   * On success there is exactly one document per record of every
   * list-valued entry. Record `i` of the entry at position `e` yields the
   * document at position `TotalRecords(entries[..e]) + i`: documents follow
   * the entries' iteration order, then list order. That document is the
   * record stamped with the entry's identifier, its list position and the
   * clock reading for its position; `LemmaStampedDocument` and
   * `LemmaStampedOrder` say what such a document holds.
   */
  lemma {:induction false} LemmaTransformDocument(entries: seq<(string, Json)>, clock: nat -> string, e: nat, i: nat)
    requires Transform(JObj(entries), clock).Success?
    requires e < |entries| && entries[e].1.JArr? && i < |entries[e].1.items|
    ensures var docs := Transform(JObj(entries), clock).value;
      var k := TotalRecords(entries[..e]) + i;
      && |docs| == TotalRecords(entries)
      && k < |docs|
      && StampRecord(entries[e].1.items[i], entries[e].0, i, clock(k)) == Success(docs[k])
  {
    LemmaFlatStamp(StampRecord, entries, clock, e, i, Transform(JObj(entries), clock).value);
  }

  /** Document `k` of a flat stamping is record `i` of entry `e` stamped with reading `k`. */
  lemma {:induction false} LemmaFlatStamp(stamp: Stamper, entries: seq<(string, Json)>, clock: nat -> string, e: nat, i: nat, docs: seq<Json>)
    requires StampAll(stamp, Candidates(entries, 0), clock, 0) == Success(docs)
    requires e < |entries| && entries[e].1.JArr? && i < |entries[e].1.items|
    ensures var k := TotalRecords(entries[..e]) + i;
      && |docs| == TotalRecords(entries)
      && k < |docs|
      && stamp(entries[e].1.items[i], entries[e].0, i, clock(k)) == Success(docs[k])
  {
    var cs := Candidates(entries, 0);
    var k := TotalRecords(entries[..e]) + i;
    var c := Candidate(e, entries[e].0, i, entries[e].1.items[i]);
    assert k < |cs| && cs[k] == c by {
      LemmaCandidatePosition(entries, 0, e, i);
    }
    assert |docs| == |cs| && stamp(c.record, c.id, c.index, clock(k)) == Success(docs[k]) by {
      LemmaStampAllAt(stamp, cs, clock, docs, k, c);
    }
  }

  /** Document `k` of a successful flat stamping is candidate `k` stamped with reading `start + k`. */
  lemma {:induction false} LemmaStampAllAt(stamp: Stamper, cs: seq<Candidate>, clock: nat -> string, docs: seq<Json>, k: nat, c: Candidate)
    requires StampAll(stamp, cs, clock, 0) == Success(docs)
    requires k < |cs| && cs[k] == c
    ensures |docs| == |cs|
    ensures stamp(c.record, c.id, c.index, clock(k)) == Success(docs[k])
  {
    LemmaStampAllSuccess(stamp, cs, clock, 0);
  }

  /**
   * Every document of a successful flat stamping with `StampRecord` is a
   * store-ready mapping carrying its record's identifier and the clock
   * reading for its position.
   */
  lemma {:induction false} LemmaStampAllDocument(cs: seq<Candidate>, clock: nat -> string, docs: seq<Json>, k: nat)
    requires StampAll(StampRecord, cs, clock, 0) == Success(docs)
    requires k < |docs|
    ensures docs[k].JObj? && StoreReady(docs[k])
    ensures Lookup(docs[k].fields, IdKey) == Some(JStr(cs[k].id))
    ensures Lookup(docs[k].fields, StampKey) == Some(JStr(clock(k)))
  {
    LemmaStampAllAt(StampRecord, cs, clock, docs, k, cs[k]);
    LemmaStampedDocument(cs[k].record, cs[k].id, cs[k].index, clock(k));
  }

  /**
   * Every document of a successful transform comes from one record of a
   * list-valued entry, is store-ready, carries that entry's identifier as
   * `threatfox_id` and the clock reading for its position as `ingested_at`.
   */
  lemma {:induction false} LemmaTransformEveryDocument(entries: seq<(string, Json)>, clock: nat -> string, k: nat)
    requires Transform(JObj(entries), clock).Success?
    requires k < |Transform(JObj(entries), clock).value|
    ensures var doc := Transform(JObj(entries), clock).value[k];
      && doc.JObj? && StoreReady(doc)
      && Lookup(doc.fields, StampKey) == Some(JStr(clock(k)))
      && exists e: nat, i: nat :: RecordAt(entries, e, i, k) && Lookup(doc.fields, IdKey) == Some(JStr(entries[e].0))
  {
    LemmaFlatEveryDocument(entries, clock, Transform(JObj(entries), clock).value, k);
  }

  /** `LemmaTransformEveryDocument` over the flat stamping. */
  lemma {:induction false} LemmaFlatEveryDocument(entries: seq<(string, Json)>, clock: nat -> string, docs: seq<Json>, k: nat)
    requires StampAll(StampRecord, Candidates(entries, 0), clock, 0) == Success(docs)
    requires k < |docs|
    ensures docs[k].JObj? && StoreReady(docs[k])
    ensures Lookup(docs[k].fields, StampKey) == Some(JStr(clock(k)))
    ensures exists e: nat, i: nat :: RecordAt(entries, e, i, k) && Lookup(docs[k].fields, IdKey) == Some(JStr(entries[e].0))
  {
    LemmaStampAllDocument(Candidates(entries, 0), clock, docs, k);
    var e, i := LemmaOriginOf(entries, 0, k);
    assert RecordAt(entries, e, i, k);
  }

  /**
   * A failing flat stamping with `StampRecord` reports the first record that
   * is not a mapping.
   */
  lemma {:induction false} LemmaStampAllFailure(cs: seq<Candidate>, clock: nat -> string, start: nat)
    requires StampAll(StampRecord, cs, clock, start).Failure?
    ensures !AllMappings(cs)
    ensures StampAll(StampRecord, cs, clock, start).error
         == RecordNotAMapping(cs[FirstNonMapping(cs)].id, cs[FirstNonMapping(cs)].index)
  {
    if cs[0].record.JObj? {
      LemmaStampAllFailure(cs[1..], clock, start + 1);
      assert !AllMappings(cs) by {
        var g := FirstNonMapping(cs[1..]);
        assert cs[g + 1] == cs[1..][g];
      }
    }
  }

  /**
   * A failing transform on a mapping reports the first record, in visiting
   * order, that is not a mapping: no document is produced at all.
   */
  lemma {:induction false} LemmaTransformFailure(entries: seq<(string, Json)>, clock: nat -> string)
    requires Transform(JObj(entries), clock).Failure?
    ensures var cs := Candidates(entries, 0);
      && !AllMappings(cs)
      && Transform(JObj(entries), clock).error
           == RecordNotAMapping(cs[FirstNonMapping(cs)].id, cs[FirstNonMapping(cs)].index)
  {
    LemmaStampAllFailure(Candidates(entries, 0), clock, 0);
  }

  /** A feed with no list-valued entry, the empty feed among them, yields no documents. */
  lemma {:induction false} LemmaTransformNoLists(entries: seq<(string, Json)>, clock: nat -> string)
    requires forall e :: 0 <= e < |entries| ==> !entries[e].1.JArr?
    ensures Transform(JObj(entries), clock) == Success([])
  {
    LemmaNoListsNoRecords(entries);
  }

  lemma {:induction false} LemmaNoListsNoRecords(entries: seq<(string, Json)>)
    requires forall e :: 0 <= e < |entries| ==> !entries[e].1.JArr?
    ensures TotalRecords(entries) == 0
  {
    if |entries| > 0 {
      assert forall e :: 0 <= e < |entries[1..]| ==> entries[1..][e] == entries[e + 1];
      LemmaNoListsNoRecords(entries[1..]);
    }
  }

  /**
   * With a clock that returns the same reading `ts` every time, every
   * document carries `ingested_at` equal to `ts` and `threatfox_id` equal to
   * the identifier of the entry it came from.
   */
  lemma {:induction false} LemmaTransformOneTimestamp(entries: seq<(string, Json)>, ts: string, e: nat, i: nat)
    requires Transform(JObj(entries), _ => ts).Success?
    requires e < |entries| && entries[e].1.JArr? && i < |entries[e].1.items|
    ensures var docs := Transform(JObj(entries), _ => ts).value;
      var k := TotalRecords(entries[..e]) + i;
      && k < |docs| && docs[k].JObj?
      && Lookup(docs[k].fields, StampKey) == Some(JStr(ts))
      && Lookup(docs[k].fields, IdKey) == Some(JStr(entries[e].0))
  {
    var clock: nat -> string := _ => ts;
    var k := TotalRecords(entries[..e]) + i;
    LemmaTransformDocument(entries, clock, e, i);
    LemmaStampedDocument(entries[e].1.items[i], entries[e].0, i, clock(k));
  }
}
