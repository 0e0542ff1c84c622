# ThreatFox ETL transform, modelled in Dafny

This project models the transform stage of `etl_connector.py`. That stage
takes a ThreatFox feed, a JSON mapping from IOC identifier to a list of
records, and turns it into documents that can be inserted into MongoDB.
It has two functions:

- `sanitize_for_mongo` walks a JSON value recursively. It rewrites every
  mapping key at every depth, turning each `.` and then each `$` into `_`.
  Lists are mapped element by element and scalars are returned as they are.
  The rewritten pairs are assigned one by one into a fresh dict.
- `transform` visits the feed's entries in order. Entries whose value is not
  a list are skipped. Every element of a list-valued entry is sanitised and
  stamped with `threatfox_id` (the entry's identifier) and `ingested_at`
  (a clock reading). All documents go into one flat list.

Modules:

- `Wrappers`: `Option` and `Result`.
- `OrderedDict`: a Python dict as an insertion-ordered association list.
  - `Put` is `d[k] = v`: a present key is updated in place and a new key is
    appended.
  - `PutAll` is the loop `for k, v in ps: d[k] = v`.
  - `Dedup` is the independent reference for key order: the keys in the
    order they were first seen.
- `KeyRewrite`: `str.replace` for one character, and the key rewrite.
- `JsonValue`: the JSON datatype and what "store-ready" means. A value is
  store-ready when no key at any depth holds `.` or `$` and no mapping
  repeats a key.
  A `JObj` may repeat a key, which no Python dict can. So the model's inputs
  are a superset of the program's, and every result about them also holds
  for the dicts the program sees.
- `Sanitizer`: `sanitize_for_mongo`.
- `Transformer`: `transform`. The nested loops are modelled as written, by
  `StampList` and `TransformEntries`. They are proved equal to a flat
  reference, `StampAll` over `Candidates`. `Candidates` lists every record
  in the order the loops visit it.

The model differs from the Python in three ways:

- **The clock is a parameter.** The source reads the clock once per document
  (line 51 is inside the inner loop). So `Transform` takes
  `clock: nat -> string`, and document `k` is stamped with `clock(k)`.
  - A constant clock `_ => ts` gives the single-timestamp reading
    (`LemmaTransformOneTimestamp`).
- **Errors are values.** Python raises where the model returns a `Result`:
  - `FeedNotAMapping`: the feed has no `.items()`.
  - `RecordNotAMapping(id, index)`: the item assignment at line 50 fails on
    a list element that is not a dict.

  As in Python, the first failure in visiting order aborts the whole
  transform.
- **Only a leading `$` is illegal in the store, but every `$` is replaced.**
  The docstring at line 30 says keys "starting with `$`" are replaced. The
  code at line 34 replaces every `$`, and the model follows the code.
  `LemmaRewriteKeyStoreLegal` shows that the result also meets the store's
  weaker rule: no `.` and no leading `$`.

## Model

| member | source | states |
|---|---|---|
| `KeyRewrite.ReplaceChar` | etl_connector.py:34 | `str.replace` with one-character arguments: same length, every occurrence of the character replaced, every other character kept |
| `KeyRewrite.RewriteKey` | etl_connector.py:34 | the rewritten key has the same length, each `.` or `$` becomes `_`, every other character is kept, and the result holds neither `.` nor `$` |
| `KeyRewrite.LemmaRewriteKeyStoreLegal` | etl_connector.py:30-34 | a rewritten key is a legal field name for the store: no `.` and no leading `$` |
| `KeyRewrite.LemmaRewriteKeyFixed` | etl_connector.py:34 | the rewrite leaves a key unchanged exactly when the key has no `.` and no `$` |
| `KeyRewrite.LemmaRewriteKeyIdempotent` | etl_connector.py:34 | rewriting a rewritten key changes nothing |
| `KeyRewrite.LemmaRewriteKeyOrderIrrelevant` | etl_connector.py:34 | replacing `$` first and `.` second gives the same key as the source's order, `.` first |
| `KeyRewrite.LemmaRewriteKeyCollision` | etl_connector.py:34 | distinct keys can collide: `"a.b"` and `"a$b"` both become `"a_b"` |
| `OrderedDict.Put` | etl_connector.py:35 | after `d[k] = v` the key set is the old one plus `k`, and every pair is an old pair or `(k, v)` |
| `OrderedDict.LemmaPutLookup` | etl_connector.py:35 | after `d[k] = v`, looking up `k` gives `v` and looking up any other key gives what it gave before |
| `OrderedDict.LemmaPutOrder` | etl_connector.py:35 | assigning a present key keeps the key order; assigning a new key appends `(k, v)` at the end |
| `OrderedDict.LemmaPutDistinct` | etl_connector.py:35 | assignment never creates a duplicate key |
| `OrderedDict.PutAll` | etl_connector.py:32-35 | the dict built by assigning pairs in order has the union of the start keys and the assigned keys, and holds only start or assigned pairs |
| `OrderedDict.LemmaPutAllLookup` | etl_connector.py:32-35 | last write wins: an assigned key holds the value of its last pair, and any other key keeps its start value |
| `OrderedDict.LemmaPutAllKeyOrder` | etl_connector.py:32-35 | the built dict lists its keys in order of first occurrence (`Dedup` of the assigned keys): overwriting does not move a key |
| `OrderedDict.LemmaPutAllFresh` | etl_connector.py:32-35 | when no key repeats, the pairs are simply appended in order |
| `OrderedDict.LemmaPutAllDistinct` | etl_connector.py:32-35 | a dict built by assignment has no duplicate key |
| `OrderedDict.LemmaPutTwoOrder` | etl_connector.py:50-51 | two assignments of different keys keep the old key order and append each key that was new, in assignment order |
| `Sanitizer.Sanitize` | etl_connector.py:29-40 | a scalar is returned unchanged, a list keeps its length, and a mapping never gains keys |
| `Sanitizer.LemmaSanitizeStoreReady` | etl_connector.py:29-38 | after sanitising, no mapping key at any depth holds `.` or `$`, and no mapping repeats a key |
| `Sanitizer.LemmaSanitizeList` | etl_connector.py:37-38 | a list keeps its length and order, and element `i` of the result is element `i` sanitised |
| `Sanitizer.LemmaSanitizeObjectKeys` | etl_connector.py:32-35 | the result's key set is exactly the image of the original keys under the rewrite |
| `Sanitizer.LemmaSanitizeObjectSize` | etl_connector.py:32-35 | the result has at most as many keys as the original, and exactly as many iff no two original keys collide after the rewrite |
| `Sanitizer.LemmaSanitizeObjectLastWins` | etl_connector.py:33-35 | a rewritten key holds the sanitised value of the last original key that rewrites to it |
| `Sanitizer.LemmaSanitizeObjectAbsent` | etl_connector.py:32-35 | a key outside the image of the original keys is absent from the result |
| `Sanitizer.LemmaSanitizeObjectOrder` | etl_connector.py:32-35 | the result lists its keys in the order each rewritten key was first produced |
| `Sanitizer.LemmaSanitizeFixpoint` | etl_connector.py:29-40 | a value is left unchanged exactly when it is already store-ready |
| `Sanitizer.LemmaSanitizeIdempotent` | etl_connector.py:29-40 | sanitising twice gives the same value as sanitising once |
| `Sanitizer.LemmaSanitizeCollisionExample` | etl_connector.py:32-35 | `{"a.b": 1, "a$b": 2}` becomes `{"a_b": 2}`: one key, holding the later value |
| `Transformer.StampRecord` | etl_connector.py:49-51 | stamping one record succeeds exactly when the record is a mapping; otherwise the failure names the record's identifier and list position |
| `Transformer.LemmaStampedDocument` | etl_connector.py:49-51 | a stamped document has `threatfox_id` equal to the identifier and `ingested_at` equal to the reading, both overwriting any same-named key; every other key is as in the sanitised record; the key set is the sanitised one plus the two; the document is store-ready |
| `Transformer.LemmaStampedOrder` | etl_connector.py:49-51 | the document keeps the sanitised record's key order and appends whichever of `threatfox_id` and `ingested_at` the record lacked, in that order |
| `Transformer.FirstNonMapping` | etl_connector.py:48-50 | finds the first record in visiting order that is not a mapping: every earlier record is one |
| `Transformer.Candidates` | etl_connector.py:46-48 | the flat visiting order holds exactly as many records as the feed's list-valued entries together |
| `Transformer.LemmaCandidateOrigin` | etl_connector.py:46-48 | the converse of `LemmaCandidatePosition`: every visiting position `k` is that of some record `i` of some list-valued entry `e`, with `k == TotalRecords(entries[..e]) + i` |
| `Transformer.LemmaRecordAtUnique` | etl_connector.py:46-48 | no two records share a visiting position, so positions and records correspond one to one |
| `Transformer.LemmaCandidatePosition` | etl_connector.py:46-48 | record `i` of entry `e` is visited at position `TotalRecords(entries[..e]) + i`: after every record of earlier entries and the earlier records of its own list |
| `Transformer.LemmaAllMappingsIff` | etl_connector.py:47-48 | the visited records are all mappings exactly when every element of every list-valued entry is a mapping |
| `Transformer.StampAll` | etl_connector.py:46-52 | the flat reference for the two loops: stamp the visited records in order, the `k`-th with reading `k`, stop at the first failure; on success one document per record. `LemmaStampAllSuccess` and `LemmaStampAllAppend` give its meaning |
| `Transformer.LemmaStampAllSuccess` | etl_connector.py:48-52 | the flat stamping succeeds iff stamping each record succeeds; then it yields one document per record, the `k`-th being record `k` stamped with reading `k` |
| `Transformer.LemmaStampAllAppend` | etl_connector.py:46-52 | stamping a concatenation is stamping the first part, then the second with the clock moved on, stopping at the first failure |
| `Transformer.StampList` | etl_connector.py:48-52 | the inner loop as written, over the list from position `from` on: on success one document per remaining record. `LemmaStampList` equates it with `StampAll` |
| `Transformer.LemmaStampList` | etl_connector.py:48-52 | the inner loop over one entry's list equals the flat stamping of that entry's records |
| `Transformer.StampEntry` | etl_connector.py:47-52 | one pass of the outer loop as written: the inner loop for a list-valued entry, nothing otherwise; on success one document per record of the entry. `LemmaStampEntry` equates it with `StampAll` |
| `Transformer.LemmaStampEntry` | etl_connector.py:47-52 | one pass of the outer loop, the inner loop for a list-valued entry and nothing otherwise, equals the flat stamping of that entry's records |
| `Transformer.TransformEntries` | etl_connector.py:45-52 | the outer loop as written, collecting every entry's documents in order; on success one document per record of every list-valued entry. `LemmaTransformEntries` equates it with `StampAll` over `Candidates` |
| `Transformer.LemmaTransformEntries` | etl_connector.py:46-52 | the nested loops, skipping non-list entries, equal the flat stamping over the visiting order |
| `Transformer.Transform` | etl_connector.py:42-53 | a feed that is not a mapping fails with `FeedNotAMapping`; otherwise the result is the flat stamping of every record in visiting order |
| `Transformer.LemmaTransformSucceeds` | etl_connector.py:46-50 | the transform succeeds exactly when the feed is a mapping and every element of every list-valued entry is a mapping |
| `Transformer.LemmaTransformDocument` | etl_connector.py:45-53 | on success there is one document per record, and the document at position `TotalRecords(entries[..e]) + i` is record `i` of entry `e` stamped with its identifier and the reading for that position |
| `Transformer.LemmaStampAllDocument` | etl_connector.py:49-52 | every document of a successful flat stamping is a store-ready mapping with its record's identifier as `threatfox_id` and reading `k` as `ingested_at` |
| `Transformer.LemmaTransformEveryDocument` | etl_connector.py:45-53 | every document `k` of a successful transform is a store-ready mapping, has `ingested_at` equal to `clock(k)`, and comes from a record of some list-valued entry whose identifier it carries as `threatfox_id` |
| `Transformer.LemmaStampAllFailure` | etl_connector.py:48-50 | a failing flat stamping reports the first record in visiting order that is not a mapping |
| `Transformer.LemmaTransformFailure` | etl_connector.py:46-50 | a failing transform of a mapping reports the first non-mapping record in visiting order, by identifier and list position |
| `Transformer.LemmaTransformNoLists` | etl_connector.py:45-47 | a feed with no list-valued entry, the empty feed included, yields no documents |
| `Transformer.LemmaTransformOneTimestamp` | etl_connector.py:50-51 | with a clock that always gives `ts`, every document has `ingested_at` equal to `ts` and `threatfox_id` equal to its entry's identifier |

## Left out

- `extract` (etl_connector.py:22-27) is left out. It is an HTTP GET through `requests` plus JSON decoding: network I/O.
- `load_to_mongo` (etl_connector.py:56-67) is left out. It raises `RuntimeError` when `MONGO_URI` is unset, then builds a pymongo client and calls `insert_many` when there are documents and logs a warning otherwise: configuration and external storage I/O.
- `run` (etl_connector.py:69-76) is left out. It is a catch-all exception handler around the three stages, plus logging.
- Environment loading and logging setup (etl_connector.py:10-20) are left out. They are ambient process state.
- The `logger.info` call in `transform` (etl_connector.py:44) has no effect on the result and is left out.
- `datetime.now(timezone.utc).isoformat()` (etl_connector.py:51) becomes the `clock` parameter. The format of the ISO timestamp string is not modelled.
- JSON numbers are opaque integer leaves. Nothing in the transform inspects them, so float semantics are not modelled.
- Sanitize: Python's recursion limit (1000 frames by default) is not modelled. A record nested deeper than that makes `sanitize_for_mongo` (etl_connector.py:35, 38) raise `RecursionError` and fails the whole transform, while `Sanitize` always returns. So `LemmaTransformSucceeds` also claims success for such feeds.
- Python raises `AttributeError` or `TypeError` where the model returns a `Failure`. The exception's message text is not modelled.
