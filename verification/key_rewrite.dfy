/**
 * The rewrite applied to every mapping key before a record is stored:
 * `key.replace(".", "_").replace("$", "_")`.
 */
module KeyRewrite {

  /** `s.replace(c, rep)` for one-character `c` and `rep`: every occurrence is replaced. */
  function ReplaceChar(s: string, c: char, rep: char): (r: string)
    ensures |r| == |s|
    ensures forall i :: 0 <= i < |s| ==> r[i] == if s[i] == c then rep else s[i]
  {
    if |s| == 0 then ""
    else [if s[0] == c then rep else s[0]] + ReplaceChar(s[1..], c, rep)
  }

  /** A key the document store accepts as a field name: no `.`, no leading `$`. */
  predicate StoreLegal(k: string)
  {
    '.' !in k && (|k| == 0 || k[0] != '$')
  }

  /** A key with neither `.` nor `$` anywhere: what the rewrite produces. */
  predicate KeyOk(k: string)
  {
    '.' !in k && '$' !in k
  }

  /** The key rewrite: first every `.`, then every `$`, becomes `_`. */
  function RewriteKey(k: string): (r: string)
    ensures |r| == |k|
    ensures KeyOk(r)
    ensures forall i :: 0 <= i < |k| ==> r[i] == if k[i] == '.' || k[i] == '$' then '_' else k[i]
  {
    ReplaceChar(ReplaceChar(k, '.', '_'), '$', '_')
  }

  /** Every rewritten key is legal in the store, not only those that had a leading `$`. */
  lemma {:induction false} LemmaRewriteKeyStoreLegal(k: string)
    ensures StoreLegal(RewriteKey(k))
  {
    var r := RewriteKey(k);
    if |r| > 0 {
      assert r[0] != '$';
    }
  }

  /** The rewrite changes a key exactly when the key holds `.` or `$`. */
  lemma {:induction false} LemmaRewriteKeyFixed(k: string)
    ensures RewriteKey(k) == k <==> KeyOk(k)
  {
    if KeyOk(k) {
      assert forall i :: 0 <= i < |k| ==> k[i] != '.' && k[i] != '$';
    }
  }

  /** Rewriting a rewritten key changes nothing. */
  lemma {:induction false} LemmaRewriteKeyIdempotent(k: string)
    ensures RewriteKey(RewriteKey(k)) == RewriteKey(k)
  {
    LemmaRewriteKeyFixed(RewriteKey(k));
  }

  /** The order of the two replacements does not matter. */
  lemma {:induction false} LemmaRewriteKeyOrderIrrelevant(k: string)
    ensures ReplaceChar(ReplaceChar(k, '$', '_'), '.', '_') == RewriteKey(k)
  {
  }

  /** Two keys differing only in `.` versus `$` collide, e.g. "a.b" and "a$b". */
  lemma {:induction false} LemmaRewriteKeyCollision()
    ensures RewriteKey("a.b") == RewriteKey("a$b") == "a_b"
  {
    assert RewriteKey("a.b")[1] == '_';
    assert RewriteKey("a$b")[1] == '_';
  }
}
