/** Names derived from a document's coordinates: its workflow id and its output prefix
    (src/orchestration/models.py, src/orchestration/docling_client.py). */
module Naming {
  import opened Strings

  function WorkflowId(bucket: string, key: string): string {
    "convert:" + bucket + "/" + key
  }

  function ConvertOutputPrefix(outputPrefix: string, bucket: string, key: string): string {
    outputPrefix + bucket + "/" + key + "/convert/"
  }

  /** Up to the first slash, two strings that continue each other agree. */
  lemma FirstSlash(a: string, a': string, x: string, y: string)
    requires '/' !in a && '/' !in a'
    requires a + "/" + x <= a' + "/" + y
    ensures a == a' && x <= y
  {
    var s, s' := a + "/" + x, a' + "/" + y;
    assert forall i :: 0 <= i < |s| ==> s[i] == s'[i];
    assert s[|a|] == '/' && s'[|a'|] == '/';
    assert |a| == |a'|;
    assert a == s[..|a|] && a' == s'[..|a|];
    assert x == s[|a| + 1..] && y == s'[|a| + 1..];
    assert s == s'[..|s|];
  }

  /** Workflow ids tell documents apart: they are equal exactly for the same bucket and
      key, bucket names being free of slashes. */
  lemma WorkflowIdInjective(b: string, k: string, b': string, k': string)
    requires '/' !in b && '/' !in b'
    ensures WorkflowId(b, k) == WorkflowId(b', k') <==> b == b' && k == k'
  {
    if WorkflowId(b, k) == WorkflowId(b', k') {
      var n := |"convert:"|;
      assert WorkflowId(b, k)[n..] == b + "/" + k && WorkflowId(b', k')[n..] == b' + "/" + k';
      FirstSlash(b, b', k, k');
      FirstSlash(b', b, k', k);
    }
  }

  /** With slashes in bucket names the ids would collide. */
  lemma WorkflowIdsCollideOnSlashes()
    ensures WorkflowId("a/b", "c") == WorkflowId("a", "b/c") == "convert:a/b/c"
  {
    assert "a/b" + "/" + "c" == "a" + "/" + "b/c";
  }

  lemma ConvertOverlap(k: string, k': string)
    requires k + "/convert/" <= k' + "/convert/"
    ensures k == k' || k + "/convert/" <= k' + "/"
  {
    var s, s', d := k + "/convert/", k' + "/convert/", |k'| - |k|;
    assert forall i :: 0 <= i < |s| ==> s[i] == s'[i];
    if d == 0 {
      assert s[..|k|] == s'[..|k|];
    } else {
      // "/convert/" overlaps itself in its last slash at most.
      assert forall e :: 0 < e < 8 ==> s[|k| + e] == "/convert/"[e] != '/';
      assert s'[|k| + d] == '/';
      assert s' == k' + "/" + "convert/";
      assert s'[..|k'| + 1] == k' + "/";
      assert s == s'[..|k'| + 1][..|s|];
    }
  }

  /** The exact overlap of output prefixes: one document's prefix starts another's just
      when they are the same document, or the other's key, closed by a slash, lies under
      "<key>/convert/" in the same bucket. */
  lemma PrefixOverlap(op: string, b: string, k: string, b': string, k': string)
    requires '/' !in b && '/' !in b'
    ensures StartsWith(ConvertOutputPrefix(op, b', k'), ConvertOutputPrefix(op, b, k)) <==>
            b == b' && (k == k' || StartsWith(k' + "/", k + "/convert/"))
  {
    var p, p' := ConvertOutputPrefix(op, b, k), ConvertOutputPrefix(op, b', k');
    assert p[|op|..] == b + "/" + (k + "/convert/") && p'[|op|..] == b' + "/" + (k' + "/convert/");
    if StartsWith(p', p) {
      assert p[|op|..] <= p'[|op|..];
      FirstSlash(b, b', k + "/convert/", k' + "/convert/");
      ConvertOverlap(k, k');
    }
    if b == b' && StartsWith(k' + "/", k + "/convert/") {
      assert k' + "/" <= k' + "/convert/" by {
        assert k' + "/convert/" == k' + "/" + "convert/";
      }
      assert p == op + b + "/" + (k + "/convert/") && p' == op + b + "/" + (k' + "/convert/");
    }
  }

  /** The documents of two listings overlap. */
  predicate Overlapping(b: string, k: string, b': string, k': string) {
    b == b' && (k == k' || StartsWith(k' + "/", k + "/convert/") || StartsWith(k + "/", k' + "/convert/"))
  }

  /** Listings of all other pairs of documents are disjoint, and those of overlapping
      pairs are not: some key is listed for both. */
  lemma ListingsDisjoint(op: string, b: string, k: string, b': string, k': string)
    requires '/' !in b && '/' !in b'
    ensures Overlapping(b, k, b', k') <==>
            exists x :: StartsWith(x, ConvertOutputPrefix(op, b, k)) && StartsWith(x, ConvertOutputPrefix(op, b', k'))
  {
    var p, p' := ConvertOutputPrefix(op, b, k), ConvertOutputPrefix(op, b', k');
    PrefixOverlap(op, b, k, b', k');
    PrefixOverlap(op, b', k', b, k);
    if x :| StartsWith(x, p) && StartsWith(x, p') {
      assert p == x[..|p|] && p' == x[..|p'|];
      assert if |p| <= |p'| then p == p'[..|p|] else p' == p[..|p'|];
    }
    if StartsWith(p', p) {
      assert StartsWith(p', p) && StartsWith(p', p');
    } else if StartsWith(p, p') {
      assert StartsWith(p, p) && StartsWith(p, p');
    }
  }

  /** The corner is real: a document stored under another's "convert" directory. */
  lemma OverlapExists(op: string)
    ensures StartsWith(ConvertOutputPrefix(op, "b", "a/convert/c"), ConvertOutputPrefix(op, "b", "a"))
    ensures ConvertOutputPrefix(op, "b", "a/convert/c") == op + "b/a/convert/c/convert/"
  {
    PrefixOverlap(op, "b", "a", "b", "a/convert/c");
    assert "a/convert/c" + "/" == "a" + "/convert/" + "c/";
  }
}
