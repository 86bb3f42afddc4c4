/** collect_outputs (src/orchestration/activities.py): the listed keys of one document,
    grouped by format. */
module Outputs {
  import opened SortedGroups
  import opened Strings

  const SUFFIX_TO_FORMAT: seq<(string, string)> := [
    (".doctags.txt", "doctags"),
    (".chunks.jsonl", "chunks"),
    (".json", "json"),
    (".md", "md"),
    (".html", "html"),
    (".dclg", "doclang"),
    (".txt", "text")
  ]

  function FormatOf(key: string): string {
    var i := FirstMatch(key, SUFFIX_TO_FORMAT);
    if i >= 0 then SUFFIX_TO_FORMAT[i].1
    else if '.' in AfterLast(key, '/') then AfterLast(key, '.')
    else "unknown"
  }

  lemma FormatTableLongestFirst()
    ensures LongestFirst(SUFFIX_TO_FORMAT)
  {
    forall i, j | 0 <= i < j < |SUFFIX_TO_FORMAT| && EndsWith(SUFFIX_TO_FORMAT[j].0, SUFFIX_TO_FORMAT[i].0)
      ensures SUFFIX_TO_FORMAT[i].0 == SUFFIX_TO_FORMAT[j].0
    {
      CharFromEnd(SUFFIX_TO_FORMAT[j].0, SUFFIX_TO_FORMAT[i].0, 1);
    }
  }

  /** format_of picks the longest table suffix that the key ends with. */
  lemma FormatIsLongestSuffix(key: string, j: nat)
    requires j < |SUFFIX_TO_FORMAT| && EndsWith(key, SUFFIX_TO_FORMAT[j].0)
    ensures exists i :: 0 <= i <= j && EndsWith(key, SUFFIX_TO_FORMAT[i].0) &&
              |SUFFIX_TO_FORMAT[j].0| <= |SUFFIX_TO_FORMAT[i].0| && FormatOf(key) == SUFFIX_TO_FORMAT[i].1
  {
    FormatTableLongestFirst();
    FirstMatchIsLongest(key, SUFFIX_TO_FORMAT, j);
  }

  lemma DotEnding(key: string)
    requires '.' in key
    ensures EndsWith(key, ['.'] + AfterLast(key, '.'))
  {
    SplitAtLast(key, '.');
    Associative(BeforeLast(key, '.'), ['.'], AfterLast(key, '.'));
    EndsWithConcat(BeforeLast(key, '.'), ['.'] + AfterLast(key, '.'));
  }

  /** The fallback files a key under `f` exactly when the key ends in "." + f. */
  lemma FallbackIs(key: string, f: string)
    requires '/' !in f && '.' !in f
    ensures '.' in AfterLast(key, '/') && AfterLast(key, '.') == f <==> EndsWith(key, ['.'] + f)
  {
    if '.' in AfterLast(key, '/') && AfterLast(key, '.') == f {
      SplitAtLast(key, '/');
      DotEnding(key);
    }
    if EndsWith(key, ['.'] + f) {
      var stem := key[..|key| - |f| - 1];
      assert key == stem + ['.'] + f;
      AfterLastOf(stem, f, '.');
      var ending := ['.'] + f;
      assert key == stem + ending;
      AfterLastAppend(stem, ending, '/');
      assert ending[0] == '.' && ending[0] in AfterLast(stem, '/') + ending;
    }
  }

  /** The key has the suffix of the table's entry `j`. */
  predicate Ends(key: string, j: nat)
    requires j < |SUFFIX_TO_FORMAT|
  {
    EndsWith(key, SUFFIX_TO_FORMAT[j].0)
  }

  /** Two suffixes of the table that one key can end with: ".doctags.txt" and ".txt". */
  lemma SuffixesExclude(key: string, i: nat, j: nat)
    requires i < j < |SUFFIX_TO_FORMAT| && !(i == 0 && j == 6)
    ensures !(Ends(key, i) && Ends(key, j))
  {
    var a, b := SUFFIX_TO_FORMAT[i].0, SUFFIX_TO_FORMAT[j].0;
    if Ends(key, i) && Ends(key, j) {
      DifferentAt(key, a, b, if i == 1 && j == 4 then 2 else 1);
    }
  }

  lemma FirstMatchIs(key: string, j: nat)
    requires j < |SUFFIX_TO_FORMAT|
    ensures FirstMatch(key, SUFFIX_TO_FORMAT) == j <==> Ends(key, j) && (j == 6 ==> !Ends(key, 0))
  {
    var i := FirstMatch(key, SUFFIX_TO_FORMAT);
    if Ends(key, j) && i != j && !(i == 0 && j == 6) {
      SuffixesExclude(key, i, j);
    }
  }

  /** The ending that the fallback files under the format of entry `j`. */
  function Ending(j: nat): string
    requires j < |SUFFIX_TO_FORMAT|
  {
    ['.'] + SUFFIX_TO_FORMAT[j].1
  }

  /** json, md and html are spelled by their own suffixes. */
  predicate IsExact(j: nat) {
    2 <= j <= 4
  }

  lemma ExactSuffix(j: nat)
    requires j < |SUFFIX_TO_FORMAT|
    ensures IsExact(j) <==> SUFFIX_TO_FORMAT[j].0 == Ending(j)
  {
    var suffix := SUFFIX_TO_FORMAT[j].0;
    if j == 0 || j == 1 {
      assert |suffix| != |Ending(j)|;
    } else if j == 5 {
      assert |suffix| == 5 && |Ending(j)| == 8;
    } else if j == 6 {
      assert |suffix| == 4 && |Ending(j)| == 5;
    } else {
      assert suffix[1..] == SUFFIX_TO_FORMAT[j].1;
    }
  }

  /** Counted from the end, where the ending of entry `j` differs from the suffix of `i`. */
  function Apart(i: nat, j: nat): nat {
    if i == j == 5 then 2 else if j == 6 && (i == 0 || i == 6) then 3 else 1
  }

  lemma EndingDiffers(i: nat, j: nat)
    requires i < |SUFFIX_TO_FORMAT| && j < |SUFFIX_TO_FORMAT| && !IsExact(j)
    ensures var suffix, ending, k := SUFFIX_TO_FORMAT[i].0, Ending(j), Apart(i, j);
            k <= |ending| && k <= |suffix| && ending[|ending| - k] != suffix[|suffix| - k]
  {}

  lemma NotBoth(key: string, i: nat, j: nat)
    requires i < |SUFFIX_TO_FORMAT| && j < |SUFFIX_TO_FORMAT| && !IsExact(j) && EndsWith(key, Ending(j))
    ensures !Ends(key, i)
  {
    EndingDiffers(i, j);
    DifferentAt(key, Ending(j), SUFFIX_TO_FORMAT[i].0, Apart(i, j));
  }

  /** No suffix of the table hides a fallback ending. */
  lemma Unhidden(key: string, j: nat)
    requires j < |SUFFIX_TO_FORMAT| && !IsExact(j) && EndsWith(key, Ending(j))
    ensures FirstMatch(key, SUFFIX_TO_FORMAT) == -1
  {
    var i := FirstMatch(key, SUFFIX_TO_FORMAT);
    if i >= 0 {
      NotBoth(key, i, j);
    }
  }

  lemma FormatsDiffer(i: nat, j: nat)
    requires i < |SUFFIX_TO_FORMAT| && j < |SUFFIX_TO_FORMAT| && i != j
    ensures SUFFIX_TO_FORMAT[i].1 != SUFFIX_TO_FORMAT[j].1
  {
    var names := ["doctags", "chunks", "json", "md", "html", "doclang", "text"];
    assert forall k | 0 <= k < 7 :: SUFFIX_TO_FORMAT[k].1 == names[k];
    assert names[0][3] == 't' && names[5][3] == 'l';
  }

  lemma PlainNames(j: nat)
    requires j < |SUFFIX_TO_FORMAT|
    ensures '/' !in SUFFIX_TO_FORMAT[j].1 && '.' !in SUFFIX_TO_FORMAT[j].1
  {}

  /** Every class of the table, exactly: the keys with its suffix (for ".txt", those that
      do not end in ".doctags.txt"), and the keys that end in the format's name. */
  lemma FormatClasses(key: string, j: nat)
    requires j < |SUFFIX_TO_FORMAT|
    ensures FormatOf(key) == SUFFIX_TO_FORMAT[j].1 <==>
            (Ends(key, j) && (j == 6 ==> !Ends(key, 0))) || EndsWith(key, Ending(j))
  {
    var i := FirstMatch(key, SUFFIX_TO_FORMAT);
    PlainNames(j);
    FallbackIs(key, SUFFIX_TO_FORMAT[j].1);
    FirstMatchIs(key, j);
    ExactSuffix(j);
    if 0 <= i && i != j {
      FormatsDiffer(i, j);
    }
    if EndsWith(key, Ending(j)) && !IsExact(j) {
      Unhidden(key, j);
    }
  }

  /** json, md and html hold just the keys with their suffix. */
  lemma ExactClasses(key: string, j: nat)
    requires IsExact(j)
    ensures FormatOf(key) == SUFFIX_TO_FORMAT[j].1 <==> Ends(key, j)
  {
    FormatClasses(key, j);
    ExactSuffix(j);
  }

  /** Into each other class the fallback puts names that have no suffix of the table. */
  lemma AliasedClasses(stem: string, j: nat)
    requires j < |SUFFIX_TO_FORMAT| && !IsExact(j)
    ensures FormatOf(stem + Ending(j)) == SUFFIX_TO_FORMAT[j].1
    ensures forall i: nat | i < |SUFFIX_TO_FORMAT| :: !Ends(stem + Ending(j), i)
  {
    EndsWithConcat(stem, Ending(j));
    FormatClasses(stem + Ending(j), j);
    Unhidden(stem + Ending(j), j);
  }

  // Python's order on strings.

  predicate Leq(a: string, b: string) {
    a == [] || (b != [] && (a[0] < b[0] || (a[0] == b[0] && Leq(a[1..], b[1..]))))
  }

  lemma {:induction false} LeqTotal(a: string, b: string)
    ensures Leq(a, b) || Leq(b, a)
  {
    if a != [] && b != [] {
      LeqTotal(a[1..], b[1..]);
    }
  }

  lemma {:induction false} LeqAntisymmetric(a: string, b: string)
    requires Leq(a, b) && Leq(b, a)
    ensures a == b
  {
    if a != [] {
      LeqAntisymmetric(a[1..], b[1..]);
      assert a == [a[0]] + a[1..] && b == [b[0]] + b[1..];
    }
  }

  lemma {:induction false} LeqTransitive(a: string, b: string, c: string)
    requires Leq(a, b) && Leq(b, c)
    ensures Leq(a, c)
  {
    if a != [] && a[0] == b[0] == c[0] {
      LeqTransitive(a[1..], b[1..], c[1..]);
    }
  }

  lemma LeqIsTotalOrder()
    ensures TotalOrder(Leq)
  {
    forall a, b ensures Leq(a, b) || Leq(b, a) {
      LeqTotal(a, b);
    }
    forall a, b | Leq(a, b) && Leq(b, a) ensures a == b {
      LeqAntisymmetric(a, b);
    }
    forall a, b, c | Leq(a, b) && Leq(b, c) ensures Leq(a, c) {
      LeqTransitive(a, b, c);
    }
  }

  function Flatten(pages: seq<seq<string>>): seq<string> {
    if pages == [] then [] else Flatten(pages[..|pages| - 1]) + pages[|pages| - 1]
  }

  /** How often a key occurs over all the pages. */
  function Occurrences(pages: seq<seq<string>>, k: string): nat {
    if pages == [] then 0 else multiset(pages[0])[k] + Occurrences(pages[1..], k)
  }

  lemma {:induction false} OccurrencesConcat(a: seq<seq<string>>, b: seq<seq<string>>, k: string)
    ensures Occurrences(a + b, k) == Occurrences(a, k) + Occurrences(b, k)
    decreases |a|
  {
    if a == [] {
      assert a + b == b;
    } else {
      assert (a + b)[1..] == a[1..] + b;
      OccurrencesConcat(a[1..], b, k);
    }
  }

  lemma OccurrencesOfPage(page: seq<string>, k: string)
    ensures Occurrences([page], k) == multiset(page)[k]
  {
    assert [page][1..] == [];
  }

  /** The listing has every key of every page, as often as it occurs. */
  lemma {:induction false} FlattenHolds(pages: seq<seq<string>>, k: string)
    ensures multiset(Flatten(pages))[k] == Occurrences(pages, k)
    decreases |pages|
  {
    if pages != [] {
      var init, last := pages[..|pages| - 1], pages[|pages| - 1];
      assert pages == init + [last];
      FlattenHolds(init, k);
      OccurrencesConcat(init, [last], k);
      OccurrencesOfPage(last, k);
    }
  }

  lemma {:induction false} OccursOnPage(pages: seq<seq<string>>, k: string)
    ensures Occurrences(pages, k) > 0 <==> exists page :: page in pages && k in page
  {
    if pages != [] {
      OccursOnPage(pages[1..], k);
      assert pages == [pages[0]] + pages[1..];
      if k in pages[0] {
        assert pages[0] in pages;
      }
    }
  }

  /** How often a key is among the outputs, under its own format. */
  function InOutputs(outputs: map<string, seq<string>>, k: string): nat {
    if FormatOf(k) in outputs then multiset(outputs[FormatOf(k)])[k] else 0
  }

  /** `outputs` holds each of `keys` once, under its own format, in sorted lists none of
      which is empty. */
  ghost predicate ByFormat(outputs: map<string, seq<string>>, keys: multiset<string>) {
    Partition(outputs, keys, FormatOf, Leq)
  }

  /** The listing: every page's keys, in order. */
  method ListKeys(pages: seq<seq<string>>) returns (keys: seq<string>)
    ensures keys == Flatten(pages)
  {
    keys := [];
    for i := 0 to |pages|
      invariant keys == Flatten(pages[..i])
    {
      assert pages[..i + 1][..i] == pages[..i];
      keys := keys + pages[i];
    }
    assert pages[..|pages|] == pages;
  }

  /** collect_outputs, given the pages S3 lists. */
  method CollectOutputs(pages: seq<seq<string>>) returns (outputs: map<string, seq<string>>)
    ensures ByFormat(outputs, multiset(Flatten(pages)))
    ensures forall f | f in outputs :: outputs[f] != []
    ensures forall f, k | f in outputs && k in outputs[f] :: FormatOf(k) == f
    ensures forall f, i, j | f in outputs && 0 <= i < j < |outputs[f]| :: Leq(outputs[f][i], outputs[f][j])
    ensures forall k :: InOutputs(outputs, k) == Occurrences(pages, k)
  {
    var keys := ListKeys(pages);
    var ordered := Sort(keys, Leq);
    outputs := map[];
    for i := 0 to |ordered|
      invariant outputs == GroupUp(ordered[..i], FormatOf)
    {
      assert ordered[..i + 1][..i] == ordered[..i];
      outputs := Appended(outputs, FormatOf(ordered[i]), ordered[i]);
    }
    assert ordered[..|ordered|] == ordered;
    LeqIsTotalOrder();
    SortSorts(keys, Leq);
    GroupUpPartitions(ordered, FormatOf, Leq);
    CollectedAsListed(pages, outputs);
  }

  /** The result does not depend on paging: two listings of the same keys, however
      ordered and split into pages, are grouped alike. */
  lemma PagingDoesNotMatter(
    pages: seq<seq<string>>, pages': seq<seq<string>>, outputs: map<string, seq<string>>,
    outputs': map<string, seq<string>>)
    requires multiset(Flatten(pages)) == multiset(Flatten(pages'))
    requires ByFormat(outputs, multiset(Flatten(pages))) && ByFormat(outputs', multiset(Flatten(pages')))
    ensures outputs == outputs'
  {
    LeqIsTotalOrder();
    PartitionUnique(outputs, outputs', multiset(Flatten(pages)), FormatOf, Leq);
  }

  lemma CollectedAsListed(pages: seq<seq<string>>, outputs: map<string, seq<string>>)
    requires ByFormat(outputs, multiset(Flatten(pages)))
    ensures forall f | f in outputs :: outputs[f] != []
    ensures forall f, k | f in outputs && k in outputs[f] :: FormatOf(k) == f
    ensures forall f, i, j | f in outputs && 0 <= i < j < |outputs[f]| :: Leq(outputs[f][i], outputs[f][j])
    ensures forall k :: InOutputs(outputs, k) == Occurrences(pages, k)
  {
    var keys := multiset(Flatten(pages));
    forall f | f in outputs
      ensures outputs[f] != [] && Sorted(outputs[f], Leq)
      ensures forall k | k in outputs[f] :: FormatOf(k) == f
    {
      assert Group(outputs[f], f, keys, FormatOf, Leq);
      forall k | k in outputs[f] ensures FormatOf(k) == f {
        assert multiset(outputs[f])[k] > 0;
      }
    }
    forall k ensures InOutputs(outputs, k) == Occurrences(pages, k) {
      FlattenHolds(pages, k);
      if FormatOf(k) in outputs {
        assert Group(outputs[FormatOf(k)], FormatOf(k), keys, FormatOf, Leq);
      } else {
        assert k !in keys;
      }
    }
  }

  /** Where a listing is cut into pages does not matter: with two pages joined into one, the
      outputs are the same. */
  lemma JoinedPages(
    before: seq<seq<string>>, a: seq<string>, b: seq<string>, after: seq<seq<string>>,
    outputs: map<string, seq<string>>, outputs': map<string, seq<string>>)
    requires ByFormat(outputs, multiset(Flatten(before + [a] + [b] + after)))
    requires ByFormat(outputs', multiset(Flatten(before + [a + b] + after)))
    ensures outputs == outputs'
  {
    var cut, joined := before + [a] + [b] + after, before + [a + b] + after;
    forall k ensures multiset(Flatten(cut))[k] == multiset(Flatten(joined))[k] {
      FlattenHolds(cut, k);
      FlattenHolds(joined, k);
      OccurrencesConcat(before + [a] + [b], after, k);
      OccurrencesConcat(before + [a], [b], k);
      OccurrencesConcat(before, [a], k);
      OccurrencesConcat(before + [a + b], after, k);
      OccurrencesConcat(before, [a + b], k);
      OccurrencesOfPage(a, k);
      OccurrencesOfPage(b, k);
      OccurrencesOfPage(a + b, k);
    }
    assert multiset(Flatten(cut)) == multiset(Flatten(joined));
    PagingDoesNotMatter(cut, joined, outputs, outputs');
  }

  /** The order is that of code points: the first difference decides, or the end. */
  lemma {:induction false} LeqDecides(a: string, b: string, n: nat)
    requires n <= |a| && n <= |b| && a[..n] == b[..n]
    ensures n == |a| ==> Leq(a, b)
    ensures n < |a| && n == |b| ==> !Leq(a, b)
    ensures n < |a| && n < |b| && a[n] < b[n] ==> Leq(a, b) && !Leq(b, a)
  {
    if n > 0 {
      assert a[0] == a[..n][0] == b[0];
      assert a[1..][..n - 1] == a[..n][1..] && b[1..][..n - 1] == b[..n][1..];
      LeqDecides(a[1..], b[1..], n - 1);
    }
  }

  /** The classes by name: the whole table, and the keys outside it. */
  lemma FormatNames(key: string)
    ensures FormatOf(key) == "json" <==> EndsWith(key, ".json")
    ensures FormatOf(key) == "md" <==> EndsWith(key, ".md")
    ensures FormatOf(key) == "html" <==> EndsWith(key, ".html")
    ensures FormatOf(key) == "doctags" <==> EndsWith(key, ".doctags.txt") || EndsWith(key, ".doctags")
    ensures FormatOf(key) == "chunks" <==> EndsWith(key, ".chunks.jsonl") || EndsWith(key, ".chunks")
  {
    FormatClasses(key, 0);
    FormatClasses(key, 1);
    FormatClasses(key, 2);
    FormatClasses(key, 3);
    FormatClasses(key, 4);
    NamedEndings();
  }

  lemma TextNames(key: string)
    ensures FormatOf(key) == "doclang" <==> EndsWith(key, ".dclg") || EndsWith(key, ".doclang")
    ensures FormatOf(key) == "text" <==>
            (EndsWith(key, ".txt") && !EndsWith(key, ".doctags.txt")) || EndsWith(key, ".text")
  {
    FormatClasses(key, 5);
    FormatClasses(key, 6);
    NamedEndings();
  }

  lemma NamedEndings()
    ensures Ending(0) == ".doctags" && Ending(1) == ".chunks" && Ending(2) == ".json" && Ending(3) == ".md"
    ensures Ending(4) == ".html" && Ending(5) == ".doclang" && Ending(6) == ".text"
  {}

  lemma Collected(pages: seq<seq<string>>, outputs: map<string, seq<string>>, f: string, k: string)
    requires ByFormat(outputs, multiset(Flatten(pages)))
    ensures f in outputs && k in outputs[f] <==> FormatOf(k) == f && exists page :: page in pages && k in page
  {
    CollectedAsListed(pages, outputs);
    OccursOnPage(pages, k);
    assert InOutputs(outputs, k) == Occurrences(pages, k);
  }

  /** json is among the outputs exactly if some page lists a ".json" key. */
  lemma JsonCollected(pages: seq<seq<string>>, outputs: map<string, seq<string>>)
    requires ByFormat(outputs, multiset(Flatten(pages)))
    ensures "json" in outputs <==> exists page, k :: page in pages && k in page && EndsWith(k, ".json")
  {
    if "json" in outputs {
      CollectedAsListed(pages, outputs);
      var k := outputs["json"][0];
      Collected(pages, outputs, "json", k);
      FormatNames(k);
    }
    if page, k :| page in pages && k in page && EndsWith(k, ".json") {
      FormatNames(k);
      Collected(pages, outputs, "json", k);
    }
  }

  lemma PlainKeysAreUnknown(dir: string, leaf: string)
    requires '.' !in leaf && '/' !in leaf
    ensures FormatOf(dir + "/" + leaf) == "unknown"
  {
    var key := dir + "/" + leaf;
    AfterLastOf(dir, leaf, '/');
    assert key == dir + ['/'] + leaf;
    var i := FirstMatch(key, SUFFIX_TO_FORMAT);
    if i >= 0 {
      EndingInLeaf(dir, leaf, i);
    }
  }

  lemma EndingInLeaf(dir: string, leaf: string, i: nat)
    requires i < |SUFFIX_TO_FORMAT| && '.' !in leaf
    ensures !Ends(dir + "/" + leaf, i)
  {
    var key, suffix := dir + "/" + leaf, SUFFIX_TO_FORMAT[i].0;
    var k: nat := if |suffix| <= |leaf| then |suffix| else |leaf| + 1;
    assert key[|key| - k] == if k <= |leaf| then leaf[|leaf| - k] else '/';
    assert suffix[0] == '.' && '/' !in suffix;
    if Ends(key, i) {
      CharFromEnd(key, suffix, k);
    }
  }
}
