/** The string operations the source uses: startswith, endswith and rsplit. */
module Strings {

  predicate StartsWith(s: string, prefix: string) {
    prefix <= s
  }

  predicate EndsWith(s: string, suffix: string) {
    |suffix| <= |s| && s[|s| - |suffix|..] == suffix
  }

  /** `s.rsplit(c, 1)[-1]`: what follows the last `c`, or all of `s`. */
  function AfterLast(s: string, c: char): string {
    if s == [] || s[|s| - 1] == c then [] else AfterLast(s[..|s| - 1], c) + [s[|s| - 1]]
  }

  /** `s.rsplit(c, 1)[0]`: what precedes the last `c`, or all of `s`. */
  function BeforeLast(s: string, c: char): string {
    if s == [] then []
    else if s[|s| - 1] == c then s[..|s| - 1]
    else if c in s then BeforeLast(s[..|s| - 1], c)
    else s
  }

  /** The two halves of the split, put together again. */
  lemma {:induction false} SplitAtLast(s: string, c: char)
    ensures c !in AfterLast(s, c)
    ensures c in s ==> s == BeforeLast(s, c) + [c] + AfterLast(s, c)
    ensures c !in s ==> s == BeforeLast(s, c) == AfterLast(s, c)
  {
    if s != [] && s[|s| - 1] != c {
      var init := s[..|s| - 1];
      SplitAtLast(init, c);
      assert s == init + [s[|s| - 1]];
      assert c in s <==> c in init;
    }
  }

  lemma {:induction false} AfterLastOf(a: string, b: string, c: char)
    requires c !in b
    ensures AfterLast(a + [c] + b, c) == b
  {
    var s := a + [c] + b;
    if b == [] {
      assert s[|s| - 1] == c;
    } else {
      assert s[..|s| - 1] == a + [c] + b[..|b| - 1];
      assert s[|s| - 1] == b[|b| - 1];
      AfterLastOf(a, b[..|b| - 1], c);
    }
  }

  lemma {:induction false} AfterLastAppend(a: string, b: string, c: char)
    requires c !in b
    ensures AfterLast(a + b, c) == AfterLast(a, c) + b
  {
    var s := a + b;
    if b == [] {
      assert s == a;
    } else {
      assert s[..|s| - 1] == a + b[..|b| - 1] && s[|s| - 1] == b[|b| - 1];
      AfterLastAppend(a, b[..|b| - 1], c);
    }
  }

  lemma {:induction false} AfterLastWhole(b: string, c: char)
    requires c !in b
    ensures AfterLast(b, c) == b
  {
    if b != [] {
      AfterLastWhole(b[..|b| - 1], c);
    }
  }

  lemma {:induction false} BeforeLastOf(a: string, b: string, c: char)
    requires c !in b
    ensures BeforeLast(a + [c] + b, c) == a
  {
    var s := a + [c] + b;
    if b == [] {
      assert s[|s| - 1] == c && s[..|s| - 1] == a;
    } else {
      assert s[..|s| - 1] == a + [c] + b[..|b| - 1];
      assert s[|s| - 1] == b[|b| - 1] && s[|a|] == c;
      BeforeLastOf(a, b[..|b| - 1], c);
    }
  }

  lemma SuffixesNest(s: string, a: string, b: string)
    requires EndsWith(s, a) && EndsWith(s, b) && |a| <= |b|
    ensures EndsWith(b, a)
  {
    assert b[|b| - |a|..] == s[|s| - |b|..][|b| - |a|..] == s[|s| - |a|..];
  }

  lemma Associative(a: string, b: string, c: string)
    ensures a + b + c == a + (b + c)
  {}

  lemma EndsWithConcat(s: string, suffix: string)
    ensures EndsWith(s + suffix, suffix)
  {}

  lemma CharFromEnd(s: string, suffix: string, k: nat)
    requires EndsWith(s, suffix) && 0 < k <= |suffix|
    ensures s[|s| - k] == suffix[|suffix| - k]
  {
    assert s[|s| - |suffix|..][|suffix| - k] == s[|s| - k];
  }

  lemma DifferentAt(s: string, a: string, b: string, k: nat)
    requires EndsWith(s, a) && 0 < k <= |a| && k <= |b| && a[|a| - k] != b[|b| - k]
    ensures !EndsWith(s, b)
  {
    CharFromEnd(s, a, k);
    if EndsWith(s, b) {
      CharFromEnd(s, b, k);
    }
  }

  // Tables of (suffix, value) searched for the first suffix that matches.

  function FirstMatch(key: string, table: seq<(string, string)>): (found: int)
    ensures -1 <= found < |table|
    ensures found >= 0 ==> EndsWith(key, table[found].0)
    ensures forall j :: 0 <= j < (if found < 0 then |table| else found) ==> !EndsWith(key, table[j].0)
  {
    if table == [] then -1
    else if EndsWith(key, table[0].0) then 0
    else
      var rest := FirstMatch(key, table[1..]);
      assert forall j :: 1 <= j < |table| ==> table[j] == table[1..][j - 1];
      if rest < 0 then -1 else rest + 1
  }

  /** No suffix stands before a longer one that ends with it. */
  ghost predicate LongestFirst(table: seq<(string, string)>) {
    forall i, j :: 0 <= i < j < |table| ==> !EndsWith(table[j].0, table[i].0) || table[i].0 == table[j].0
  }

  /** In such a table the first match is the longest one. */
  lemma FirstMatchIsLongest(key: string, table: seq<(string, string)>, j: nat)
    requires LongestFirst(table) && j < |table| && EndsWith(key, table[j].0)
    ensures 0 <= FirstMatch(key, table) <= j
    ensures |table[j].0| <= |table[FirstMatch(key, table)].0|
  {
    var i := FirstMatch(key, table);
    if |table[i].0| < |table[j].0| {
      SuffixesNest(key, table[i].0, table[j].0);
    }
  }
}
