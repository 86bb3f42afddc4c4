/** Python's `dict.fromkeys`: the distinct elements of a sequence, in the order of
    their first occurrence. */
module OrderedKeys {

  ghost predicate Distinct<T(!new)>(s: seq<T>) {
    forall i, j :: 0 <= i < j < |s| ==> s[i] != s[j]
  }

  function FromKeys<T(==)>(s: seq<T>): (keys: seq<T>) {
    if s == [] then []
    else
      var keys := FromKeys(s[..|s| - 1]);
      if s[|s| - 1] in keys then keys else keys + [s[|s| - 1]]
  }

  /** Every element is kept, once. */
  lemma {:induction false} FromKeysKeepsAll<T(!new)>(s: seq<T>)
    ensures Distinct(FromKeys(s))
    ensures forall x :: x in FromKeys(s) <==> x in s
  {
    if s != [] {
      FromKeysKeepsAll(s[..|s| - 1]);
      assert s == s[..|s| - 1] + [s[|s| - 1]];
    }
  }

  /** `s` without `x`. */
  function Without<T(==)>(s: seq<T>, x: T): seq<T> {
    if s == [] then [] else Without(s[..|s| - 1], x) + (if s[|s| - 1] == x then [] else [s[|s| - 1]])
  }

  lemma WithoutNext<T>(s: seq<T>, last: T, x: T)
    ensures Without(s + [last], x) == Without(s, x) + (if last == x then [] else [last])
  {
    assert (s + [last])[..|s|] == s;
  }

  lemma FromKeysNext<T(!new)>(s: seq<T>, last: T)
    ensures FromKeys(s + [last]) == if last in s then FromKeys(s) else FromKeys(s) + [last]
  {
    assert (s + [last])[..|s|] == s;
    FromKeysKeepsAll(s);
  }

  lemma Append<T>(x: T, w: seq<T>, last: T)
    ensures [x] + w + [last] == [x] + (w + [last])
  {}

  lemma LastApart<T>(x: T, s: seq<T>)
    requires s != []
    ensures s == s[..|s| - 1] + [s[|s| - 1]]
    ensures [x] + s == [x] + s[..|s| - 1] + [s[|s| - 1]]
  {}

  lemma PutFirstNext<T(!new)>(x: T, init: seq<T>, last: T, first: seq<T>, w: seq<T>)
    requires last in first <==> last == x || last in init
    requires w == Without(FromKeys(init), x) && FromKeys(first) == [x] + w
    ensures FromKeys(first + [last]) == [x] + Without(FromKeys(init + [last]), x)
  {
    var keys := FromKeys(init);
    FromKeysNext(init, last);
    FromKeysNext(first, last);
    if last !in init {
      WithoutNext(keys, last, x);
      Append(x, w, last);
    }
  }

  /** A key put first moves to the front; the others keep their order. */
  lemma {:induction false} FromKeysPutFirst<T(!new)>(x: T, s: seq<T>)
    ensures FromKeys([x] + s) == [x] + Without(FromKeys(s), x)
    decreases |s|
  {
    if s == [] {
      assert [x] + s == [x] && [x][..0] == [];
    } else {
      var init, last := s[..|s| - 1], s[|s| - 1];
      var first := [x] + init;
      FromKeysPutFirst(x, init);
      PutFirstNext(x, init, last, first, Without(FromKeys(init), x));
      LastApart(x, s);
    }
  }

  /** The order is that of first occurrence: the keys of a prefix come first. */
  lemma {:induction false} FromKeysOrder<T>(s: seq<T>, n: nat)
    requires n <= |s|
    ensures FromKeys(s[..n]) <= FromKeys(s)
  {
    if n == |s| {
      assert s[..n] == s;
    } else {
      FromKeysOrder(s[..|s| - 1], n);
      assert s[..|s| - 1][..n] == s[..n];
    }
  }
}
