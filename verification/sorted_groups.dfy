/** Sorting by a total order, and grouping of sorted keys by a class of each: the
    `sorted` and `setdefault(...).append(...)` of collect_outputs, for any key type. */
module SortedGroups {

  ghost predicate TotalOrder<K(!new)>(leq: (K, K) -> bool) {
    && (forall a, b :: leq(a, b) || leq(b, a))
    && (forall a, b :: leq(a, b) && leq(b, a) ==> a == b)
    && (forall a, b, c :: leq(a, b) && leq(b, c) ==> leq(a, c))
  }

  ghost predicate Sorted<K>(s: seq<K>, leq: (K, K) -> bool) {
    forall i, j :: 0 <= i < j < |s| ==> leq(s[i], s[j])
  }

  function Insert<K>(s: seq<K>, x: K, leq: (K, K) -> bool): seq<K> {
    if s == [] || leq(x, s[0]) then [x] + s else [s[0]] + Insert(s[1..], x, leq)
  }

  function Sort<K>(s: seq<K>, leq: (K, K) -> bool): seq<K> {
    if s == [] then [] else Insert(Sort(s[1..], leq), s[0], leq)
  }

  lemma {:induction false} InsertPermutes<K>(s: seq<K>, x: K, leq: (K, K) -> bool)
    ensures multiset(Insert(s, x, leq)) == multiset(s) + multiset{x}
  {
    if s != [] && !leq(x, s[0]) {
      InsertPermutes(s[1..], x, leq);
      assert s == [s[0]] + s[1..];
    }
  }

  lemma ConsSorted<K(!new)>(first: K, rest: seq<K>, leq: (K, K) -> bool)
    requires Sorted(rest, leq) && forall k | k in rest :: leq(first, k)
    ensures Sorted([first] + rest, leq)
  {}

  /** Inserting adds just the one element. */
  lemma InsertHolds<K(!new)>(s: seq<K>, x: K, k: K, leq: (K, K) -> bool)
    requires k in Insert(s, x, leq)
    ensures k == x || k in s
  {
    InsertPermutes(s, x, leq);
    assert k in multiset(Insert(s, x, leq));
  }

  lemma HeadBelow<K(!new)>(s: seq<K>, k: K, leq: (K, K) -> bool)
    requires s != [] && Sorted(s, leq) && k in s[1..]
    ensures leq(s[0], k)
  {
    var i :| 0 <= i < |s[1..]| && s[1..][i] == k;
    assert s[i + 1] == k;
  }

  lemma {:induction false} InsertSorts<K(!new)>(s: seq<K>, x: K, leq: (K, K) -> bool)
    requires TotalOrder(leq) && Sorted(s, leq)
    ensures Sorted(Insert(s, x, leq), leq)
  {
    if s == [] {
    } else if leq(x, s[0]) {
      forall k | k in s ensures leq(x, k) {
        assert k == s[0] || k in s[1..];
        if k != s[0] { HeadBelow(s, k, leq); }
      }
      ConsSorted(x, s, leq);
    } else {
      var rest := Insert(s[1..], x, leq);
      InsertSorts(s[1..], x, leq);
      forall k | k in rest ensures leq(s[0], k) {
        InsertHolds(s[1..], x, k, leq);
        if k != x { HeadBelow(s, k, leq); }
      }
      ConsSorted(s[0], rest, leq);
    }
  }

  lemma {:induction false} SortSorts<K(!new)>(s: seq<K>, leq: (K, K) -> bool)
    requires TotalOrder(leq)
    ensures Sorted(Sort(s, leq), leq) && multiset(Sort(s, leq)) == multiset(s)
  {
    if s != [] {
      SortSorts(s[1..], leq);
      InsertSorts(Sort(s[1..], leq), s[0], leq);
      InsertPermutes(Sort(s[1..], leq), s[0], leq);
      assert s == [s[0]] + s[1..];
    }
  }

  lemma SameHead<K(!new)>(a: seq<K>, b: seq<K>, leq: (K, K) -> bool)
    requires TotalOrder(leq) && Sorted(a, leq) && Sorted(b, leq) && multiset(a) == multiset(b) && a != [] && b != []
    ensures leq(b[0], a[0])
  {
    assert a[0] in multiset(a) && a[0] in b;
    var i :| 0 <= i < |b| && b[i] == a[0];
    assert leq(b[0], b[i]);
  }

  lemma Tail<K>(a: seq<K>)
    requires a != []
    ensures multiset(a[1..]) == multiset(a) - multiset{a[0]}
  {
    assert a == [a[0]] + a[1..];
  }

  lemma HeadsAgree<K(!new)>(a: seq<K>, b: seq<K>, leq: (K, K) -> bool)
    requires TotalOrder(leq) && Sorted(a, leq) && Sorted(b, leq) && multiset(a) == multiset(b) && a != [] && b != []
    ensures a[0] == b[0] && multiset(a[1..]) == multiset(b[1..])
  {
    SameHead(a, b, leq);
    SameHead(b, a, leq);
    Tail(a);
    Tail(b);
  }

  /** A multiset of keys has one sorted list. */
  lemma {:induction false} SortedUnique<K(!new)>(a: seq<K>, b: seq<K>, leq: (K, K) -> bool)
    requires TotalOrder(leq) && Sorted(a, leq) && Sorted(b, leq) && multiset(a) == multiset(b)
    ensures a == b
    decreases |a|
  {
    assert |a| == |multiset(a)| == |multiset(b)| == |b|;
    if a != [] {
      HeadsAgree(a, b, leq);
      SortedUnique(a[1..], b[1..], leq);
      assert a == [a[0]] + a[1..] && b == [b[0]] + b[1..];
    }
  }

  /** `listed` holds the keys of class `f` among `keys`, sorted, and there are some. */
  ghost predicate Group<K(!new)>(
    listed: seq<K>, f: string, keys: multiset<K>, classOf: K -> string, leq: (K, K) -> bool) {
    && listed != [] && Sorted(listed, leq)
    && (forall k :: multiset(listed)[k] == if classOf(k) == f then keys[k] else 0)
  }

  /** `groups` holds each of `keys` once, under its own class, in sorted lists. */
  ghost predicate Partition<K(!new)>(
    groups: map<string, seq<K>>, keys: multiset<K>, classOf: K -> string, leq: (K, K) -> bool) {
    && (forall f | f in groups :: Group(groups[f], f, keys, classOf, leq))
    && (forall k | k in keys :: classOf(k) in groups)
  }

  /** `groups.setdefault(f, []).append(key)`. */
  function Appended<K>(groups: map<string, seq<K>>, f: string, key: K): map<string, seq<K>> {
    groups[f := (if f in groups then groups[f] else []) + [key]]
  }

  function GroupUp<K>(keys: seq<K>, classOf: K -> string): map<string, seq<K>> {
    if keys == [] then map[]
    else
      var key := keys[|keys| - 1];
      Appended(GroupUp(keys[..|keys| - 1], classOf), classOf(key), key)
  }

  lemma AppendToGroup<K(!new)>(
    listed: seq<K>, f: string, keys: seq<K>, key: K, classOf: K -> string, leq: (K, K) -> bool)
    requires Group(listed, f, multiset(keys), classOf, leq) && classOf(key) == f
    requires forall k | k in keys :: leq(k, key)
    ensures Group(listed + [key], f, multiset(keys + [key]), classOf, leq)
  {
    forall j | 0 <= j < |listed| ensures leq(listed[j], key) {
      assert listed[j] in multiset(listed);
      assert multiset(keys)[listed[j]] > 0;
    }
  }

  lemma OtherGroup<K(!new)>(
    listed: seq<K>, f: string, keys: seq<K>, key: K, classOf: K -> string, leq: (K, K) -> bool)
    requires Group(listed, f, multiset(keys), classOf, leq) && classOf(key) != f
    ensures Group(listed, f, multiset(keys + [key]), classOf, leq)
  {}

  lemma NewGroup<K(!new)>(keys: seq<K>, key: K, classOf: K -> string, leq: (K, K) -> bool)
    requires forall k | k in keys :: classOf(k) != classOf(key)
    ensures Group([key], classOf(key), multiset(keys + [key]), classOf, leq)
  {
    forall k ensures multiset([key])[k] == if classOf(k) == classOf(key) then multiset(keys + [key])[k] else 0 {
      assert classOf(k) == classOf(key) ==> k !in multiset(keys);
    }
  }

  lemma GroupAfter<K(!new)>(
    groups: map<string, seq<K>>, keys: seq<K>, key: K, g: string, classOf: K -> string, leq: (K, K) -> bool)
    requires Partition(groups, multiset(keys), classOf, leq)
    requires forall k | k in keys :: leq(k, key)
    requires g in Appended(groups, classOf(key), key)
    ensures Group(Appended(groups, classOf(key), key)[g], g, multiset(keys + [key]), classOf, leq)
  {
    if g != classOf(key) {
      OtherGroup(groups[g], g, keys, key, classOf, leq);
    } else if g in groups {
      AppendToGroup(groups[g], g, keys, key, classOf, leq);
    } else {
      forall k | k in keys ensures classOf(k) != g {
        assert k in multiset(keys);
      }
      NewGroup(keys, key, classOf, leq);
      assert [] + [key] == [key];
    }
  }

  lemma AppendKeepsPartition<K(!new)>(
    groups: map<string, seq<K>>, keys: seq<K>, key: K, classOf: K -> string, leq: (K, K) -> bool)
    requires Partition(groups, multiset(keys), classOf, leq)
    requires forall k | k in keys :: leq(k, key)
    ensures Partition(Appended(groups, classOf(key), key), multiset(keys + [key]), classOf, leq)
  {
    var groups' := Appended(groups, classOf(key), key);
    forall g | g in groups' {
      GroupAfter(groups, keys, key, g, classOf, leq);
    }
    forall k | k in multiset(keys + [key]) ensures classOf(k) in groups' {
      assert k == key || k in multiset(keys);
    }
  }

  /** Grouping a sorted list key by key partitions it. */
  lemma {:induction false} GroupUpPartitions<K(!new)>(keys: seq<K>, classOf: K -> string, leq: (K, K) -> bool)
    requires Sorted(keys, leq)
    ensures Partition(GroupUp(keys, classOf), multiset(keys), classOf, leq)
    decreases |keys|
  {
    if keys != [] {
      var init, key := keys[..|keys| - 1], keys[|keys| - 1];
      GroupUpPartitions(init, classOf, leq);
      AppendKeepsPartition(GroupUp(init, classOf), init, key, classOf, leq);
      assert init + [key] == keys;
    }
  }

  lemma GroupInhabited<K(!new)>(listed: seq<K>, f: string, keys: multiset<K>, classOf: K -> string, leq: (K, K) -> bool)
    requires Group(listed, f, keys, classOf, leq)
    ensures exists k :: k in keys && classOf(k) == f
  {
    assert listed[0] in multiset(listed);
  }

  /** Which keys there are decides the groups: no other partition of them exists. */
  lemma PartitionUnique<K(!new)>(
    a: map<string, seq<K>>, b: map<string, seq<K>>, keys: multiset<K>, classOf: K -> string, leq: (K, K) -> bool)
    requires TotalOrder(leq) && Partition(a, keys, classOf, leq) && Partition(b, keys, classOf, leq)
    ensures a == b
  {
    forall f | f in a ensures f in b {
      GroupInhabited(a[f], f, keys, classOf, leq);
    }
    forall f | f in b ensures f in a {
      GroupInhabited(b[f], f, keys, classOf, leq);
    }
    forall f | f in a ensures a[f] == b[f] {
      assert Group(a[f], f, keys, classOf, leq) && Group(b[f], f, keys, classOf, leq);
      assert multiset(a[f]) == multiset(b[f]);
      SortedUnique(a[f], b[f], leq);
    }
  }
}
