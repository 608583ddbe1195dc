/** Lists split by a key, as the source does with hash maps of vectors. */
module Grouping {
  import opened Sequences

  type Groups<T> = map<string, seq<T>>

  /** The elements with the key, in their order. */
  function Having<T>(s: seq<T>, key: T -> string, k: string): seq<T> {
    if s == [] then [] else (if key(s[0]) == k then [s[0]] else []) + Having(s[1..], key, k)
  }

  function Group<T>(groups: Groups<T>, k: string): seq<T> {
    if k in groups then groups[k] else []
  }

  ghost predicate IsGrouping<T>(groups: Groups<T>, s: seq<T>, key: T -> string) {
    forall k :: Group(groups, k) == Having(s, key, k)
  }

  lemma {:induction false} HavingConcat<T>(a: seq<T>, b: seq<T>, key: T -> string, k: string)
    ensures Having(a + b, key, k) == Having(a, key, k) + Having(b, key, k)
  {
    if a == [] {
      assert a + b == b;
    } else {
      HavingConcat(a[1..], b, key, k);
      DropConcat(a, b, 1);
      ConcatAssociates(if key(a[0]) == k then [a[0]] else [], Having(a[1..], key, k), Having(b, key, k));
    }
  }

  lemma HavingOne<T>(x: T, key: T -> string, k: string)
    ensures Having([x], key, k) == if key(x) == k then [x] else []
  {
    assert [x][1..] == [];
    assert Having([x], key, k) == (if key(x) == k then [x] else []) + Having([], key, k);
  }

  lemma {:induction false} HavingMembers<T>(s: seq<T>, key: T -> string, k: string)
    ensures forall x :: x in Having(s, key, k) <==> x in s && key(x) == k
  {
    if s != [] {
      HavingMembers(s[1..], key, k);
      assert s == [s[0]] + s[1..];
    }
  }

  /** A group keeps every occurrence of its elements, and has nothing else. */
  lemma {:induction false} HavingOccurrences<T>(s: seq<T>, key: T -> string, k: string, x: T)
    ensures multiset(Having(s, key, k))[x] == if key(x) == k then multiset(s)[x] else 0
  {
    if s != [] {
      HavingOccurrences(s[1..], key, k, x);
      assert s == [s[0]] + s[1..];
    }
  }

  method GroupBy<T>(s: seq<T>, key: T -> string) returns (groups: Groups<T>)
    ensures IsGrouping(groups, s, key)
    ensures forall k :: k in groups <==> exists i :: 0 <= i < |s| && key(s[i]) == k
  {
    groups := map[];
    for i := 0 to |s|
      invariant IsGrouping(groups, s[..i], key)
      invariant forall k :: k in groups <==> exists j :: 0 <= j < i && key(s[j]) == k
    {
      var k := key(s[i]);
      GroupOneMore(groups, s[..i], key, s[i]);
      assert s[..i + 1] == s[..i] + [s[i]];
      groups := if k in groups then groups[k := groups[k] + [s[i]]] else groups[k := [s[i]]];
    }
    assert s[..|s|] == s;
  }

  lemma GroupOneMore<T>(groups: Groups<T>, s: seq<T>, key: T -> string, x: T)
    requires IsGrouping(groups, s, key)
    ensures var k := key(x);
            IsGrouping(if k in groups then groups[k := groups[k] + [x]] else groups[k := [x]], s + [x], key)
  {
    hide Having;
    var k := key(x);
    var groups' := if k in groups then groups[k := groups[k] + [x]] else groups[k := [x]];
    forall q
      ensures Group(groups', q) == Having(s + [x], key, q)
    {
      HavingConcat(s, [x], key, q);
      HavingOne(x, key, q);
      assert Group(groups, q) == Having(s, key, q);
      assert Having(s, key, q) + [] == Having(s, key, q);
    }
  }

  function Without<T>(s: seq<T>, key: T -> string, k: string): seq<T> {
    if s == [] then []
    else if key(s[0]) == k then Without(s[1..], key, k)
    else [s[0]] + Without(s[1..], key, k)
  }

  lemma {:induction false} WithoutSplits<T>(s: seq<T>, key: T -> string, k: string)
    ensures multiset(s) == multiset(Having(s, key, k)) + multiset(Without(s, key, k))
  {
    if s != [] {
      WithoutSplits(s[1..], key, k);
      assert s == [s[0]] + s[1..];
    }
  }

  lemma {:induction false} WithoutAt<T>(s: seq<T>, key: T -> string, k: string, q: string)
    ensures Having(Without(s, key, k), key, q) == if q == k then [] else Having(s, key, q)
  {
    if s != [] {
      WithoutAt(s[1..], key, k, q);
      HavingConcat([s[0]], Without(s[1..], key, k), key, q);
      HavingOne(s[0], key, q);
    }
  }

  lemma DropGroup<T>(groups: Groups<T>, s: seq<T>, key: T -> string, k: string)
    requires IsGrouping(groups, s, key)
    ensures IsGrouping(groups - {k}, Without(s, key, k), key)
  {
    forall q
      ensures Group(groups - {k}, q) == Having(Without(s, key, k), key, q)
    {
      WithoutAt(s, key, k, q);
      assert Group(groups, q) == Having(s, key, q);
    }
  }

  lemma NothingGrouped<T>(groups: Groups<T>, s: seq<T>, key: T -> string)
    requires IsGrouping(groups, s, key) && groups.Keys == {}
    ensures s == []
  {
    if s != [] {
      assert Group(groups, key(s[0])) == Having(s, key, key(s[0]));
    }
  }

  lemma GroupIs<T>(groups: Groups<T>, s: seq<T>, key: T -> string, k: string)
    requires IsGrouping(groups, s, key)
    ensures Group(groups, k) == Having(s, key, k)
  {
  }

  /** Draining the groups gives back all elements, in hash map order. */
  method Flatten<T>(groups: Groups<T>, ghost s: seq<T>, ghost key: T -> string) returns (rest: seq<T>)
    requires IsGrouping(groups, s, key)
    ensures multiset(rest) == multiset(s)
  {
    hide IsGrouping, Without, Having;
    rest := [];
    var left := groups;
    ghost var pending := s;
    while left.Keys != {}
      invariant IsGrouping(left, pending, key) && multiset(rest) + multiset(pending) == multiset(s)
      decreases left.Keys
    {
      var k :| k in left.Keys;
      DropGroup(left, pending, key, k);
      GroupIs(left, pending, key, k);
      WithoutSplits(pending, key, k);
      rest, left, pending := rest + left[k], left - {k}, Without(pending, key, k);
    }
    NothingGrouped(left, pending, key);
  }
}
