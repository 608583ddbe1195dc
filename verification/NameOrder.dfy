/** Names in their order, and what sorting a set of them gives. */
module NameOrder {
  type Name = string

  /** Lexicographic order of names. */
  predicate NameAtMost(a: Name, b: Name) {
    a == [] || (b != [] && (a[0] < b[0] || (a[0] == b[0] && NameAtMost(a[1..], b[1..]))))
  }

  lemma {:induction false} NameOrderTotal(a: Name, b: Name)
    ensures NameAtMost(a, b) || NameAtMost(b, a)
  {
    if a != [] && b != [] {
      NameOrderTotal(a[1..], b[1..]);
    }
  }

  /** The order of strings: a prefix comes first, otherwise the first difference decides. */
  lemma {:induction false} NameOrderIff(a: Name, b: Name)
    ensures NameAtMost(a, b) <==>
            a <= b || exists k :: 0 <= k < |a| && k < |b| && a[..k] == b[..k] && a[k] < b[k]
  {
    if a != [] && b != [] {
      NameOrderIff(a[1..], b[1..]);
      if a[0] == b[0] {
        if k :| 0 <= k < |a| - 1 && k < |b| - 1 && a[1..][..k] == b[1..][..k] && a[1..][k] < b[1..][k] {
          assert a[..k + 1] == [a[0]] + a[1..][..k] && b[..k + 1] == [b[0]] + b[1..][..k];
        }
        if k :| 0 <= k < |a| && k < |b| && a[..k] == b[..k] && a[k] < b[k] {
          assert a[1..][..k - 1] == a[..k][1..] && b[1..][..k - 1] == b[..k][1..];
          assert a[1..][k - 1] < b[1..][k - 1];
        }
        assert a == [a[0]] + a[1..] && b == [b[0]] + b[1..];
      } else if a[0] < b[0] {
        assert a[..0] == b[..0];
      } else if k :| 0 <= k < |a| && k < |b| && a[..k] == b[..k] && a[k] < b[k] {
        assert k > 0 && a[..k][0] == b[..k][0];
      }
    }
  }

  predicate SortedNames(s: seq<Name>) {
    forall i :: 0 <= i < |s| - 1 ==> NameAtMost(s[i], s[i + 1])
  }

  method SortNames(names: seq<Name>) returns (r: seq<Name>)
    ensures multiset(r) == multiset(names) && SortedNames(r)
  {
    hide SortedNames;
    r := [];
    assert SortedNames([]) by { NothingToSort(); }
    for i := 0 to |names|
      invariant multiset(r) == multiset(names[..i]) && SortedNames(r)
    {
      assert names[..i + 1] == names[..i] + [names[i]];
      r := InsertName(r, names[i]);
    }
    assert names[..|names|] == names;
  }

  lemma NothingToSort()
    ensures SortedNames([])
  {
  }

  method InsertName(s: seq<Name>, n: Name) returns (r: seq<Name>)
    requires SortedNames(s)
    ensures multiset(r) == multiset(s) + multiset{n} && SortedNames(r)
  {
    hide NameAtMost;
    var k := 0;
    while k < |s| && !NameAtMost(n, s[k])
      invariant 0 <= k <= |s| && (k > 0 ==> !NameAtMost(n, s[k - 1]))
    {
      k := k + 1;
    }
    if k > 0 {
      NameOrderTotal(n, s[k - 1]);
    }
    InsertSorted(s, n, k);
    assert s == s[..k] + s[k..];
    r := s[..k] + [n] + s[k..];
  }

  lemma InsertSorted(r: seq<Name>, n: Name, k: nat)
    requires SortedNames(r) && k <= |r| && (k > 0 ==> NameAtMost(r[k - 1], n)) && (k < |r| ==> NameAtMost(n, r[k]))
    ensures SortedNames(r[..k] + [n] + r[k..])
  {
    var s := r[..k] + [n] + r[k..];
    forall i | 0 <= i < |s| - 1
      ensures NameAtMost(s[i], s[i + 1])
    {
      if i + 1 < k {
        assert s[i] == r[i] && s[i + 1] == r[i + 1];
      } else if i > k {
        assert s[i] == r[i - 1] && s[i + 1] == r[i - 1 + 1];
      }
    }
  }

  lemma SameMembers(a: seq<Name>, b: seq<Name>)
    requires multiset(a) == multiset(b)
    ensures forall n :: n in a <==> n in b
  {
    assert forall n :: n in a <==> n in multiset(a);
    assert forall n :: n in b <==> n in multiset(b);
  }

  method ListNames(names: set<Name>) returns (r: seq<Name>)
    ensures multiset(r) == multiset(names)
  {
    r := [];
    var rest := names;
    while rest != {}
      invariant multiset(r) + multiset(rest) == multiset(names)
      decreases rest
    {
      var n :| n in rest;
      assert multiset(rest) == multiset(rest - {n}) + multiset{n};
      r, rest := r + [n], rest - {n};
    }
  }

  // ---------- There is one sorted list of a set ----------

  lemma {:induction false} NameOrderTransitive(a: Name, b: Name, c: Name)
    requires NameAtMost(a, b) && NameAtMost(b, c)
    ensures NameAtMost(a, c)
  {
    if a != [] && a[0] == b[0] && b[0] == c[0] {
      NameOrderTransitive(a[1..], b[1..], c[1..]);
    }
  }

  lemma {:induction false} NameOrderAntisymmetric(a: Name, b: Name)
    requires NameAtMost(a, b) && NameAtMost(b, a)
    ensures a == b
  {
    if a != [] {
      NameOrderAntisymmetric(a[1..], b[1..]);
      assert a == [a[0]] + a[1..] && b == [b[0]] + b[1..];
    }
  }

  lemma {:induction false} FirstIsSmallest(s: seq<Name>, i: nat)
    requires SortedNames(s) && i < |s|
    ensures NameAtMost(s[0], s[i])
  {
    hide NameAtMost;
    if i == 0 {
      NameOrderTotal(s[0], s[0]);
    } else {
      FirstIsSmallest(s, i - 1);
      assert NameAtMost(s[i - 1], s[i - 1 + 1]);
      NameOrderTransitive(s[0], s[i - 1], s[i]);
    }
  }

  lemma SameFirst(a: seq<Name>, b: seq<Name>)
    requires SortedNames(a) && SortedNames(b) && multiset(a) == multiset(b) && a != [] && b != []
    ensures a[0] == b[0]
  {
    hide SortedNames, NameAtMost;
    assert a[0] in multiset(b) && b[0] in multiset(a);
    var i :| 0 <= i < |a| && a[i] == b[0];
    var j :| 0 <= j < |b| && b[j] == a[0];
    FirstIsSmallest(a, i);
    FirstIsSmallest(b, j);
    NameOrderAntisymmetric(a[0], b[0]);
  }

  lemma SameTails(a: seq<Name>, b: seq<Name>)
    requires multiset(a) == multiset(b) && a != [] && b != [] && a[0] == b[0]
    ensures multiset(a[1..]) == multiset(b[1..])
  {
    assert a == [a[0]] + a[1..] && b == [b[0]] + b[1..];
    assert multiset(a[1..]) == multiset(a) - multiset{a[0]};
    assert multiset(b[1..]) == multiset(b) - multiset{a[0]};
  }

  lemma {:induction false} SortedIsUnique(a: seq<Name>, b: seq<Name>)
    requires SortedNames(a) && SortedNames(b) && multiset(a) == multiset(b)
    ensures a == b
  {
    hide SortedNames, NameAtMost;
    assert |a| == |multiset(a)| == |multiset(b)| == |b|;
    if a != [] {
      SameFirst(a, b);
      SameTails(a, b);
      TailSorted(a);
      TailSorted(b);
      SortedIsUnique(a[1..], b[1..]);
      assert a == [a[0]] + a[1..] && b == [b[0]] + b[1..];
    }
  }

  lemma TailSorted(s: seq<Name>)
    requires SortedNames(s) && s != []
    ensures SortedNames(s[1..])
  {
    var t := s[1..];
    forall i | 0 <= i < |t| - 1
      ensures NameAtMost(t[i], t[i + 1])
    {
      assert NameAtMost(s[i + 1], s[i + 1 + 1]);
    }
  }

  lemma {:induction false} PlaceInOrder(s: seq<Name>, n: Name) returns (k: nat)
    requires SortedNames(s)
    ensures k <= |s| && (k > 0 ==> NameAtMost(s[k - 1], n)) && (k < |s| ==> NameAtMost(n, s[k]))
  {
    hide NameAtMost;
    if s == [] || NameAtMost(n, s[0]) {
      k := 0;
    } else {
      TailSorted(s);
      NameOrderTotal(n, s[0]);
      k := PlaceInOrder(s[1..], n);
      k := k + 1;
    }
  }

  lemma InsertOne(s: seq<Name>, n: Name) returns (r: seq<Name>)
    requires SortedNames(s)
    ensures SortedNames(r) && multiset(r) == multiset(s) + multiset{n}
  {
    hide NameAtMost;
    var k := PlaceInOrder(s, n);
    InsertSorted(s, n, k);
    hide SortedNames;
    r := s[..k] + [n] + s[k..];
    assert s == s[..k] + s[k..];
  }

  lemma {:induction false} SortedExists(names: set<Name>) returns (r: seq<Name>)
    ensures SortedNames(r) && multiset(r) == multiset(names)
  {
    if names == {} {
      r := [];
    } else {
      hide SortedNames;
      var n :| n in names;
      r := SortedExists(names - {n});
      r := InsertOne(r, n);
      assert multiset(names) == multiset(names - {n}) + multiset{n};
    }
  }

  lemma SortedListExists(names: set<Name>)
    ensures exists r :: SortedNames(r) && multiset(r) == multiset(names)
  {
    hide SortedNames;
    var r := SortedExists(names);
  }

  /** The names of a set in sort order. */
  ghost function Sorted(names: set<Name>): (r: seq<Name>)
    ensures SortedNames(r) && multiset(r) == multiset(names)
  {
    SortedListExists(names);
    var r :| SortedNames(r) && multiset(r) == multiset(names);
    r
  }

  lemma SortedMembers(names: set<Name>)
    ensures forall n :: n in Sorted(names) <==> n in names
    ensures Sorted(names) == [] <==> names == {}
  {
    assert forall n :: n in Sorted(names) <==> n in multiset(Sorted(names));
    if names != {} {
      var n :| n in names;
      assert n in multiset(Sorted(names));
    } else {
      assert |Sorted(names)| == |multiset(Sorted(names))|;
    }
  }

  method SortSet(names: set<Name>) returns (r: seq<Name>)
    ensures r == Sorted(names)
  {
    hide SortedNames;
    var listed := ListNames(names);
    r := SortNames(listed);
    SortedIsUnique(r, Sorted(names));
  }
}
