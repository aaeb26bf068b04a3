/** The derived order on entry ids and `sort_unstable` under it. */
module SortIds {
  import opened Bytes
  import opened Types
  import opened KeyedLists

  predicate Leq(a: bytes, b: bytes) {
    a == [] || (b != [] && (a[0] < b[0] || (a[0] == b[0] && Leq(a[1..], b[1..]))))
  }

  lemma {:induction false} LeqTotal(a: bytes, b: bytes)
    ensures Leq(a, b) || Leq(b, a)
  {
    if a != [] && b != [] {
      LeqTotal(a[1..], b[1..]);
    }
  }

  lemma {:induction false} LeqAntisymmetric(a: bytes, b: bytes)
    requires Leq(a, b) && Leq(b, a)
    ensures a == b
  {
    if a != [] {
      LeqAntisymmetric(a[1..], b[1..]);
      assert a == [a[0]] + a[1..] && b == [b[0]] + b[1..];
    }
  }

  lemma {:induction false} LeqTransitive(a: bytes, b: bytes, c: bytes)
    requires Leq(a, b) && Leq(b, c)
    ensures Leq(a, c)
  {
    if a != [] && a[0] == b[0] == c[0] {
      LeqTransitive(a[1..], b[1..], c[1..]);
    }
  }

  ghost predicate Sorted(s: seq<Id>) { forall i, j :: 0 <= i < j < |s| ==> Leq(s[i], s[j]) }

  function Insert(x: Id, s: seq<Id>): seq<Id> {
    if s == [] then [x] else if Leq(x, s[0]) then [x] + s else [s[0]] + Insert(x, s[1..])
  }

  function Sort(s: seq<Id>): seq<Id> { if s == [] then [] else Insert(s[0], Sort(s[1..])) }

  lemma {:induction false} InsertSorts(x: Id, s: seq<Id>)
    requires Sorted(s)
    ensures Sorted(Insert(x, s)) && multiset(Insert(x, s)) == multiset(s) + multiset{x}
  {
    if s == [] {
    } else if Leq(x, s[0]) {
      forall i | 0 <= i < |s| ensures Leq(x, s[i]) {
        if i > 0 { LeqTransitive(x, s[0], s[i]); }
      }
    } else {
      LeqTotal(x, s[0]);
      InsertSorts(x, s[1..]);
      var t := Insert(x, s[1..]);
      assert s == [s[0]] + s[1..];
      forall i | 0 <= i < |t| ensures Leq(s[0], t[i]) {
        assert t[i] in multiset(t);
        assert t[i] == x || t[i] in s[1..];
      }
    }
  }

  lemma {:induction false} SortSorts(s: seq<Id>)
    ensures Sorted(Sort(s)) && multiset(Sort(s)) == multiset(s)
  {
    if s != [] {
      SortSorts(s[1..]);
      InsertSorts(s[0], Sort(s[1..]));
      assert s == [s[0]] + s[1..];
    }
  }

  ghost predicate AdjacentDistinct(s: seq<Id>) { forall i :: 0 < i < |s| ==> s[i - 1] != s[i] }

  lemma EqualNeighbour(s: seq<Id>, i: nat, j: nat)
    requires Sorted(s) && i < j < |s|
    ensures s[i] == s[j] ==> s[i] == s[i + 1]
  {
    if s[i] == s[j] && i + 1 < j {
      LeqAntisymmetric(s[i], s[i + 1]);
    }
  }

  lemma SomeMember(s: seq<Id>)
    ensures s != [] <==> exists x :: x in s
  {
    if s != [] {
      assert s[0] in s;
    }
  }

  /** In a sorted list a duplicate shows up next to itself. */
  lemma SortedNoDup(s: seq<Id>)
    requires Sorted(s)
    ensures AdjacentDistinct(s) <==> NoDup(s)
  {
    if AdjacentDistinct(s) {
      forall i, j | 0 <= i < j < |s| ensures s[i] != s[j] {
        EqualNeighbour(s, i, j);
      }
    }
    if NoDup(s) {
      assert forall i :: 0 < i < |s| ==> s[i - 1] != s[i];
    }
  }

  lemma {:induction false} NoDupIsMultiplicity(s: seq<Id>)
    ensures NoDup(s) <==> forall x :: multiset(s)[x] <= 1
  {
    if s != [] {
      var x, t := s[0], s[1..];
      assert s == [x] + t;
      NoDupIsMultiplicity(t);
      if NoDup(s) {
        assert NoDup(t);
        assert x !in t;
        assert multiset(t)[x] == 0;
      }
      if forall y :: multiset(s)[y] <= 1 {
        forall y ensures multiset(t)[y] <= 1 { assert multiset(t)[y] <= multiset(s)[y]; }
        assert multiset(s)[x] == 1 + multiset(t)[x];
        assert x !in multiset(t);
        assert x !in t;
      }
    }
  }

  lemma SameMembers(s: seq<Id>, x: Id)
    ensures x in s <==> x in Sort(s)
  {
    SortSorts(s);
    assert x in s <==> x in multiset(s);
    assert x in Sort(s) <==> x in multiset(Sort(s));
  }

  /** Two sorted duplicate-free lists with the same members are the same list. */
  lemma {:induction false} SortedUnique(a: seq<Id>, b: seq<Id>)
    requires Sorted(a) && Sorted(b) && NoDup(a) && NoDup(b)
    requires forall x :: x in a <==> x in b
    ensures a == b
  {
    SomeMember(a);
    SomeMember(b);
    if a != [] {
      assert a[0] in a && a[0] in b;
      assert b[0] in b && b[0] in a;
      var i :| 0 <= i < |b| && b[i] == a[0];
      var j :| 0 <= j < |a| && a[j] == b[0];
      if i > 0 && j > 0 {
        LeqAntisymmetric(a[0], b[0]);
      }
      assert a == [a[0]] + a[1..] && b == [b[0]] + b[1..];
      forall x ensures x in a[1..] <==> x in b[1..] {
        assert x in a <==> x == a[0] || x in a[1..];
        assert x in b <==> x == b[0] || x in b[1..];
      }
      SortedUnique(a[1..], b[1..]);
    }
  }

  /** What sort, two adjacent-duplicate scans and a comparison decide. */
  lemma SortedCheckIsSameIds(a: seq<Id>, b: seq<Id>)
    ensures AdjacentDistinct(Sort(a)) && AdjacentDistinct(Sort(b)) && Sort(a) == Sort(b) <==> SameIds(a, b)
    ensures SameIds(a, b) ==> |a| == |b|
  {
    SortSorts(a);
    SortSorts(b);
    SortedNoDup(Sort(a));
    SortedNoDup(Sort(b));
    NoDupIsMultiplicity(a);
    NoDupIsMultiplicity(Sort(a));
    NoDupIsMultiplicity(b);
    NoDupIsMultiplicity(Sort(b));
    forall x ensures (x in a <==> x in Sort(a)) && (x in b <==> x in Sort(b)) {
      SameMembers(a, x);
      SameMembers(b, x);
    }
    if SameIds(a, b) {
      SortedUnique(Sort(a), Sort(b));
      assert |a| == |multiset(a)| && |b| == |multiset(b)|;
      assert |Sort(a)| == |multiset(Sort(a))| && |Sort(b)| == |multiset(Sort(b))|;
    }
  }
}
