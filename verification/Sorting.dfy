/** The library sorts the dashboard relies on, as one stable insertion sort over a total preorder. */
module Sorting {

  ghost predicate TotalPreorder<T(!new)>(le: (T, T) -> bool) {
    && (forall x, y :: le(x, y) || le(y, x))
    && forall x, y, z :: le(x, y) && le(y, z) ==> le(x, z)
  }

  function Insert<T>(x: T, s: seq<T>, le: (T, T) -> bool): seq<T> {
    if s == [] || le(x, s[0]) then [x] + s else [s[0]] + Insert(x, s[1..], le)
  }

  function Sorted<T>(s: seq<T>, le: (T, T) -> bool): seq<T> {
    if s == [] then [] else Insert(s[0], Sorted(s[1..], le), le)
  }

  ghost predicate Ascending<T>(s: seq<T>, le: (T, T) -> bool) {
    forall i, j :: 0 <= i < j < |s| ==> le(s[i], s[j])
  }

  lemma {:induction false} InsertKeeps<T(!new)>(x: T, s: seq<T>, le: (T, T) -> bool)
    requires TotalPreorder(le) && Ascending(s, le)
    ensures Ascending(Insert(x, s, le), le)
    ensures multiset(Insert(x, s, le)) == multiset(s) + multiset{x}
    ensures forall e :: e in Insert(x, s, le) ==> e == x || e in s
  {
    if s == [] || le(x, s[0]) {
      var r := [x] + s;
      forall j | 0 < j < |r| ensures le(r[0], r[j]) {
        if j > 1 { assert le(s[0], s[j - 1]); }
      }
    } else {
      var t := s[1..];
      assert s == [s[0]] + t;
      InsertKeeps(x, t, le);
      var r := Insert(x, t, le);
      forall e | e in r ensures le(s[0], e) {
      }
      assert forall j :: 0 <= j < |r| ==> r[j] in r;
    }
  }

  /** The result is ascending and a permutation of the input. */
  lemma {:induction false} SortedIsSorted<T(!new)>(s: seq<T>, le: (T, T) -> bool)
    requires TotalPreorder(le)
    ensures Ascending(Sorted(s, le), le)
    ensures multiset(Sorted(s, le)) == multiset(s)
  {
    if s != [] {
      SortedIsSorted(s[1..], le);
      InsertKeeps(s[0], Sorted(s[1..], le), le);
      assert s == [s[0]] + s[1..];
    }
  }

  lemma {:induction false} InsertMembers<T>(x: T, s: seq<T>, le: (T, T) -> bool, e: T)
    ensures e in Insert(x, s, le) <==> e == x || e in s
  {
    if !(s == [] || le(x, s[0])) {
      InsertMembers(x, s[1..], le, e);
      assert s == [s[0]] + s[1..];
    }
  }

  /** Sorting neither loses nor invents an element. */
  lemma {:induction false} SortedMembers<T>(s: seq<T>, le: (T, T) -> bool, e: T)
    ensures e in Sorted(s, le) <==> e in s
  {
    if s != [] {
      SortedMembers(s[1..], le, e);
      InsertMembers(s[0], Sorted(s[1..], le), le, e);
      assert s == [s[0]] + s[1..];
    }
  }

  function Ties<T>(s: seq<T>, x: T, le: (T, T) -> bool): seq<T> {
    if s == [] then []
    else if le(x, s[0]) && le(s[0], x) then [s[0]] + Ties(s[1..], x, le)
    else Ties(s[1..], x, le)
  }

  lemma {:induction false} InsertIsStable<T(!new)>(x: T, s: seq<T>, y: T, le: (T, T) -> bool)
    requires TotalPreorder(le)
    ensures Ties(Insert(x, s, le), y, le) == Ties([x] + s, y, le)
  {
    assert ([x] + s)[1..] == s;
    if !(s == [] || le(x, s[0])) {
      var t := s[1..];
      InsertIsStable(x, t, y, le);
      assert ([x] + t)[1..] == t;
      assert ([s[0]] + Insert(x, t, le))[1..] == Insert(x, t, le);
    }
  }

  /** Elements that tie keep their order. */
  lemma {:induction false} SortedIsStable<T(!new)>(s: seq<T>, y: T, le: (T, T) -> bool)
    requires TotalPreorder(le)
    ensures Ties(Sorted(s, le), y, le) == Ties(s, y, le)
  {
    if s != [] {
      SortedIsStable(s[1..], y, le);
      InsertIsStable(s[0], Sorted(s[1..], le), y, le);
      assert ([s[0]] + Sorted(s[1..], le))[1..] == Sorted(s[1..], le);
    }
  }
}
