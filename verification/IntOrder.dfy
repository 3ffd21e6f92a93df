/** Ascending order on lists of ids. */
module IntOrder {

  function Elems(s: seq<int>): set<int> {
    set x | x in s
  }

  predicate Ascending(s: seq<int>) {
    forall i, j :: 0 <= i < j < |s| ==> s[i] < s[j]
  }

  lemma ElemsOf(a: seq<int>, b: seq<int>)
    ensures Elems(a + b) == Elems(a) + Elems(b)
  {
  }

  function Insert(x: int, s: seq<int>): seq<int> {
    if s == [] || x <= s[0] then [x] + s else [s[0]] + Insert(x, s[1..])
  }

  /** The list in ascending order. */
  function Sorted(s: seq<int>): seq<int> {
    if s == [] then [] else Insert(s[0], Sorted(s[1..]))
  }

  lemma AscendsFrom(x: int, s: seq<int>)
    requires Ascending(s) && forall y :: y in Elems(s) ==> x < y
    ensures Ascending([x] + s) && Elems([x] + s) == Elems(s) + {x}
  {
    forall i | 0 <= i < |s|
      ensures x < s[i]
    {
      assert s[i] in Elems(s);
    }
    ElemsOf([x], s);
    assert Elems([x]) == {x};
  }

  lemma HeadSmallest(s: seq<int>)
    requires s != [] && Ascending(s)
    ensures Ascending(s[1..]) && Elems(s) == Elems(s[1..]) + {s[0]}
    ensures forall y :: y in Elems(s[1..]) ==> s[0] < y
  {
    assert s == [s[0]] + s[1..];
    ElemsOf([s[0]], s[1..]);
    assert Elems([s[0]]) == {s[0]};
  }

  lemma {:induction false} InsertAscends(x: int, s: seq<int>)
    requires Ascending(s) && x !in Elems(s)
    ensures Ascending(Insert(x, s)) && Elems(Insert(x, s)) == Elems(s) + {x}
  {
    hide Ascending;
    if s == [] {
      AscendsFrom(x, s);
    } else {
      HeadSmallest(s);
      hide Elems;
      if x <= s[0] {
        AscendsFrom(x, s);
      } else {
        InsertAscends(x, s[1..]);
        AscendsFrom(s[0], Insert(x, s[1..]));
      }
    }
  }

  /** Sorting a list without duplicates makes it strictly ascending and keeps its elements. */
  lemma {:induction false} SortedAscends(s: seq<int>)
    requires forall i, j :: 0 <= i < j < |s| ==> s[i] != s[j]
    ensures Ascending(Sorted(s)) && Elems(Sorted(s)) == Elems(s)
  {
    if s != [] {
      SortedAscends(s[1..]);
      assert s[0] !in Elems(s[1..]);
      InsertAscends(s[0], Sorted(s[1..]));
      assert s == [s[0]] + s[1..];
      ElemsOf([s[0]], s[1..]);
    }
  }

  predicate NonDescending(s: seq<int>) {
    forall i, j :: 0 <= i < j < |s| ==> s[i] <= s[j]
  }

  lemma {:induction false} InsertOrders(x: int, s: seq<int>)
    requires NonDescending(s)
    ensures NonDescending(Insert(x, s))
    ensures Insert(x, s)[0] == if s != [] && s[0] < x then s[0] else x
  {
    if s != [] && x > s[0] {
      InsertOrders(x, s[1..]);
    }
  }

  lemma {:induction false} InsertAdds(x: int, s: seq<int>)
    ensures multiset(Insert(x, s)) == multiset(s) + multiset{x}
  {
    if s != [] && x > s[0] {
      InsertAdds(x, s[1..]);
      assert s == [s[0]] + s[1..];
    }
  }

  /** Sorting any list orders it and keeps every element as often as it was there. */
  lemma {:induction false} SortedOrders(s: seq<int>)
    ensures NonDescending(Sorted(s)) && multiset(Sorted(s)) == multiset(s)
  {
    if s != [] {
      SortedOrders(s[1..]);
      InsertOrders(s[0], Sorted(s[1..]));
      InsertAdds(s[0], Sorted(s[1..]));
      assert s == [s[0]] + s[1..];
    }
  }
}
