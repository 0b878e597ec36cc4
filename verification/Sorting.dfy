/**
 Go's sort.Slice as the bridge code uses it: the library only promises an ordered permutation, so
 the model needs one ordered permutation and the fact that, where equal keys mean equal elements,
 there is no other.
 */
module Sorting {

  ghost predicate TotalOrder<T(!new)>(le: (T, T) -> bool) {
    && (forall a, b :: le(a, b) || le(b, a))
    && (forall a, b, c :: le(a, b) && le(b, c) ==> le(a, c))
  }

  ghost predicate Ordered<T>(s: seq<T>, le: (T, T) -> bool) {
    forall i, j :: 0 <= i < j < |s| ==> le(s[i], s[j])
  }

  function Insert<T>(x: T, s: seq<T>, le: (T, T) -> bool): (r: seq<T>)
    ensures multiset(r) == multiset{x} + multiset(s)
  {
    if s == [] || le(x, s[0]) then
      [x] + s
    else
      assert s == [s[0]] + s[1..];
      [s[0]] + Insert(x, s[1..], le)
  }

  function SortBy<T>(s: seq<T>, le: (T, T) -> bool): (r: seq<T>)
    ensures multiset(r) == multiset(s)
  {
    if s == [] then []
    else
      assert s == [s[0]] + s[1..];
      Insert(s[0], SortBy(s[1..], le), le)
  }

  lemma {:induction false} InsertOrdered<T(!new)>(x: T, s: seq<T>, le: (T, T) -> bool)
    requires TotalOrder(le) && Ordered(s, le)
    ensures Ordered(Insert(x, s, le), le)
  {
    if s != [] && !le(x, s[0]) {
      var t := Insert(x, s[1..], le);
      InsertOrdered(x, s[1..], le);
      forall y | y in t ensures le(s[0], y) {
        assert y in multiset(t);
        assert multiset(t) == multiset{x} + multiset(s[1..]);
        assert y == x || y in s[1..];
      }
    }
  }

  lemma {:induction false} SortByOrders<T(!new)>(s: seq<T>, le: (T, T) -> bool)
    requires TotalOrder(le)
    ensures Ordered(SortBy(s, le), le)
  {
    if s != [] {
      SortByOrders(s[1..], le);
      InsertOrdered(s[0], SortBy(s[1..], le), le);
    }
  }

  lemma SameHead<T>(s: seq<T>, t: seq<T>, le: (T, T) -> bool)
    requires Ordered(s, le) && Ordered(t, le) && s != [] && t != []
    requires s[0] in t && t[0] in s
    requires forall b :: b in t && le(t[0], b) && le(b, t[0]) ==> t[0] == b
    ensures s[0] == t[0]
  {
    var k :| 0 <= k < |t| && t[k] == s[0];
    var l :| 0 <= l < |s| && s[l] == t[0];
    if k > 0 && l > 0 {
      assert le(t[0], t[k]) && le(s[0], s[l]);
    }
  }

  lemma TailMultiset<T>(s: seq<T>)
    requires s != []
    ensures multiset(s[1..]) == multiset(s) - multiset{s[0]}
  {
    assert s == [s[0]] + s[1..];
  }

  lemma TailOrdered<T>(s: seq<T>, le: (T, T) -> bool)
    requires s != [] && Ordered(s, le)
    ensures Ordered(s[1..], le) && forall a :: a in s[1..] ==> a in s
  {
  }

  lemma SameTail<T>(s: seq<T>, t: seq<T>)
    requires s != [] && t != [] && s[0] == t[0] && s[1..] == t[1..]
    ensures s == t
  {
    assert s == [s[0]] + s[1..] && t == [t[0]] + t[1..];
  }

  /** An ordered permutation is unique when elements that compare equal are equal. */
  lemma {:induction false} OrderedUnique<T>(s: seq<T>, t: seq<T>, le: (T, T) -> bool)
    requires Ordered(s, le) && Ordered(t, le) && multiset(s) == multiset(t)
    requires forall a, b :: a in t && b in t && le(a, b) && le(b, a) ==> a == b
    ensures s == t
    decreases |s|
  {
    assert |multiset(s)| == |s| && |multiset(t)| == |t|;
    if s != [] {
      assert s[0] in multiset(t) && t[0] in multiset(s);
      SameHead(s, t, le);
      TailMultiset(s);
      TailMultiset(t);
      TailOrdered(s, le);
      TailOrdered(t, le);
      OrderedUnique(s[1..], t[1..], le);
      SameTail(s, t);
    }
  }
}
