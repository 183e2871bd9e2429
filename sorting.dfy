/** Python's `sorted(xs, key=...)` and `list.sort(key=...)`: a stable sort by a
    total preorder. Python's sort is stable, so any stable sort returns the same
    list; the one below is insertion sort, stable because an element is placed
    after every element it does not precede strictly. */
module Sorting {

  /** `le` compares every pair and is transitive: the order induced by a sort key. */
  ghost predicate TotalPreorder<T(!new)>(le: (T, T) -> bool) {
    && (forall a, b :: le(a, b) || le(b, a))
    && (forall a, b, c :: le(a, b) && le(b, c) ==> le(a, c))
  }

  predicate SortedBy<T>(s: seq<T>, le: (T, T) -> bool) {
    forall i, j :: 0 <= i < j < |s| ==> le(s[i], s[j])
  }

  /** Inserts `x` into the sorted `s` after the last element that is not strictly greater. */
  function InsertStable<T(!new)>(s: seq<T>, x: T, le: (T, T) -> bool): (r: seq<T>)
    requires TotalPreorder(le) && SortedBy(s, le)
    ensures SortedBy(r, le)
    ensures multiset(r) == multiset(s) + multiset{x}
    ensures |r| == |s| + 1
  {
    if s == [] || le(s[|s| - 1], x) then
      s + [x]
    else
      var init, last := s[..|s| - 1], s[|s| - 1];
      assert s == init + [last];
      var r := InsertStable(init, x, le);
      AllBelow(r, init, x, last, le);
      r + [last]
  }

  /** Every element of a permutation of `init + [x]` is ranked at most `last`
      when every element of `init` and `x` are. */
  lemma AllBelow<T>(r: seq<T>, init: seq<T>, x: T, last: T, le: (T, T) -> bool)
    requires multiset(r) == multiset(init) + multiset{x}
    requires forall j :: 0 <= j < |init| ==> le(init[j], last)
    requires le(x, last)
    ensures forall i :: 0 <= i < |r| ==> le(r[i], last)
  {
    forall i | 0 <= i < |r| ensures le(r[i], last) {
      assert r[i] in multiset(r);
      if r[i] != x {
        assert r[i] in multiset(init);
        var j :| 0 <= j < |init| && init[j] == r[i];
      }
    }
  }

  /** The stably sorted permutation of `s`. */
  function SortBy<T(!new)>(s: seq<T>, le: (T, T) -> bool): (r: seq<T>)
    requires TotalPreorder(le)
    ensures SortedBy(r, le)
    ensures multiset(r) == multiset(s) && |r| == |s|
  {
    if s == [] then []
    else
      assert s == s[..|s| - 1] + [s[|s| - 1]];
      InsertStable(SortBy(s[..|s| - 1], le), s[|s| - 1], le)
  }

  /** The elements of `s` that `le` ranks equal to `x`, in their order in `s`. */
  function Ties<T>(s: seq<T>, x: T, le: (T, T) -> bool): seq<T> {
    if s == [] then []
    else
      var last := s[|s| - 1];
      Ties(s[..|s| - 1], x, le) + (if le(last, x) && le(x, last) then [last] else [])
  }

  lemma TiesAppend<T>(s: seq<T>, y: T, x: T, le: (T, T) -> bool)
    ensures Ties(s + [y], x, le) == Ties(s, x, le) + Ties([y], x, le)
  {
    assert (s + [y])[..|s|] == s;
    assert [y][..0] == [];
  }

  lemma TiesSingle<T>(y: T, x: T, le: (T, T) -> bool)
    ensures Ties([y], x, le) == if le(y, x) && le(x, y) then [y] else []
  {
    assert [y][..0] == [];
  }

  /** An element ranked strictly above `y` cannot tie with `x` when `y` does. */
  lemma NotBothTied<T(!new)>(last: T, y: T, x: T, le: (T, T) -> bool)
    requires TotalPreorder(le) && !le(last, y)
    ensures !(le(last, x) && le(x, y))
  {
  }

  /** When `y` ranks strictly below the last element of `s`, it is inserted
      into the rest of `s`, which is sorted too. */
  lemma InsertStableStep<T(!new)>(s: seq<T>, y: T, le: (T, T) -> bool)
    requires TotalPreorder(le) && SortedBy(s, le)
    requires s != [] && !le(s[|s| - 1], y)
    ensures SortedBy(s[..|s| - 1], le)
    ensures InsertStable(s, y, le) == InsertStable(s[..|s| - 1], y, le) + [s[|s| - 1]]
  {
  }

  lemma SwapEmpty<T>(a: seq<T>, b: seq<T>, c: seq<T>)
    requires b == [] || c == []
    ensures a + b + c == a + c + b
  {
  }

  /** Inserting keeps the order among ties: `y` comes after every element tied with it. */
  lemma {:induction false} InsertStableTies<T(!new)>(s: seq<T>, y: T, x: T, le: (T, T) -> bool)
    requires TotalPreorder(le) && SortedBy(s, le)
    ensures Ties(InsertStable(s, y, le), x, le) == Ties(s, x, le) + Ties([y], x, le)
  {
    if s == [] || le(s[|s| - 1], y) {
      TiesAppend(s, y, x, le);
    } else {
      var init, last := s[..|s| - 1], s[|s| - 1];
      InsertStableStep(s, y, le);
      var r := InsertStable(init, y, le);
      NotBothTied(last, y, x, le);
      TiesSingle(y, x, le);
      TiesSingle(last, x, le);
      calc {
        Ties(r + [last], x, le);
        { TiesAppend(r, last, x, le); }
        Ties(r, x, le) + Ties([last], x, le);
        { InsertStableTies(init, y, x, le); }
        Ties(init, x, le) + Ties([y], x, le) + Ties([last], x, le);
        { SwapEmpty(Ties(init, x, le), Ties([y], x, le), Ties([last], x, le)); }
        Ties(init, x, le) + Ties([last], x, le) + Ties([y], x, le);
        { TiesAppend(init, last, x, le); }
        Ties(init + [last], x, le) + Ties([y], x, le);
      }
    }
  }

  /** `sorted` is stable: the elements that rank equal keep their input order. */
  lemma {:induction false} SortByStable<T(!new)>(s: seq<T>, x: T, le: (T, T) -> bool)
    requires TotalPreorder(le)
    ensures Ties(SortBy(s, le), x, le) == Ties(s, x, le)
  {
    if s != [] {
      var init, last := s[..|s| - 1], s[|s| - 1];
      assert s == init + [last];
      calc {
        Ties(SortBy(s, le), x, le);
        Ties(InsertStable(SortBy(init, le), last, le), x, le);
        { InsertStableTies(SortBy(init, le), last, x, le); }
        Ties(SortBy(init, le), x, le) + Ties([last], x, le);
        { SortByStable(init, x, le); }
        Ties(init, x, le) + Ties([last], x, le);
        { TiesAppend(init, last, x, le); }
        Ties(init + [last], x, le);
      }
    }
  }

  predicate Increasing(s: seq<real>) {
    forall i, j :: 0 <= i < j < |s| ==> s[i] < s[j]
  }

  /** Adds a new key to a strictly increasing list of keys, keeping it strictly increasing. */
  function InsertKey(s: seq<real>, k: real): (r: seq<real>)
    requires Increasing(s) && k !in s
    ensures Increasing(r)
    ensures forall y :: y in r <==> y in s || y == k
    ensures |r| == |s| + 1
  {
    if s == [] || s[|s| - 1] < k then s + [k]
    else
      var r := InsertKey(s[..|s| - 1], k);
      assert forall y :: y in r ==> y < s[|s| - 1] by {
        forall y | y in r ensures y < s[|s| - 1] {
          if y != k { var j :| 0 <= j < |s| - 1 && s[..|s| - 1][j] == y; }
        }
      }
      assert forall y :: y in s ==> y in s[..|s| - 1] || y == s[|s| - 1];
      assert forall i :: 0 <= i < |r| ==> r[i] in r;
      r + [s[|s| - 1]]
  }

  /** A strictly increasing list is determined by its set of elements. */
  lemma {:induction false} IncreasingUnique(a: seq<real>, b: seq<real>)
    requires Increasing(a) && Increasing(b)
    requires forall y :: y in a <==> y in b
    ensures a == b
  {
    if a != [] { assert a[0] in a; }
    if b != [] { assert b[0] in b; }
    if a != [] {
      assert a[0] == b[0] by {
        assert a[0] in b && b[0] in a;
      }
      assert forall y :: y in a[1..] <==> y in b[1..] by {
        forall y ensures y in a[1..] <==> y in b[1..] {
          if y in a[1..] { assert y in a && y != a[0]; }
          if y in b[1..] { assert y in b && y != b[0]; }
        }
      }
      IncreasingUnique(a[1..], b[1..]);
      assert a == [a[0]] + a[1..] && b == [b[0]] + b[1..];
    }
  }
}
