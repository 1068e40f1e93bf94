/**
 * Python's `sorted(s, key=…, reverse=…)`: a stable sort under a total preorder.
 * It is modelled as an insertion sort that inserts each element after every
 * element it does not precede, so elements with equal keys keep their input order.
 */
module Sorting {
  /** `le` is total and transitive: the order `sorted` derives from comparing keys. */
  ghost predicate TotalPreorder<T(!new)>(le: (T, T) -> bool) {
    (forall a, b :: le(a, b) || le(b, a)) &&
    (forall a, b, c :: le(a, b) && le(b, c) ==> le(a, c))
  }

  predicate SortedBy<T>(s: seq<T>, le: (T, T) -> bool) {
    forall i, j :: 0 <= i < j < |s| ==> le(s[i], s[j])
  }

  /** The elements of `s` whose key equals the key of `x`, in order. */
  function Tied<T>(s: seq<T>, x: T, le: (T, T) -> bool): seq<T> {
    if s == [] then []
    else Tied(s[..|s| - 1], x, le) + (if le(s[|s| - 1], x) && le(x, s[|s| - 1]) then [s[|s| - 1]] else [])
  }

  function Insert<T>(acc: seq<T>, x: T, le: (T, T) -> bool): seq<T> {
    if acc == [] then [x]
    else if le(acc[|acc| - 1], x) then acc + [x]
    else Insert(acc[..|acc| - 1], x, le) + [acc[|acc| - 1]]
  }

  function SortBy<T>(s: seq<T>, le: (T, T) -> bool): seq<T> {
    if s == [] then [] else Insert(SortBy(s[..|s| - 1], le), s[|s| - 1], le)
  }

  lemma {:induction false} InsertPermutes<T>(acc: seq<T>, x: T, le: (T, T) -> bool)
    ensures multiset(Insert(acc, x, le)) == multiset(acc) + multiset{x}
    ensures |Insert(acc, x, le)| == |acc| + 1
  {
    if acc != [] && !le(acc[|acc| - 1], x) {
      InsertPermutes(acc[..|acc| - 1], x, le);
      assert acc == acc[..|acc| - 1] + [acc[|acc| - 1]];
    }
  }

  lemma {:induction false} InsertSorted<T(!new)>(acc: seq<T>, x: T, le: (T, T) -> bool)
    requires TotalPreorder(le) && SortedBy(acc, le)
    ensures SortedBy(Insert(acc, x, le), le)
  {
    if acc != [] && !le(acc[|acc| - 1], x) {
      var init, last := acc[..|acc| - 1], acc[|acc| - 1];
      InsertSorted(init, x, le);
      InsertPermutes(init, x, le);
      var r := Insert(init, x, le);
      forall i | 0 <= i < |r| ensures le(r[i], last) {
        assert r[i] in multiset(r);
        assert r[i] in multiset(init) || r[i] == x;
        if r[i] != x {
          var k :| 0 <= k < |init| && init[k] == r[i];
          assert acc[k] == r[i];
        }
      }
    }
  }

  lemma {:induction false} TiedAppend<T>(s: seq<T>, t: seq<T>, x: T, le: (T, T) -> bool)
    ensures Tied(s + t, x, le) == Tied(s, x, le) + Tied(t, x, le)
    decreases |t|
  {
    if t == [] {
      assert s + t == s;
    } else {
      assert (s + t)[..|s + t| - 1] == s + t[..|t| - 1];
      TiedAppend(s, t[..|t| - 1], x, le);
    }
  }

  /** Inserting `x` leaves each group of tied elements in order, with `x` last in its own group. */
  lemma {:induction false} InsertStable<T(!new)>(acc: seq<T>, x: T, y: T, le: (T, T) -> bool)
    requires TotalPreorder(le)
    ensures Tied(Insert(acc, x, le), y, le) ==
            Tied(acc, y, le) + (if le(x, y) && le(y, x) then [x] else [])
  {
    if acc == [] {
    } else if le(acc[|acc| - 1], x) {
      TiedAppend(acc, [x], y, le);
    } else {
      var init, last := acc[..|acc| - 1], acc[|acc| - 1];
      InsertStable(init, x, y, le);
      TiedAppend(Insert(init, x, le), [last], y, le);
      TiedAppend(init, [last], y, le);
      assert acc == init + [last];
      var tx := if le(x, y) && le(y, x) then [x] else [];
      var tl := Tied([last], y, le);
      assert tl == if le(last, y) && le(y, last) then [last] else [] by {
        assert [last][..0] == [];
      }
      assert le(last, y) && le(y, x) ==> le(last, x);
      SwapAroundEmpty(Tied(init, y, le), tx, tl);
    }
  }

  /** Two pieces, one of them empty, can be appended in either order. */
  lemma SwapAroundEmpty<T>(a: seq<T>, b: seq<T>, c: seq<T>)
    requires b == [] || c == []
    ensures (a + b) + c == (a + c) + b
  {
    if b == [] {
      assert a + b == a && (a + c) + b == a + c;
    } else {
      assert a + c == a && (a + b) + c == a + b;
    }
  }

  /** `sorted` returns a permutation of its input. */
  lemma {:induction false} SortPermutes<T>(s: seq<T>, le: (T, T) -> bool)
    ensures multiset(SortBy(s, le)) == multiset(s)
    ensures |SortBy(s, le)| == |s|
  {
    if s != [] {
      SortPermutes(s[..|s| - 1], le);
      InsertPermutes(SortBy(s[..|s| - 1], le), s[|s| - 1], le);
      assert s == s[..|s| - 1] + [s[|s| - 1]];
    }
  }

  /** `sorted` returns its input in order. */
  lemma {:induction false} SortSorts<T(!new)>(s: seq<T>, le: (T, T) -> bool)
    requires TotalPreorder(le)
    ensures SortedBy(SortBy(s, le), le)
  {
    if s != [] {
      SortSorts(s[..|s| - 1], le);
      InsertSorted(SortBy(s[..|s| - 1], le), s[|s| - 1], le);
    }
  }

  /** `sorted` is stable: elements with equal keys appear in the output in their input order. */
  lemma {:induction false} SortStable<T(!new)>(s: seq<T>, y: T, le: (T, T) -> bool)
    requires TotalPreorder(le)
    ensures Tied(SortBy(s, le), y, le) == Tied(s, y, le)
  {
    if s != [] {
      SortStable(s[..|s| - 1], y, le);
      InsertStable(SortBy(s[..|s| - 1], le), s[|s| - 1], y, le);
    }
  }

  /** The last element of the elements tied with `x` is the last tied element of the whole list. */
  lemma {:induction false} TiedEndsWithLastTied<T>(s: seq<T>, x: T, le: (T, T) -> bool)
    requires Tied(s, x, le) != []
    ensures var t := Tied(s, x, le);
      exists i :: 0 <= i < |s| && t[|t| - 1] == s[i] && le(s[i], x) && le(x, s[i]) &&
        forall j :: i < j < |s| ==> !(le(s[j], x) && le(x, s[j]))
  {
    var n := |s| - 1;
    if !(le(s[n], x) && le(x, s[n])) {
      assert Tied(s, x, le) == Tied(s[..n], x, le);
      TiedEndsWithLastTied(s[..n], x, le);
      var t := Tied(s, x, le);
      var i :| 0 <= i < n && t[|t| - 1] == s[..n][i] && le(s[..n][i], x) && le(x, s[..n][i]) &&
        forall j :: i < j < n ==> !(le(s[..n][j], x) && le(x, s[..n][j]));
      assert forall j :: i < j < |s| ==> !(le(s[j], x) && le(x, s[j])) by {
        forall j | i < j < |s| ensures !(le(s[j], x) && le(x, s[j])) {
          if j < n { assert s[j] == s[..n][j]; }
        }
      }
    }
  }

  /** The last element after a stable sort is the last input element tied with it. */
  lemma SortLastIsLastTied<T(!new)>(s: seq<T>, le: (T, T) -> bool)
    requires TotalPreorder(le) && s != []
    ensures |SortBy(s, le)| == |s|
    ensures var x := SortBy(s, le)[|s| - 1];
      exists i :: 0 <= i < |s| && s[i] == x && forall j :: i < j < |s| ==> !(le(s[j], x) && le(x, s[j]))
  {
    var t := SortBy(s, le);
    SortPermutes(s, le);
    var x := t[|t| - 1];
    SortStable(s, x, le);
    assert t == t[..|t| - 1] + [x];
    TiedAppend(t[..|t| - 1], [x], x, le);
    assert Tied([x], x, le) == [x] by {
      assert [x][..0] == [];
    }
    TiedEndsWithLastTied(s, x, le);
  }

  lemma MembersSurviveSort<T>(s: seq<T>, le: (T, T) -> bool, x: T)
    ensures x in SortBy(s, le) <==> x in s
  {
    SortPermutes(s, le);
    assert x in SortBy(s, le) <==> x in multiset(SortBy(s, le));
    assert x in s <==> x in multiset(s);
  }

  /** The order of sorting by `primary` a list already sorted by `secondary`: ties on `primary` broken by `secondary`. */
  function ThenBy<T>(primary: (T, T) -> bool, secondary: (T, T) -> bool): (T, T) -> bool {
    (a: T, b: T) => primary(a, b) && (!primary(b, a) || secondary(a, b))
  }

  lemma {:induction false} InsertThenBy<T(!new)>(acc: seq<T>, x: T, p: (T, T) -> bool, q: (T, T) -> bool)
    requires TotalPreorder(p) && SortedBy(acc, ThenBy(p, q))
    requires forall e :: e in acc ==> q(e, x)
    ensures SortedBy(Insert(acc, x, p), ThenBy(p, q))
  {
    var o := ThenBy(p, q);
    if acc == [] {
    } else if p(acc[|acc| - 1], x) {
      forall i | 0 <= i < |acc| ensures o(acc[i], x) {
        if i < |acc| - 1 {
          assert o(acc[i], acc[|acc| - 1]);
        }
      }
      SortedSnoc(acc, x, o);
    } else {
      var init, last := acc[..|acc| - 1], acc[|acc| - 1];
      assert forall e :: e in init ==> e in acc;
      InsertThenBy(init, x, p, q);
      InsertPermutes(init, x, p);
      var r := Insert(init, x, p);
      forall i | 0 <= i < |r| ensures o(r[i], last) {
        assert r[i] in multiset(r);
        assert r[i] in multiset(init) || r[i] == x;
        if r[i] != x {
          var k :| 0 <= k < |init| && init[k] == r[i];
          assert acc[k] == r[i];
        }
      }
      SortedSnoc(r, last, o);
    }
  }

  /** A sorted list followed by an element no earlier than any of it is sorted. */
  lemma SortedSnoc<T>(r: seq<T>, x: T, le: (T, T) -> bool)
    requires SortedBy(r, le) && forall i :: 0 <= i < |r| ==> le(r[i], x)
    ensures SortedBy(r + [x], le)
  {
  }

  /**
   * Sorting stably by `primary` a list already sorted by `secondary` orders it by `primary`
   * with ties in `secondary` order: what two successive `sorted` calls achieve.
   */
  lemma {:induction false} SortThenBy<T(!new)>(s: seq<T>, p: (T, T) -> bool, q: (T, T) -> bool)
    requires TotalPreorder(p) && SortedBy(s, q)
    ensures SortedBy(SortBy(s, p), ThenBy(p, q))
  {
    if s != [] {
      var init, x := s[..|s| - 1], s[|s| - 1];
      SortThenBy(init, p, q);
      forall e | e in SortBy(init, p) ensures q(e, x) {
        MembersSurviveSort(init, p, e);
        var k :| 0 <= k < |init| && init[k] == e;
        assert s[k] == e;
      }
      InsertThenBy(SortBy(init, p), x, p, q);
    }
  }

  /** An element that strictly precedes everything already sorted goes to the front. */
  lemma {:induction false} InsertFront<T>(acc: seq<T>, x: T, le: (T, T) -> bool)
    requires forall i :: 0 <= i < |acc| ==> !le(acc[i], x)
    ensures Insert(acc, x, le) == [x] + acc
  {
    if acc != [] {
      InsertFront(acc[..|acc| - 1], x, le);
      assert acc == acc[..|acc| - 1] + [acc[|acc| - 1]];
    }
  }

  /** A list in which every element strictly precedes the ones before it sorts into its reverse. */
  lemma {:induction false} SortReversesDescending<T>(s: seq<T>, le: (T, T) -> bool)
    requires forall i, j :: 0 <= i < j < |s| ==> !le(s[i], s[j])
    ensures |SortBy(s, le)| == |s|
    ensures forall i :: 0 <= i < |s| ==> SortBy(s, le)[i] == s[|s| - 1 - i]
  {
    if s != [] {
      var init, x := s[..|s| - 1], s[|s| - 1];
      SortReversesDescending(init, le);
      var r := SortBy(init, le);
      forall i | 0 <= i < |r| ensures !le(r[i], x) {
        assert r[i] == s[|init| - 1 - i];
      }
      InsertFront(r, x, le);
    }
  }
}
