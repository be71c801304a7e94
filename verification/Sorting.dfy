/** Array.prototype.sort and Python's sorted: a stable sort by an integer key. */
module Sorting {

  function Insert<T>(x: T, s: seq<T>, key: T -> int): (r: seq<T>)
    ensures |r| == |s| + 1
  {
    if s == [] || key(x) <= key(s[0]) then [x] + s
    else [s[0]] + Insert(x, s[1..], key)
  }

  function SortBy<T>(s: seq<T>, key: T -> int): (r: seq<T>)
    ensures |r| == |s|
  {
    if s == [] then [] else Insert(s[0], SortBy(s[1..], key), key)
  }

  predicate Ascending<T>(s: seq<T>, key: T -> int) {
    forall i, j :: 0 <= i < j < |s| ==> key(s[i]) <= key(s[j])
  }

  lemma {:induction false} InsertElements<T>(x: T, s: seq<T>, key: T -> int)
    ensures multiset(Insert(x, s, key)) == multiset(s) + multiset{x}
    ensures forall y :: y in Insert(x, s, key) <==> y == x || y in s
  {
    if s == [] || key(x) <= key(s[0]) {
    } else {
      InsertElements(x, s[1..], key);
      assert s == [s[0]] + s[1..];
    }
  }

  lemma {:induction false} InsertAscending<T>(x: T, s: seq<T>, key: T -> int)
    requires Ascending(s, key)
    ensures Ascending(Insert(x, s, key), key)
  {
    if s == [] || key(x) <= key(s[0]) {
    } else {
      InsertAscending(x, s[1..], key);
      InsertElements(x, s[1..], key);
      var r := Insert(x, s[1..], key);
      forall j | 0 <= j < |r| ensures key(s[0]) <= key(r[j]) {
        assert r[j] in multiset(r);
        if r[j] != x {
          assert r[j] in s[1..];
        }
      }
    }
  }

  /** Sorting gives an ascending rearrangement of the input. */
  lemma {:induction false} SortAscending<T>(s: seq<T>, key: T -> int)
    ensures Ascending(SortBy(s, key), key)
    ensures multiset(SortBy(s, key)) == multiset(s)
  {
    if s != [] {
      SortAscending(s[1..], key);
      InsertAscending(s[0], SortBy(s[1..], key), key);
      InsertElements(s[0], SortBy(s[1..], key), key);
      assert s == [s[0]] + s[1..];
    }
  }

  lemma SortMembers<T>(s: seq<T>, key: T -> int)
    ensures forall x :: x in SortBy(s, key) <==> x in s
  {
    SortAscending(s, key);
    forall x ensures x in SortBy(s, key) <==> x in s {
      assert x in SortBy(s, key) <==> x in multiset(SortBy(s, key));
      assert x in s <==> x in multiset(s);
    }
  }

  // ---- Half-open intervals [lo(x), hi(x)) ----

  predicate Clear<T>(x: T, y: T, lo: T -> int, hi: T -> int) {
    hi(x) <= lo(y) || hi(y) <= lo(x)
  }

  predicate AllClear<T>(x: T, s: seq<T>, lo: T -> int, hi: T -> int) {
    forall i :: 0 <= i < |s| ==> Clear(x, s[i], lo, hi)
  }

  /** The intervals of the sequence are pairwise disjoint. */
  predicate Apart<T>(s: seq<T>, lo: T -> int, hi: T -> int) {
    forall i, j :: 0 <= i < j < |s| ==> Clear(s[i], s[j], lo, hi)
  }

  lemma ApartCons<T>(x: T, s: seq<T>, lo: T -> int, hi: T -> int)
    ensures Apart([x] + s, lo, hi) <==> AllClear(x, s, lo, hi) && Apart(s, lo, hi)
  {
    var t := [x] + s;
    if Apart(t, lo, hi) {
      forall i | 0 <= i < |s| ensures Clear(x, s[i], lo, hi) {
        assert Clear(t[0], t[i + 1], lo, hi);
      }
      forall i, j | 0 <= i < j < |s| ensures Clear(s[i], s[j], lo, hi) {
        assert Clear(t[i + 1], t[j + 1], lo, hi);
      }
    }
  }

  lemma {:induction false} InsertClear<T>(y: T, x: T, s: seq<T>, key: T -> int, lo: T -> int, hi: T -> int)
    ensures AllClear(y, Insert(x, s, key), lo, hi) <==> Clear(y, x, lo, hi) && AllClear(y, s, lo, hi)
  {
    if s == [] || key(x) <= key(s[0]) {
      ClearCons(y, x, s, lo, hi);
    } else {
      InsertClear(y, x, s[1..], key, lo, hi);
      ClearCons(y, s[0], Insert(x, s[1..], key), lo, hi);
      ClearCons(y, s[0], s[1..], lo, hi);
      assert s == [s[0]] + s[1..];
    }
  }

  lemma ClearCons<T>(y: T, x: T, s: seq<T>, lo: T -> int, hi: T -> int)
    ensures AllClear(y, [x] + s, lo, hi) <==> Clear(y, x, lo, hi) && AllClear(y, s, lo, hi)
  {
    var t := [x] + s;
    if AllClear(y, t, lo, hi) {
      assert Clear(y, t[0], lo, hi);
      forall i | 0 <= i < |s| ensures Clear(y, s[i], lo, hi) {
        assert Clear(y, t[i + 1], lo, hi);
      }
    }
  }

  lemma {:induction false} InsertApart<T>(x: T, s: seq<T>, key: T -> int, lo: T -> int, hi: T -> int)
    ensures Apart(Insert(x, s, key), lo, hi) <==> AllClear(x, s, lo, hi) && Apart(s, lo, hi)
  {
    if s == [] || key(x) <= key(s[0]) {
      ApartCons(x, s, lo, hi);
    } else {
      InsertApart(x, s[1..], key, lo, hi);
      ApartCons(s[0], Insert(x, s[1..], key), lo, hi);
      InsertClear(s[0], x, s[1..], key, lo, hi);
      ApartCons(s[0], s[1..], lo, hi);
      ClearCons(x, s[0], s[1..], lo, hi);
      assert s == [s[0]] + s[1..];
    }
  }

  /** Sorting keeps intervals disjoint, and overlapping ones overlapping. */
  lemma {:induction false} SortApart<T>(s: seq<T>, key: T -> int, lo: T -> int, hi: T -> int)
    ensures Apart(SortBy(s, key), lo, hi) <==> Apart(s, lo, hi)
    ensures forall x :: AllClear(x, SortBy(s, key), lo, hi) <==> AllClear(x, s, lo, hi)
  {
    if s != [] {
      SortApart(s[1..], key, lo, hi);
      InsertApart(s[0], SortBy(s[1..], key), key, lo, hi);
      ApartCons(s[0], s[1..], lo, hi);
      assert s == [s[0]] + s[1..];
      forall x ensures AllClear(x, SortBy(s, key), lo, hi) <==> AllClear(x, s, lo, hi) {
        InsertClear(x, s[0], SortBy(s[1..], key), key, lo, hi);
        ClearCons(x, s[0], s[1..], lo, hi);
      }
    }
  }

  /** In order of their starts, non-empty intervals are disjoint exactly when each ends before the next starts. */
  lemma NeighboursApart<T>(s: seq<T>, lo: T -> int, hi: T -> int)
    requires Ascending(s, lo) && forall i :: 0 <= i < |s| ==> lo(s[i]) < hi(s[i])
    ensures Apart(s, lo, hi) <==> forall i :: 1 <= i < |s| ==> hi(s[i - 1]) <= lo(s[i])
  {
    if forall i :: 1 <= i < |s| ==> hi(s[i - 1]) <= lo(s[i]) {
      forall i, j | 0 <= i < j < |s| ensures Clear(s[i], s[j], lo, hi) {
        assert hi(s[i + 1 - 1]) <= lo(s[i + 1]);
        assert lo(s[i + 1]) <= lo(s[j]);
      }
    }
    if Apart(s, lo, hi) {
      forall i | 1 <= i < |s| ensures hi(s[i - 1]) <= lo(s[i]) {
        assert Clear(s[i - 1], s[i], lo, hi);
      }
    }
  }
}
