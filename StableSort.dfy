/**
  `labelSongs.sort((a, b) => a.song_number - b.song_number)`: the library's
  stable sort by ascending song number, on values.  It is defined here as an
  insertion sort that places each element after every element whose number
  is not greater, which is what stability asks for.
 */
module StableSort {
  import opened Records

  function Number(x: LabelledSong): int {
    x.song.songNumber
  }

  predicate Ascending(s: seq<LabelledSong>) {
    forall i, j :: 0 <= i < j < |s| ==> Number(s[i]) <= Number(s[j])
  }

  /** The elements of `s` whose song number is `v`, in their order in `s`. */
  function WithNumber(s: seq<LabelledSong>, v: int): seq<LabelledSong> {
    if s == [] then []
    else WithNumber(s[..|s| - 1], v) + (if Number(s[|s| - 1]) == v then [s[|s| - 1]] else [])
  }

  /** Puts `x` after the last element of `s` whose number is at most `Number(x)`. */
  function Insert(s: seq<LabelledSong>, x: LabelledSong): (r: seq<LabelledSong>)
    ensures |r| == |s| + 1
  {
    if s == [] || Number(s[|s| - 1]) <= Number(x) then s + [x]
    else Insert(s[..|s| - 1], x) + [s[|s| - 1]]
  }

  function SortByNumber(s: seq<LabelledSong>): (r: seq<LabelledSong>)
    ensures |r| == |s|
  {
    if s == [] then []
    else Insert(SortByNumber(s[..|s| - 1]), s[|s| - 1])
  }

  lemma {:induction false} InsertMultiset(s: seq<LabelledSong>, x: LabelledSong)
    ensures multiset(Insert(s, x)) == multiset(s) + multiset{x}
  {
    if !(s == [] || Number(s[|s| - 1]) <= Number(x)) {
      var p := s[..|s| - 1];
      InsertMultiset(p, x);
      MultisetLast(s);
    }
  }

  /** Sorting rearranges the elements and neither adds nor drops any. */
  lemma {:induction false} SortByNumberMultiset(s: seq<LabelledSong>)
    ensures multiset(SortByNumber(s)) == multiset(s)
  {
    if s != [] {
      var p := s[..|s| - 1];
      SortByNumberMultiset(p);
      InsertMultiset(SortByNumber(p), s[|s| - 1]);
      MultisetLast(s);
    }
  }

  lemma MultisetLast<T>(s: seq<T>)
    requires s != []
    ensures multiset(s) == multiset(s[..|s| - 1]) + multiset{s[|s| - 1]}
  {
    assert s == s[..|s| - 1] + [s[|s| - 1]];
  }

  /** An element of `Insert(s, x)` is `x` or an element of `s`. */
  lemma InsertMember(s: seq<LabelledSong>, x: LabelledSong, y: LabelledSong)
    requires y in Insert(s, x)
    ensures y == x || y in s
  {
    InsertMultiset(s, x);
    assert y in multiset(Insert(s, x));
  }

  lemma {:induction false} InsertAscending(s: seq<LabelledSong>, x: LabelledSong)
    requires Ascending(s)
    ensures Ascending(Insert(s, x))
  {
    if !(s == [] || Number(s[|s| - 1]) <= Number(x)) {
      var p, last := s[..|s| - 1], s[|s| - 1];
      InsertAscending(p, x);
      var q := Insert(p, x);
      forall y | y in q ensures Number(y) <= Number(last) {
        InsertMember(p, x, y);
        if y != x {
          var k :| 0 <= k < |p| && p[k] == y;
          assert s[k] == y;
        }
      }
      forall i, j | 0 <= i < j < |q + [last]| ensures Number((q + [last])[i]) <= Number((q + [last])[j]) {
        if j == |q| {
          assert (q + [last])[i] == q[i] && q[i] in q;
        } else {
          assert (q + [last])[i] == q[i] && (q + [last])[j] == q[j];
        }
      }
    }
  }

  lemma {:induction false} WithNumberAppend(a: seq<LabelledSong>, b: seq<LabelledSong>, v: int)
    ensures WithNumber(a + b, v) == WithNumber(a, v) + WithNumber(b, v)
  {
    if b == [] {
      assert a + b == a;
    } else {
      var c := b[..|b| - 1];
      assert (a + b)[..|a + b| - 1] == a + c;
      WithNumberAppend(a, c, v);
    }
  }

  lemma {:induction false} InsertWithNumber(s: seq<LabelledSong>, x: LabelledSong, v: int)
    ensures WithNumber(Insert(s, x), v) == WithNumber(s, v) + (if Number(x) == v then [x] else [])
  {
    if s == [] || Number(s[|s| - 1]) <= Number(x) {
      WithNumberAppend(s, [x], v);
      assert [x][..0] == [];
    } else {
      var p, last := s[..|s| - 1], s[|s| - 1];
      InsertWithNumber(p, x, v);
      WithNumberAppend(Insert(p, x), [last], v);
      assert [last][..0] == [];
    }
  }

  /**
    The sort's promise: the result is ascending by song number, holds the
    same elements, and keeps the input order of elements with equal numbers.
   */
  lemma {:induction false} SortByNumberSpec(s: seq<LabelledSong>)
    ensures Ascending(SortByNumber(s))
    ensures multiset(SortByNumber(s)) == multiset(s)
    ensures forall v :: WithNumber(SortByNumber(s), v) == WithNumber(s, v)
  {
    if s != [] {
      var p := s[..|s| - 1];
      SortByNumberSpec(p);
      SortByNumberMultiset(s);
      InsertAscending(SortByNumber(p), s[|s| - 1]);
      forall v ensures WithNumber(SortByNumber(s), v) == WithNumber(s, v) {
        InsertWithNumber(SortByNumber(p), s[|s| - 1], v);
      }
    }
  }

  /** No two elements of `s` have the same song number. */
  predicate DistinctNumbers(s: seq<LabelledSong>) {
    forall i, j :: 0 <= i < j < |s| ==> Number(s[i]) != Number(s[j])
  }

  lemma {:induction false} InsertDistinct(s: seq<LabelledSong>, x: LabelledSong)
    requires DistinctNumbers(s)
    requires forall y :: y in s ==> Number(y) != Number(x)
    ensures DistinctNumbers(Insert(s, x))
  {
    if s == [] || Number(s[|s| - 1]) <= Number(x) {
      forall i, j | 0 <= i < j < |s + [x]| ensures Number((s + [x])[i]) != Number((s + [x])[j]) {
        assert (s + [x])[i] == s[i];
        if j == |s| {
          assert s[i] in s;
        } else {
          assert (s + [x])[j] == s[j];
        }
      }
    } else {
      var n := |s| - 1;
      var p, last := s[..n], s[n];
      assert DistinctNumbers(p) by {
        forall i, j | 0 <= i < j < |p| ensures Number(p[i]) != Number(p[j]) {
          assert p[i] == s[i] && p[j] == s[j];
        }
      }
      forall y | y in p ensures Number(y) != Number(x) {
        assert y in s;
      }
      InsertDistinct(p, x);
      var q := Insert(p, x);
      assert last in s;
      forall i, j | 0 <= i < j < |q + [last]| ensures Number((q + [last])[i]) != Number((q + [last])[j]) {
        assert (q + [last])[i] == q[i];
        if j == |q| {
          var y := q[i];
          InsertMember(p, x, y);
          if y != x {
            var k :| 0 <= k < |p| && p[k] == y;
            assert s[k] == y;
          }
        } else {
          assert (q + [last])[j] == q[j];
        }
      }
    }
  }

  /** Dropping the last element keeps numbers distinct, and the dropped number occurs nowhere else. */
  lemma DistinctNumbersLast(s: seq<LabelledSong>)
    requires DistinctNumbers(s) && s != []
    ensures DistinctNumbers(s[..|s| - 1])
    ensures forall y :: y in s[..|s| - 1] ==> Number(y) != Number(s[|s| - 1])
  {
    var n := |s| - 1;
    var p := s[..n];
    forall i, j | 0 <= i < j < |p| ensures Number(p[i]) != Number(p[j]) {
      assert p[i] == s[i] && p[j] == s[j];
    }
    forall y | y in p ensures Number(y) != Number(s[n]) {
      var k :| 0 <= k < |p| && p[k] == y;
      assert s[k] == y;
    }
  }

  /** An element of the sorted sequence is an element of the input. */
  lemma SortMember(s: seq<LabelledSong>, y: LabelledSong)
    requires y in SortByNumber(s)
    ensures y in s
  {
    SortByNumberMultiset(s);
    assert y in multiset(SortByNumber(s));
  }

  /** Sorting keeps song numbers pairwise distinct. */
  lemma {:induction false} SortDistinct(s: seq<LabelledSong>)
    requires DistinctNumbers(s)
    ensures DistinctNumbers(SortByNumber(s))
  {
    if s != [] {
      var n := |s| - 1;
      var p, x := s[..n], s[n];
      DistinctNumbersLast(s);
      SortDistinct(p);
      forall y | y in SortByNumber(p) ensures Number(y) != Number(x) {
        SortMember(p, y);
      }
      InsertDistinct(SortByNumber(p), x);
    }
  }
}
