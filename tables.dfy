/** Generic facts about tables kept as sequences of rows: a row filter is what
    `DELETE ... WHERE` leaves behind and what `SELECT ... WHERE` returns, and a
    pairwise relation is how key order and uniqueness constraints are stated. */
module Tables {

  /** The rows of `s` that satisfy `keep`, in their original order. */
  function Filter<T(!new)>(s: seq<T>, keep: T -> bool): (r: seq<T>)
    ensures |r| <= |s|
    ensures forall x :: x in r <==> x in s && keep(x)
    decreases |s|
  {
    if s == [] then []
    else if keep(s[0]) then [s[0]] + Filter(s[1..], keep)
    else Filter(s[1..], keep)
  }

  /** Every earlier row stands in relation `rel` to every later row. */
  ghost predicate Pairwise<T(!new)>(s: seq<T>, rel: (T, T) -> bool) {
    forall i, j :: 0 <= i < j < |s| ==> rel(s[i], s[j])
  }

  lemma {:induction false} FilterAppend<T(!new)>(a: seq<T>, b: seq<T>, keep: T -> bool)
    ensures Filter(a + b, keep) == Filter(a, keep) + Filter(b, keep)
    decreases |a|
  {
    if a == [] {
      assert a + b == b;
    } else {
      assert (a + b)[0] == a[0];
      assert (a + b)[1..] == a[1..] + b;
      FilterAppend(a[1..], b, keep);
    }
  }

  /** Filtering twice, the second time more strictly, is filtering once. */
  lemma {:induction false} FilterOfFilter<T(!new)>(s: seq<T>, first: T -> bool, second: T -> bool)
    requires forall x :: second(x) ==> first(x)
    ensures Filter(Filter(s, first), second) == Filter(s, second)
    decreases |s|
  {
    if s != [] {
      FilterOfFilter(s[1..], first, second);
    }
  }

  lemma {:induction false} FilterKeepsAll<T(!new)>(s: seq<T>, keep: T -> bool)
    requires forall x :: x in s ==> keep(x)
    ensures Filter(s, keep) == s
    decreases |s|
  {
    if s != [] {
      assert s[0] in s;
      forall x | x in s[1..] ensures keep(x) {
        assert x in s;
      }
      FilterKeepsAll(s[1..], keep);
      assert [s[0]] + s[1..] == s;
    }
  }

  lemma FilterDropsAll<T(!new)>(s: seq<T>, keep: T -> bool)
    requires forall x :: x in s ==> !keep(x)
    ensures Filter(s, keep) == []
  {
  }

  /** A filter removes nothing exactly when every row passes it. */
  lemma {:induction false} FilterLength<T(!new)>(s: seq<T>, keep: T -> bool)
    ensures |Filter(s, keep)| == |s| <==> forall x :: x in s ==> keep(x)
    decreases |s|
  {
    if s != [] {
      FilterLength(s[1..], keep);
      if keep(s[0]) {
        if |Filter(s, keep)| == |s| {
          forall x | x in s ensures keep(x) {
            if x != s[0] {
              assert x in s[1..];
            }
          }
        }
      } else {
        assert s[0] in s;
      }
      if forall x :: x in s ==> keep(x) {
        FilterKeepsAll(s, keep);
      }
    }
  }

  /** A filter and its complement split the rows between them. */
  lemma {:induction false} FilterComplement<T(!new)>(s: seq<T>, keep: T -> bool, drop: T -> bool)
    requires forall x :: drop(x) == !keep(x)
    ensures |Filter(s, keep)| + |Filter(s, drop)| == |s|
    decreases |s|
  {
    if s != [] {
      FilterComplement(s[1..], keep, drop);
    }
  }

  /** Filtering keeps every pairwise relation: key order, uniqueness. */
  lemma {:induction false} FilterPairwise<T(!new)>(s: seq<T>, keep: T -> bool, rel: (T, T) -> bool)
    requires Pairwise(s, rel)
    ensures Pairwise(Filter(s, keep), rel)
    decreases |s|
  {
    if s != [] {
      var tail := Filter(s[1..], keep);
      assert Pairwise(s[1..], rel) by {
        forall i, j | 0 <= i < j < |s[1..]| ensures rel(s[1..][i], s[1..][j]) {
          assert s[1..][i] == s[i + 1] && s[1..][j] == s[j + 1];
        }
      }
      FilterPairwise(s[1..], keep, rel);
      if keep(s[0]) {
        var r := [s[0]] + tail;
        forall i, j | 0 <= i < j < |r| ensures rel(r[i], r[j]) {
          if i == 0 {
            assert r[j] in s[1..] by { assert r[j] == tail[j - 1]; }
            var m :| 0 <= m < |s[1..]| && s[1..][m] == r[j];
            assert rel(s[0], s[m + 1]);
          } else {
            assert r[i] == tail[i - 1] && r[j] == tail[j - 1];
          }
        }
      }
    }
  }

  /** Appending a row that every earlier row relates to keeps the relation. */
  lemma PairwiseSnoc<T(!new)>(s: seq<T>, y: T, rel: (T, T) -> bool)
    requires Pairwise(s, rel)
    requires forall x :: x in s ==> rel(x, y)
    ensures Pairwise(s + [y], rel)
  {
    var r := s + [y];
    forall i, j | 0 <= i < j < |r| ensures rel(r[i], r[j]) {
      assert r[i] == s[i];
      if j == |s| {
        assert s[i] in s;
      } else {
        assert r[j] == s[j];
      }
    }
  }

  /** At most one row fails `keep` when no two rows both fail it: the filter
      then removes at most one row. */
  lemma {:induction false} FilterRemovesAtMostOne<T(!new)>(s: seq<T>, keep: T -> bool)
    requires forall i, j :: 0 <= i < j < |s| ==> keep(s[i]) || keep(s[j])
    ensures |Filter(s, keep)| + 1 >= |s|
    decreases |s|
  {
    if s != [] {
      if keep(s[0]) {
        forall i, j | 0 <= i < j < |s[1..]| ensures keep(s[1..][i]) || keep(s[1..][j]) {
          assert s[1..][i] == s[i + 1] && s[1..][j] == s[j + 1];
        }
        FilterRemovesAtMostOne(s[1..], keep);
      } else {
        forall x | x in s[1..] ensures keep(x) {
          var m :| 0 <= m < |s[1..]| && s[1..][m] == x;
          assert keep(s[0]) || keep(s[m + 1]);
        }
        FilterKeepsAll(s[1..], keep);
      }
    }
  }
}
