/**
 * Ordering indices by a score, as numpy's argsort, argpartition and Python's stable sorted do in
 * recommendation_engine/. Indices are ordered by decreasing key and, among equal keys, by
 * increasing index. For Python's stable `sorted(..., reverse=True)` over items listed in
 * first-appearance order this tie rule is exactly the source's; numpy leaves the order of ties
 * unspecified, so what is stated about numpy's selections (IsTopSelection) does not depend on it.
 */
module Ranking {
  import opened Seqs

  /** A similarity score or a review count; only the order of the values matters. */
  type Score = real

  /** The maximum number of recommendations either engine returns. */
  const TOP_N: nat := 10

  predicate Indices(key: seq<Score>, s: seq<nat>)
  {
    forall i :: 0 <= i < |s| ==> s[i] < |key|
  }

  /** a comes before b: a higher key, or an equal key and a smaller index. */
  predicate Precedes(key: seq<Score>, a: nat, b: nat)
    requires a < |key| && b < |key|
  {
    key[a] > key[b] || (key[a] == key[b] && a < b)
  }

  /** Strictly ordered by Precedes (so also free of repeats). */
  predicate SortedBy(key: seq<Score>, s: seq<nat>)
    requires Indices(key, s)
  {
    forall i, j :: 0 <= i < j < |s| ==> Precedes(key, s[i], s[j])
  }

  lemma PrecedesTransitive(key: seq<Score>, a: nat, b: nat, c: nat)
    requires a < |key| && b < |key| && c < |key|
    requires Precedes(key, a, b) && Precedes(key, b, c)
    ensures Precedes(key, a, c)
  {
  }

  /** An index that precedes every element of a sorted list can be put in front of it. */
  lemma PrependSorted(key: seq<Score>, y: nat, s: seq<nat>)
    requires y < |key| && Indices(key, s) && SortedBy(key, s)
    requires forall k :: 0 <= k < |s| ==> Precedes(key, y, s[k])
    ensures Indices(key, [y] + s) && SortedBy(key, [y] + s)
  {
    var r := [y] + s;
    forall i, j | 0 <= i < j < |r| ensures Precedes(key, r[i], r[j]) {
      if i == 0 {
        assert r[j] == s[j - 1];
      } else {
        assert r[i] == s[i - 1] && r[j] == s[j - 1];
      }
    }
  }

  /** The head of a sorted list precedes every element of its tail with x added. */
  lemma HeadPrecedesRest(key: seq<Score>, s: seq<nat>, x: nat, rest: seq<nat>)
    requires s != [] && x < |key| && Indices(key, s) && SortedBy(key, s)
    requires Precedes(key, s[0], x)
    requires Indices(key, rest) && multiset(rest) == multiset(s[1..]) + multiset{x}
    ensures forall k :: 0 <= k < |rest| ==> Precedes(key, s[0], rest[k])
  {
    forall k | 0 <= k < |rest| ensures Precedes(key, s[0], rest[k]) {
      assert rest[k] in multiset(rest);
      if rest[k] != x {
        assert rest[k] in multiset(s[1..]);
        assert rest[k] in s[1..];
        var m :| 0 <= m < |s[1..]| && s[1..][m] == rest[k];
        assert s[m + 1] == rest[k];
      }
    }
  }

  /** An index that precedes the head of a sorted list precedes all of it. */
  lemma PrecedesAll(key: seq<Score>, x: nat, s: seq<nat>)
    requires s != [] && x < |key| && Indices(key, s) && SortedBy(key, s)
    requires Precedes(key, x, s[0])
    ensures forall k :: 0 <= k < |s| ==> Precedes(key, x, s[k])
  {
    forall k | 0 < k < |s| ensures Precedes(key, x, s[k]) {
      PrecedesTransitive(key, x, s[0], s[k]);
    }
  }

  /** Places x among the sorted indices s. */
  function Insert(key: seq<Score>, x: nat, s: seq<nat>): (r: seq<nat>)
    requires x < |key| && Indices(key, s) && SortedBy(key, s) && x !in s
    ensures Indices(key, r) && SortedBy(key, r)
    ensures multiset(r) == multiset(s) + multiset{x}
  {
    if s == [] then [x]
    else if Precedes(key, s[0], x) then
      assert SortedBy(key, s[1..]) by {
        forall i, j | 0 <= i < j < |s[1..]| ensures Precedes(key, s[1..][i], s[1..][j]) {
          assert s[1..][i] == s[i + 1] && s[1..][j] == s[j + 1];
        }
      }
      var rest := Insert(key, x, s[1..]);
      HeadPrecedesRest(key, s, x, rest);
      PrependSorted(key, s[0], rest);
      assert s == [s[0]] + s[1..];
      [s[0]] + rest
    else
      assert x != s[0];
      PrecedesAll(key, x, s);
      PrependSorted(key, x, s);
      [x] + s
  }

  /** Sorts a list of distinct indices by Precedes: a permutation of s, strictly ordered. */
  function {:induction false} Sort(key: seq<Score>, s: seq<nat>): (r: seq<nat>)
    requires Indices(key, s) && Distinct(s)
    ensures Indices(key, r) && SortedBy(key, r)
    ensures multiset(r) == multiset(s)
    decreases |s|
  {
    if s == [] then []
    else
      var init, last := s[..|s| - 1], s[|s| - 1];
      assert s == init + [last];
      assert Distinct(init) by {
        forall i, j | 0 <= i < j < |init| ensures init[i] != init[j] {
          assert init[i] == s[i] && init[j] == s[j];
        }
      }
      var sorted := Sort(key, init);
      assert last !in init by {
        forall k | 0 <= k < |init| ensures init[k] != last {
          assert init[k] == s[k];
        }
      }
      assert last !in sorted by {
        assert last !in multiset(init);
      }
      Insert(key, last, sorted)
  }

  /** A strictly ordered list holds no index twice. */
  lemma SortedDistinct(key: seq<Score>, s: seq<nat>)
    requires Indices(key, s) && SortedBy(key, s)
    ensures Distinct(s)
  {
    forall i, j | 0 <= i < j < |s| ensures s[i] != s[j] {
      assert Precedes(key, s[i], s[j]);
    }
  }

  /** All indices of key, sorted. */
  function SortAll(key: seq<Score>): (r: seq<nat>)
    ensures |r| == |key| && Indices(key, r) && SortedBy(key, r) && Distinct(r)
    ensures forall j :: 0 <= j < |key| ==> j in r
  {
    var all := Range(|key|);
    assert Distinct(all);
    var r := Sort(key, all);
    assert |r| == |multiset(r)| == |multiset(all)| == |key|;
    forall j | 0 <= j < |key| ensures j in r {
      assert all[j] == j;
      assert j in multiset(all);
    }
    SortedDistinct(key, r);
    r
  }

  /**
   * A selection of the k best indices, in the sense that does not depend on how ties are broken:
   * min(|key|, k) distinct indices, in non-increasing key order, and every index left out has a
   * key no greater than any index taken.
   */
  predicate IsTopSelection(key: seq<Score>, r: seq<nat>, k: nat)
  {
    && |r| == Min(|key|, k)
    && Indices(key, r)
    && Distinct(r)
    && (forall i, j :: 0 <= i < j < |r| ==> key[r[i]] >= key[r[j]])
    && (forall i, j :: 0 <= i < |r| && 0 <= j < |key| && j !in r ==> key[j] <= key[r[i]])
  }

  /** The first k indices of the full descending sort are a top-k selection. */
  lemma PrefixIsTop(key: seq<Score>, k: nat)
    ensures IsTopSelection(key, SortAll(key)[..Min(|key|, k)], k)
  {
    var all := SortAll(key);
    var r := all[..Min(|key|, k)];
    assert Distinct(r) by {
      forall i, j | 0 <= i < j < |r| ensures r[i] != r[j] {
        assert r[i] == all[i] && r[j] == all[j];
      }
    }
    forall i, j | 0 <= i < |r| && 0 <= j < |key| && j !in r ensures key[j] <= key[r[i]] {
      assert j in all;
      var p :| 0 <= p < |all| && all[p] == j;
      assert Precedes(key, all[i], all[p]);
    }
  }

  /** numpy's argpartition(-key, k)[:k]: the k indices with the highest keys, in no particular order. */
  function ArgPartition(key: seq<Score>, k: nat): (r: seq<nat>)
    requires k <= |key|
    ensures |r| == k && Indices(key, r) && Distinct(r)
    ensures forall i, j :: 0 <= i < |r| && 0 <= j < |key| && j !in r ==> key[j] <= key[r[i]]
  {
    PrefixIsTop(key, k);
    SortAll(key)[..k]
  }

  /**
   * Lines 115-120 of tfidf_reviews.py: with at most TOP_N scores, all indices by descending score;
   * otherwise the TOP_N best found by argpartition, then sorted by descending score.
   */
  function TopIndices(scores: seq<Score>): (r: seq<nat>)
    ensures IsTopSelection(scores, r, TOP_N)
  {
    if |scores| <= TOP_N then
      var r := SortAll(scores);
      forall i, j | 0 <= i < j < |r| ensures scores[r[i]] >= scores[r[j]] {
        assert Precedes(scores, r[i], r[j]);
      }
      r
    else
      var part := ArgPartition(scores, TOP_N);
      SortedPartitionIsTop(scores, part, TOP_N);
      Sort(scores, part)
  }

  /** Sorting the k indices a partition picked gives a top-k selection. */
  lemma SortedPartitionIsTop(key: seq<Score>, part: seq<nat>, k: nat)
    requires k <= |key|
    requires |part| == k && Indices(key, part) && Distinct(part)
    requires forall i, j :: 0 <= i < |part| && 0 <= j < |key| && j !in part ==> key[j] <= key[part[i]]
    ensures IsTopSelection(key, Sort(key, part), k)
  {
    var r := Sort(key, part);
    assert |r| == |multiset(r)| == |multiset(part)| == k;
    forall j ensures j in r <==> j in part {
      assert j in r <==> j in multiset(r);
      assert j in part <==> j in multiset(part);
    }
    forall i, j | 0 <= i < j < |r| ensures key[r[i]] >= key[r[j]] {
      assert Precedes(key, r[i], r[j]);
    }
    forall i, j | 0 <= i < |r| && 0 <= j < |key| && j !in r ensures key[j] <= key[r[i]] {
      assert r[i] in part;
      var m :| 0 <= m < |part| && part[m] == r[i];
    }
    SortedDistinct(key, r);
  }

  /** tfidf.py lines 54-55: argsort()[::-1][:TOP_N], the first TOP_N indices of the descending order. */
  function FirstByScore(scores: seq<Score>): (r: seq<nat>)
    ensures IsTopSelection(scores, r, TOP_N)
  {
    PrefixIsTop(scores, TOP_N);
    SortAll(scores)[..Min(|scores|, TOP_N)]
  }
}
