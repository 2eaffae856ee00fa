/**
 * `results.sort(key=lambda x: x[1], reverse=True)` (desk.py): Python's list sort
 * is stable, and `reverse=True` keeps equal keys in their original order, so the
 * ranking is a stable sort by score, descending.
 */
module Ranking {
  import opened Scoring

  /** Scores never increase along the list. */
  predicate SortedDesc(xs: seq<Entry>)
  {
    forall i, j :: 0 <= i < j < |xs| ==> xs[i].score >= xs[j].score
  }

  /** Place `x` before the first entry whose score it reaches. */
  function Insert(x: Entry, ys: seq<Entry>): (r: seq<Entry>)
    ensures |r| == |ys| + 1
    ensures multiset(r) == multiset(ys) + multiset{x}
    ensures forall k :: 0 <= k < |r| ==> r[k] == x || r[k] in ys
  {
    if ys == [] || x.score >= ys[0].score then [x] + ys
    else
      assert ys == [ys[0]] + ys[1..];
      [ys[0]] + Insert(x, ys[1..])
  }

  lemma {:induction false} InsertSorted(x: Entry, ys: seq<Entry>)
    requires SortedDesc(ys)
    ensures SortedDesc(Insert(x, ys))
  {
    if ys != [] && x.score < ys[0].score {
      var rest := Insert(x, ys[1..]);
      InsertSorted(x, ys[1..]);
      var r := [ys[0]] + rest;
      assert Insert(x, ys) == r;
      forall k | 0 <= k < |rest|
        ensures ys[0].score >= rest[k].score
      {
        if rest[k] != x {
          var m :| 0 <= m < |ys[1..]| && ys[1..][m] == rest[k];
          assert ys[m + 1] == rest[k];
        }
      }
      forall i, j | 0 <= i < j < |r|
        ensures r[i].score >= r[j].score
      {
        if i > 0 {
          assert r[i] == rest[i - 1] && r[j] == rest[j - 1];
        } else {
          assert r[j] == rest[j - 1];
        }
      }
    }
  }

  /** The stable descending sort, as insertion sort from the back. */
  function Rank(xs: seq<Entry>): (r: seq<Entry>)
    ensures SortedDesc(r)
    ensures multiset(r) == multiset(xs)
  {
    if xs == [] then []
    else
      assert xs == [xs[0]] + xs[1..];
      InsertSorted(xs[0], Rank(xs[1..]));
      Insert(xs[0], Rank(xs[1..]))
  }

  /** The entries of `xs` whose score is exactly `s`, in order. */
  function WithScore(xs: seq<Entry>, s: Score): seq<Entry>
  {
    if xs == [] then []
    else (if xs[0].score == s then [xs[0]] else []) + WithScore(xs[1..], s)
  }

  lemma {:induction false} InsertWithScore(x: Entry, ys: seq<Entry>, s: Score)
    requires SortedDesc(ys)
    ensures WithScore(Insert(x, ys), s) == (if x.score == s then [x] else []) + WithScore(ys, s)
  {
    if ys != [] && x.score < ys[0].score {
      InsertWithScore(x, ys[1..], s);
      var r := Insert(x, ys);
      assert r == [ys[0]] + Insert(x, ys[1..]);
      assert r[0] == ys[0] && r[1..] == Insert(x, ys[1..]);
      assert WithScore(r, s) == (if ys[0].score == s then [ys[0]] else []) + WithScore(r[1..], s);
    } else {
      var r := Insert(x, ys);
      assert r == [x] + ys;
      assert r[0] == x && r[1..] == ys;
    }
  }

  /** Stability: entries with equal scores keep their relative order. */
  lemma {:induction false} RankStable(xs: seq<Entry>, s: Score)
    ensures WithScore(Rank(xs), s) == WithScore(xs, s)
  {
    if xs != [] {
      RankStable(xs[1..], s);
      InsertWithScore(xs[0], Rank(xs[1..]), s);
    }
  }

  /** Ranking an already ranked list changes nothing. */
  lemma {:induction false} RankSortedIsIdentity(xs: seq<Entry>)
    requires SortedDesc(xs)
    ensures Rank(xs) == xs
  {
    if xs != [] {
      RankSortedIsIdentity(xs[1..]);
      assert xs == [xs[0]] + xs[1..];
    }
  }

  /** Idempotence: `rank(rank(xs)) == rank(xs)`. */
  lemma RankIdempotent(xs: seq<Entry>)
    ensures Rank(Rank(xs)) == Rank(xs)
  {
    RankSortedIsIdentity(Rank(xs));
  }

  function Scores(xs: seq<Entry>): (r: seq<Score>)
    ensures |r| == |xs|
    ensures forall i :: 0 <= i < |xs| ==> r[i] == xs[i].score
  {
    seq(|xs|, i requires 0 <= i < |xs| => xs[i].score)
  }

  lemma SortedRemove(b: seq<Entry>, i: nat)
    requires SortedDesc(b) && i < |b|
    ensures SortedDesc(b[..i] + b[i + 1..])
  {
    var b' := b[..i] + b[i + 1..];
    forall x, y | 0 <= x < y < |b'|
      ensures b'[x].score >= b'[y].score
    {
      var x' := if x < i then x else x + 1;
      var y' := if y < i then y else y + 1;
      assert b'[x] == b[x'] && b'[y] == b[y'];
    }
  }

  lemma MultisetRemove(a: seq<Entry>, b: seq<Entry>, i: nat)
    requires a != [] && i < |b| && b[i] == a[0]
    requires multiset(a) == multiset(b)
    ensures multiset(a[1..]) == multiset(b[..i] + b[i + 1..])
  {
    assert a == [a[0]] + a[1..];
    assert b == b[..i] + [b[i]] + b[i + 1..];
    assert multiset(b) == multiset(b[..i]) + multiset{b[i]} + multiset(b[i + 1..]);
    assert multiset(b[..i] + b[i + 1..]) == multiset(b[..i]) + multiset(b[i + 1..]);
    assert multiset(a) == multiset{a[0]} + multiset(a[1..]);
    assert multiset(a[1..]) == multiset(a) - multiset{a[0]};
  }

  /** In a descending list whose entry `i` ties with the first, that entry can move to the front without changing the scores. */
  lemma ScoresMoveTiedToFront(b: seq<Entry>, i: nat)
    requires SortedDesc(b) && i < |b| && b[i].score == b[0].score
    ensures Scores(b) == [b[i].score] + Scores(b[..i] + b[i + 1..])
  {
    var b' := b[..i] + b[i + 1..];
    var r := [b[i].score] + Scores(b');
    forall k | 0 <= k < |b|
      ensures Scores(b)[k] == r[k]
    {
      if 0 < k <= i {
        assert b'[k - 1] == b[k - 1];
        assert b[0].score >= b[k].score >= b[i].score;
        assert b[0].score >= b[k - 1].score >= b[i].score;
      } else if k > i {
        assert b'[k - 1] == b[k];
      }
    }
  }

  lemma ScoresCons(a: seq<Entry>)
    requires a != []
    ensures Scores(a) == [a[0].score] + Scores(a[1..])
  {
  }

  /**
   * Two descending orders of the same entries agree on every position's score: the
   * scores of a ranked list do not depend on the order its entries arrived in,
   * only which of several equally scored paths comes first does.
   */
  lemma {:induction false} SortedPermutationsShareScores(a: seq<Entry>, b: seq<Entry>)
    requires SortedDesc(a) && SortedDesc(b)
    requires multiset(a) == multiset(b)
    ensures Scores(a) == Scores(b)
    decreases |a|
  {
    assert |a| == |multiset(a)| == |multiset(b)| == |b|;
    if a != [] {
      assert a[0] in multiset(b);
      var i :| 0 <= i < |b| && b[i] == a[0];
      assert b[0] in multiset(a);
      var j :| 0 <= j < |a| && a[j] == b[0];
      assert b[0].score == a[0].score;
      MultisetRemove(a, b, i);
      SortedRemove(b, i);
      SortedPermutationsShareScores(a[1..], b[..i] + b[i + 1..]);
      ScoresMoveTiedToFront(b, i);
      ScoresCons(a);
    }
  }
}
