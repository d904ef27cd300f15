/** `sortByDesc('published_at')` on a collection. PHP 8 sorts stably, so
    articles with the same `published_at` keep their relative order. */
module Ordering {
  import opened ArticleModel

  predicate SortedDesc(s: seq<Article>) {
    forall i, j :: 0 <= i < j < |s| ==> s[i].publishedAt >= s[j].publishedAt
  }

  /** Puts `x` after every element strictly newer than it. */
  function Insert(x: Article, s: seq<Article>): (r: seq<Article>)
    ensures multiset(r) == multiset(s) + multiset{x}
    ensures |r| == |s| + 1
    ensures r[0] == x || (|s| > 0 && r[0] == s[0])
    decreases |s|
  {
    if |s| == 0 || s[0].publishedAt <= x.publishedAt then [x] + s
    else
      assert s == [s[0]] + s[1..];
      [s[0]] + Insert(x, s[1..])
  }

  lemma {:induction false} InsertSorted(x: Article, s: seq<Article>)
    requires SortedDesc(s)
    ensures SortedDesc(Insert(x, s))
    decreases |s|
  {
    if |s| > 0 && s[0].publishedAt > x.publishedAt {
      var rest := Insert(x, s[1..]);
      InsertSorted(x, s[1..]);
      assert s[0].publishedAt >= rest[0].publishedAt;
      var r := [s[0]] + rest;
      forall i, j | 0 <= i < j < |r| ensures r[i].publishedAt >= r[j].publishedAt {
        if i == 0 {
          assert r[j] == rest[j - 1];
          assert rest[0].publishedAt >= rest[j - 1].publishedAt;
        } else {
          assert r[i] == rest[i - 1] && r[j] == rest[j - 1];
        }
      }
    }
  }

  /** The stable descending sort: each element is inserted into the sorted
      rest behind the elements strictly newer than it. */
  function SortDesc(s: seq<Article>): (r: seq<Article>)
    ensures SortedDesc(r)
    ensures multiset(r) == multiset(s)
    ensures |r| == |s|
    decreases |s|
  {
    if |s| == 0 then []
    else
      assert s == [s[0]] + s[1..];
      InsertSorted(s[0], SortDesc(s[1..]));
      Insert(s[0], SortDesc(s[1..]))
  }

  /** The articles published at instant `k`, in their order in `s`. */
  function PublishedAt(s: seq<Article>, k: Timestamp): seq<Article>
    decreases |s|
  {
    if |s| == 0 then []
    else (if s[0].publishedAt == k then [s[0]] else []) + PublishedAt(s[1..], k)
  }

  lemma {:induction false} InsertKeepsTies(x: Article, s: seq<Article>, k: Timestamp)
    requires SortedDesc(s)
    ensures PublishedAt(Insert(x, s), k) ==
            (if x.publishedAt == k then [x] else []) + PublishedAt(s, k)
    decreases |s|
  {
    if |s| == 0 || s[0].publishedAt <= x.publishedAt {
      assert Insert(x, s) == [x] + s;
      assert ([x] + s)[1..] == s;
    } else {
      InsertKeepsTies(x, s[1..], k);
      var r := Insert(x, s[1..]);
      assert Insert(x, s) == [s[0]] + r;
      assert ([s[0]] + r)[1..] == r;
      assert PublishedAt([s[0]] + r, k) == (if s[0].publishedAt == k then [s[0]] else []) + PublishedAt(r, k);
      assert PublishedAt(s, k) == (if s[0].publishedAt == k then [s[0]] else []) + PublishedAt(s[1..], k);
    }
  }

  /** Stability: among articles with the same `published_at`, the sorted
      result keeps the order of the input. */
  lemma {:induction false} SortKeepsTies(s: seq<Article>, k: Timestamp)
    ensures PublishedAt(SortDesc(s), k) == PublishedAt(s, k)
    decreases |s|
  {
    if |s| > 0 {
      SortKeepsTies(s[1..], k);
      InsertKeepsTies(s[0], SortDesc(s[1..]), k);
    }
  }

  /** Stability for every timestamp at once. */
  lemma SortKeepsAllTies(s: seq<Article>)
    ensures forall k :: PublishedAt(SortDesc(s), k) == PublishedAt(s, k)
  {
    forall k ensures PublishedAt(SortDesc(s), k) == PublishedAt(s, k) {
      SortKeepsTies(s, k);
    }
  }

  /** The first `k` of a list sorted newest first are its `k` newest: nothing
      left after them is newer than the last of them. */
  lemma SortedPrefixNewest(s: seq<Article>, k: nat)
    requires SortedDesc(s) && 1 <= k <= |s|
    ensures multiset(s[..k]) <= multiset(s)
    ensures forall x :: x in multiset(s) - multiset(s[..k]) ==> x.publishedAt <= s[k - 1].publishedAt
  {
    assert s == s[..k] + s[k..];
    assert multiset(s) - multiset(s[..k]) == multiset(s[k..]);
    forall x | x in multiset(s[k..]) ensures x.publishedAt <= s[k - 1].publishedAt {
      var j :| 0 <= j < |s[k..]| && s[k..][j] == x;
      assert s[k + j] == x;
    }
  }
}
