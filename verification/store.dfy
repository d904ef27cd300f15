/** The articles table as seen through `Article::updateOrCreate(['url' => ...], ...)`:
    rows in primary-key order, at most one row per url, and a url-keyed map
    view in which the last write wins. */
module ArticleStore {
  import opened Wrappers
  import opened ArticleModel

  /** The rows of the articles table in primary-key order. */
  type Table = seq<Article>

  /** At most one row per url. */
  predicate UniqueUrls(t: Table) {
    forall i, j :: 0 <= i < j < |t| ==> t[i].url != t[j].url
  }

  function Urls(t: Table): set<string> {
    set i | 0 <= i < |t| :: t[i].url
  }

  /** The url-keyed view of a sequence of rows: a later row replaces an
      earlier one with the same url. */
  function AsMap(t: Table): map<string, Article>
    decreases |t|
  {
    if |t| == 0 then map[] else AsMap(t[..|t| - 1])[t[|t| - 1].url := t[|t| - 1]]
  }

  /** The position of the row with url `u`: `where('url', $u)->first()`. */
  function Find(t: Table, u: string): (r: Option<nat>)
    ensures r.Some? ==> r.value < |t| && t[r.value].url == u
    ensures r.None? ==> u !in Urls(t)
    decreases |t|
  {
    if |t| == 0 then None
    else if t[0].url == u then Some(0)
    else match Find(t[1..], u)
      case None => (assert forall i :: 1 <= i < |t| ==> t[i] == t[1..][i - 1]; None)
      case Some(i) => Some(i + 1)
  }

  /** One `updateOrCreate`: the existing row with that url is replaced in
      place, otherwise a row is appended. */
  function Upsert(t: Table, a: Article): (r: Table)
    ensures UniqueUrls(t) ==> UniqueUrls(r)
    ensures UniqueUrls(t) ==> AsMap(r) == AsMap(t)[a.url := a]
    ensures a.url in Urls(t) ==> |r| == |t|
    ensures a.url !in Urls(t) ==> |r| == |t| + 1
  {
    match Find(t, a.url)
    case Some(i) =>
      AsMapReplace(t, i, a); t[i := a]
    case None =>
      (assert (t + [a])[..|t|] == t; t + [a])
  }

  /** Replacing the row that already has a url updates the map view at that url. */
  lemma {:induction false} AsMapReplace(t: Table, i: nat, a: Article)
    requires i < |t| && t[i].url == a.url
    ensures UniqueUrls(t) ==> AsMap(t[i := a]) == AsMap(t)[a.url := a]
    decreases |t|
  {
    if UniqueUrls(t) {
      var n := |t| - 1;
      if i == n {
        assert t[i := a][..n] == t[..n];
      } else {
        var front := t[..n];
        AsMapReplace(front, i, a);
        assert t[i := a][..n] == front[i := a];
        assert t[n].url != a.url;
      }
    }
  }

  /** The map view of a sequence that starts with `a`: everything after `a` wins. */
  lemma {:induction false} AsMapCons(a: Article, s: Table)
    ensures AsMap([a] + s) == map[a.url := a] + AsMap(s)
    decreases |s|
  {
    if |s| == 0 {
      assert ([a] + s)[..0] == [];
    } else {
      var n := |s| - 1;
      AsMapCons(a, s[..n]);
      assert ([a] + s)[..|[a] + s| - 1] == [a] + s[..n];
    }
  }

  lemma AsMapKeys(t: Table)
    ensures AsMap(t).Keys == Urls(t)
    decreases |t|
  {
    if |t| > 0 {
      var n := |t| - 1;
      AsMapKeys(t[..n]);
      assert Urls(t) == Urls(t[..n]) + {t[n].url} by {
        forall u | u in Urls(t) ensures u in Urls(t[..n]) + {t[n].url} {
          var i :| 0 <= i < |t| && t[i].url == u;
          if i < n { assert t[..n][i] == t[i]; }
        }
        forall u | u in Urls(t[..n]) ensures u in Urls(t) {
          var i :| 0 <= i < n && t[..n][i].url == u;
          assert t[i].url == u;
        }
      }
    }
  }

  /** A row that no later row shares a url with is what the map view holds for
      that url. */
  lemma {:induction false} AsMapLast(t: Table, i: nat)
    requires i < |t|
    requires forall j :: i < j < |t| ==> t[j].url != t[i].url
    ensures t[i].url in AsMap(t) && AsMap(t)[t[i].url] == t[i]
    decreases |t|
  {
    var n := |t| - 1;
    if i < n {
      AsMapLast(t[..n], i);
    }
  }

  /** The foreach of `updateOrCreate` calls over a batch. */
  function UpsertAll(t: Table, batch: seq<Article>): Table
    decreases |batch|
  {
    if |batch| == 0 then t else UpsertAll(Upsert(t, batch[0]), batch[1..])
  }

  lemma UpdateThenUnion(m: map<string, Article>, a: Article, n: map<string, Article>)
    ensures m[a.url := a] + n == m + (map[a.url := a] + n)
  {
  }

  lemma {:induction false} UpsertAllMap(t: Table, batch: seq<Article>)
    requires UniqueUrls(t)
    ensures UniqueUrls(UpsertAll(t, batch))
    ensures AsMap(UpsertAll(t, batch)) == AsMap(t) + AsMap(batch)
    decreases |batch|
  {
    if |batch| == 0 {
      assert AsMap(batch) == map[];
    } else {
      var a := batch[0];
      var rest := batch[1..];
      var t1 := Upsert(t, a);
      assert AsMap(t1) == AsMap(t)[a.url := a];
      assert UpsertAll(t, batch) == UpsertAll(t1, rest);
      UpsertAllMap(t1, rest);
      AsMapCons(a, rest);
      assert batch == [a] + rest;
      assert AsMap(batch) == map[a.url := a] + AsMap(rest);
      UpdateThenUnion(AsMap(t), a, AsMap(rest));
    }
  }

  /** Upserting a batch: the table still has one row per url, and its urls are
      the old ones plus the batch's; for each url of the batch the row is the
      batch's last article with that url; every other row is unchanged. */
  lemma UpsertBatch(t: Table, batch: seq<Article>)
    requires UniqueUrls(t)
    ensures UniqueUrls(UpsertAll(t, batch))
    ensures AsMap(UpsertAll(t, batch)).Keys == AsMap(t).Keys + Urls(batch)
    ensures forall i :: 0 <= i < |batch| && (forall j :: i < j < |batch| ==> batch[j].url != batch[i].url) ==>
              AsMap(UpsertAll(t, batch))[batch[i].url] == batch[i]
    ensures forall u :: u in AsMap(t) && u !in Urls(batch) ==> AsMap(UpsertAll(t, batch))[u] == AsMap(t)[u]
  {
    UpsertAllMap(t, batch);
    AsMapKeys(batch);
    forall i | 0 <= i < |batch| && (forall j :: i < j < |batch| ==> batch[j].url != batch[i].url)
      ensures AsMap(UpsertAll(t, batch))[batch[i].url] == batch[i]
    {
      AsMapLast(batch, i);
    }
  }

  /** Upserting the same url twice keeps one row, with the second write's values. */
  lemma OverwriteSameUrl(t: Table, a: Article, b: Article)
    requires UniqueUrls(t)
    requires a.url == b.url
    ensures UniqueUrls(Upsert(Upsert(t, a), b))
    ensures AsMap(Upsert(Upsert(t, a), b)) == AsMap(t)[b.url := b]
    ensures |Upsert(Upsert(t, a), b)| == |Upsert(t, a)|
  {
    var t1 := Upsert(t, a);
    assert a.url in AsMap(t1);
    AsMapKeys(t1);
  }

  /** The number of leading writes that completed before the first one that threw. */
  function Completed(writes: seq<Option<Article>>): (k: nat)
    ensures k <= |writes|
    ensures forall i :: 0 <= i < k ==> writes[i].Some?
    ensures k < |writes| ==> writes[k].None?
    decreases |writes|
  {
    if |writes| == 0 || writes[0].None? then 0
    else 1 + Completed(writes[1..])
  }

  lemma CompletedAll(writes: seq<Option<Article>>)
    ensures Completed(writes) == |writes| <==> forall i :: 0 <= i < |writes| ==> writes[i].Some?
  {
  }

  function Values(writes: seq<Option<Article>>): (r: seq<Article>)
    requires forall i :: 0 <= i < |writes| ==> writes[i].Some?
    ensures |r| == |writes| && forall i :: 0 <= i < |r| ==> writes[i] == Some(r[i])
  {
    seq(|writes|, i requires 0 <= i < |writes| => writes[i].value)
  }

  /** A first write that completes is upserted before the rest. */
  lemma IngestStep(t: Table, writes: seq<Option<Article>>)
    requires |writes| > 0 && writes[0].Some?
    ensures UpsertAll(t, Values(writes[..Completed(writes)]))
            == UpsertAll(Upsert(t, writes[0].value), Values(writes[1..][..Completed(writes[1..])]))
  {
    var v := Values(writes[..Completed(writes)]);
    var rest := Values(writes[1..][..Completed(writes[1..])]);
    assert v == [writes[0].value] + rest;
    assert v[1..] == rest;
  }

  /** The `foreach ... updateOrCreate ... push` loop of an adapter. Each element
      is the row to write, or `None` when building its attributes threw
      (an unparseable date). A throw ends the loop: the writes before it stay
      in the table and the adapter answers `false` (`None`). Otherwise the
      answer holds one model per input, in input order. */
  function Ingest(t: Table, writes: seq<Option<Article>>): (r: (Table, Option<seq<Article>>))
    ensures r.0 == UpsertAll(t, Values(writes[..Completed(writes)]))
    ensures r.1.Some? <==> Completed(writes) == |writes|
    ensures r.1.Some? <==> forall i :: 0 <= i < |writes| ==> writes[i].Some?
    ensures r.1.Some? ==> |r.1.value| == |writes| && forall i :: 0 <= i < |writes| ==> writes[i] == Some(r.1.value[i])
    decreases |writes|
  {
    CompletedAll(writes);
    if |writes| == 0 then (t, Some([]))
    else match writes[0]
      case None => (t, None)
      case Some(a) =>
        var (t', created) := Ingest(Upsert(t, a), writes[1..]);
        IngestStep(t, writes);
        assert forall i :: 1 <= i < |writes| ==> writes[i] == writes[1..][i - 1];
        (t', if created.Some? then Some([a] + created.value) else None)
  }

  /** When no write throws, the table gains exactly the returned models, in order. */
  lemma IngestAnswerIsUpserted(t: Table, writes: seq<Option<Article>>)
    ensures Ingest(t, writes).1.Some? ==> Ingest(t, writes).0 == UpsertAll(t, Ingest(t, writes).1.value)
  {
    var r := Ingest(t, writes);
    if r.1.Some? {
      assert writes[..Completed(writes)] == writes;
      assert Values(writes) == r.1.value;
    }
  }
}
