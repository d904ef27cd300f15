/** The where-chain `ArticleController::index` builds on `Article::query()`.
    Laravel appends every `where` with AND and every `orWhereJsonContains`
    with OR into one flat list, and SQL binds AND tighter than OR, so the
    chain means: some maximal run of AND-joined clauses holds entirely. */
module QueryFilter {
  import opened Wrappers
  import opened Text
  import opened ArticleModel
  import Json

  datatype Connector = And | Or

  datatype Condition =
    | TitleLike(needle: string)        // title LIKE '%needle%'
    | AuthorLike(needle: string)       // author LIKE '%needle%'
    | CategoryIs(category: string)
    | SourceIs(source: string)
    | TagsContain(tag: string)         // JSON_CONTAINS(tags, '"tag"')
    | PublishedFrom(bound: Timestamp)  // published_at >= bound
    | PublishedUntil(bound: Timestamp) // published_at <= bound

  datatype Clause = Clause(connector: Connector, condition: Condition)

  /** The library functions the filter relies on, as inputs: the collation's
      `LIKE '%needle%'`, Carbon's `parse(...)->startOfDay()` and
      `->endOfDay()`, and `Str::title`. */
  datatype Library = Library(
    like: (string, string) -> bool,
    startOfDay: string -> Timestamp,
    endOfDay: string -> Timestamp,
    titleCase: string -> string)

  /** MySQL `JSON_CONTAINS(doc, '"tag"')`: a string contains a candidate
      string when equal to it, a list when one of its members does. */
  predicate JsonContains(doc: Json.Json, tag: string) {
    match doc
    case JNull => false
    case JString(s) => s == tag
    case JArray(items) => exists i :: 0 <= i < |items| && JsonContains(items[i], tag)
  }

  predicate Holds(c: Condition, a: Article, lib: Library) {
    match c
    case TitleLike(n) => a.title.Some? && lib.like(a.title.value, n)
    case AuthorLike(n) => lib.like(a.author, n)
    case CategoryIs(x) => a.category == x
    case SourceIs(x) => a.source == x
    case TagsContain(x) => a.Tags().Some? && JsonContains(a.Tags().value, x)
    case PublishedFrom(b) => a.publishedAt >= b
    case PublishedUntil(b) => a.publishedAt <= b
  }

  /** Reads the rest of a chain: `done` is whether an earlier AND-run held,
      `run` whether the current one holds so far. */
  predicate Scan(rest: seq<Clause>, done: bool, run: bool, a: Article, lib: Library)
    decreases |rest|
  {
    if |rest| == 0 then done || run
    else if rest[0].connector == Or then Scan(rest[1..], done || run, Holds(rest[0].condition, a, lib), a, lib)
    else Scan(rest[1..], done, run && Holds(rest[0].condition, a, lib), a, lib)
  }

  /** Whether a row satisfies the chain's WHERE clause. Laravel drops the
      first clause's connector; an empty chain has no WHERE clause. */
  predicate Matches(chain: seq<Clause>, a: Article, lib: Library) {
    |chain| == 0 || Scan(chain[1..], false, Holds(chain[0].condition, a, lib), a, lib)
  }

  predicate AllAnd(cs: seq<Clause>) {
    forall i :: 0 <= i < |cs| ==> cs[i].connector == And
  }

  predicate AllHold(cs: seq<Clause>, a: Article, lib: Library) {
    forall i :: 0 <= i < |cs| ==> Holds(cs[i].condition, a, lib)
  }

  predicate AnyHolds(cs: seq<Clause>, a: Article, lib: Library) {
    exists i :: 0 <= i < |cs| && Holds(cs[i].condition, a, lib)
  }

  /** A run of AND clauses extends the current run. */
  lemma {:induction false} ScanAnds(cs: seq<Clause>, done: bool, run: bool, a: Article, lib: Library)
    requires AllAnd(cs)
    ensures Scan(cs, done, run, a, lib) == (done || (run && AllHold(cs, a, lib)))
    decreases |cs|
  {
    if |cs| > 0 {
      ScanAnds(cs[1..], done, run && Holds(cs[0].condition, a, lib), a, lib);
      assert AllHold(cs, a, lib) == (Holds(cs[0].condition, a, lib) && AllHold(cs[1..], a, lib)) by {
        if Holds(cs[0].condition, a, lib) && AllHold(cs[1..], a, lib) {
          forall i | 0 <= i < |cs| ensures Holds(cs[i].condition, a, lib) {
            if i > 0 { assert cs[i] == cs[1..][i - 1]; }
          }
        }
      }
    }
  }

  /** A non-empty run of OR clauses followed by AND clauses: each OR clause
      but the last stands alone; the last joins the AND clauses after it. */
  lemma {:induction false} ScanOrsThenAnds(ors: seq<Clause>, post: seq<Clause>, done: bool, run: bool, a: Article, lib: Library)
    requires |ors| >= 1
    requires forall i :: 0 <= i < |ors| ==> ors[i].connector == Or
    requires AllAnd(post)
    ensures Scan(ors + post, done, run, a, lib) ==
            (done || run || AnyHolds(ors[..|ors| - 1], a, lib)
             || (Holds(ors[|ors| - 1].condition, a, lib) && AllHold(post, a, lib)))
    decreases |ors|
  {
    var c := ors[0].condition;
    assert (ors + post)[1..] == ors[1..] + post;
    if |ors| == 1 {
      assert ors[1..] + post == post;
      ScanAnds(post, done || run, Holds(c, a, lib), a, lib);
      assert ors[..0] == [];
    } else {
      ScanOrsThenAnds(ors[1..], post, done || run, Holds(c, a, lib), a, lib);
      var front := ors[..|ors| - 1];
      assert ors[1..][..|ors[1..]| - 1] == front[1..];
      assert ors[1..][|ors[1..]| - 1] == ors[|ors| - 1];
      assert AnyHolds(front, a, lib) == (Holds(c, a, lib) || AnyHolds(front[1..], a, lib)) by {
        if AnyHolds(front, a, lib) {
          var i :| 0 <= i < |front| && Holds(front[i].condition, a, lib);
          if i > 0 { assert front[1..][i - 1] == front[i]; }
        }
        if AnyHolds(front[1..], a, lib) {
          var i :| 0 <= i < |front[1..]| && Holds(front[1..][i].condition, a, lib);
          assert front[i + 1] == front[1..][i];
        }
      }
    }
  }

  /** An all-AND chain holds exactly when every clause holds. */
  lemma MatchesAnds(chain: seq<Clause>, a: Article, lib: Library)
    requires AllAnd(chain)
    ensures Matches(chain, a, lib) <==> AllHold(chain, a, lib)
  {
    if |chain| > 0 {
      ScanAnds(chain[1..], false, Holds(chain[0].condition, a, lib), a, lib);
      if AllHold(chain[1..], a, lib) && Holds(chain[0].condition, a, lib) {
        forall i | 0 <= i < |chain| ensures Holds(chain[i].condition, a, lib) {
          if i > 0 { assert chain[i] == chain[1..][i - 1]; }
        }
      }
    }
  }

  /** AND clauses, then OR clauses, then AND clauses, the first run non-empty:
      the row matches when the first run holds, or any OR clause but the last
      holds, or the last OR clause and the final run both hold. */
  lemma MatchesAndsOrsAnds(pre: seq<Clause>, ors: seq<Clause>, post: seq<Clause>, a: Article, lib: Library)
    requires |pre| >= 1 && AllAnd(pre[1..])
    requires |ors| >= 1 && forall i :: 0 <= i < |ors| ==> ors[i].connector == Or
    requires AllAnd(post)
    ensures Matches(pre + ors + post, a, lib) <==>
            (AllHold(pre, a, lib) || AnyHolds(ors[..|ors| - 1], a, lib)
             || (Holds(ors[|ors| - 1].condition, a, lib) && AllHold(post, a, lib)))
  {
    var chain := pre + ors + post;
    var first := Holds(pre[0].condition, a, lib);
    assert chain[1..] == pre[1..] + (ors + post);
    ScanAndsThen(pre[1..], ors + post, false, first, a, lib);
    ScanAnds(pre[1..], false, first, a, lib);
    ScanOrsThenAnds(ors, post, false, first && AllHold(pre[1..], a, lib), a, lib);
    assert AllHold(pre, a, lib) == (first && AllHold(pre[1..], a, lib)) by {
      if first && AllHold(pre[1..], a, lib) {
        forall i | 0 <= i < |pre| ensures Holds(pre[i].condition, a, lib) {
          if i > 0 { assert pre[i] == pre[1..][i - 1]; }
        }
      }
    }
  }

  /** Scanning AND clauses and then more of a chain: the AND clauses only
      extend the current run. */
  lemma {:induction false} ScanAndsThen(cs: seq<Clause>, more: seq<Clause>, done: bool, run: bool, a: Article, lib: Library)
    requires AllAnd(cs)
    ensures Scan(cs + more, done, run, a, lib) == Scan(more, done, run && AllHold(cs, a, lib), a, lib)
    decreases |cs|
  {
    if |cs| == 0 {
      assert cs + more == more;
    } else {
      assert (cs + more)[1..] == cs[1..] + more;
      ScanAndsThen(cs[1..], more, done, run && Holds(cs[0].condition, a, lib), a, lib);
      assert AllHold(cs, a, lib) == (Holds(cs[0].condition, a, lib) && AllHold(cs[1..], a, lib)) by {
        if Holds(cs[0].condition, a, lib) && AllHold(cs[1..], a, lib) {
          forall i | 0 <= i < |cs| ensures Holds(cs[i].condition, a, lib) {
            if i > 0 { assert cs[i] == cs[1..][i - 1]; }
          }
        }
      }
    }
  }

  // ------------------------------------------------------------ the index chain

  function AndIf(filled: bool, c: Condition): seq<Clause> {
    if filled then [Clause(And, c)] else []
  }

  /** The clauses before the tags: title, author, category, source. */
  function FilterClauses(input: map<string, Option<string>>): (r: seq<Clause>)
    ensures AllAnd(r)
  {
    AndIf(Filled(input, "search"), TitleLike(Lookup(input, "search").GetOr("")))
    + AndIf(Filled(input, "author"), AuthorLike(Lookup(input, "author").GetOr("")))
    + AndIf(Filled(input, "category"), CategoryIs(Lookup(input, "category").GetOr("")))
    + AndIf(Filled(input, "source"), SourceIs(Lookup(input, "source").GetOr("")))
  }

  /** One OR clause per comma-separated piece of `tags`, title-cased. */
  function TagClauses(input: map<string, Option<string>>, lib: Library): (r: seq<Clause>)
    ensures Filled(input, "tags") ==> |r| == |Split(Lookup(input, "tags").value, ',')|
    ensures !Filled(input, "tags") ==> r == []
    ensures forall i :: 0 <= i < |r| ==> r[i].connector == Or
  {
    if Filled(input, "tags") then
      var pieces := Split(Lookup(input, "tags").value, ',');
      seq(|pieces|, i requires 0 <= i < |pieces| => Clause(Or, TagsContain(lib.titleCase(pieces[i]))))
    else []
  }

  /** The date bounds after the tags: start of the `from` day, end of the `to` day. */
  function DateClauses(input: map<string, Option<string>>, lib: Library): (r: seq<Clause>)
    ensures AllAnd(r)
  {
    AndIf(Filled(input, "from"), PublishedFrom(lib.startOfDay(Lookup(input, "from").GetOr(""))))
    + AndIf(Filled(input, "to"), PublishedUntil(lib.endOfDay(Lookup(input, "to").GetOr(""))))
  }

  /** The chain in the order `index` appends it. */
  function IndexChain(input: map<string, Option<string>>, lib: Library): seq<Clause> {
    FilterClauses(input) + TagClauses(input, lib) + DateClauses(input, lib)
  }

  /** Every filled filter holds of the row. */
  predicate FiltersHold(input: map<string, Option<string>>, a: Article, lib: Library) {
    && (Filled(input, "search") ==> a.title.Some? && lib.like(a.title.value, Lookup(input, "search").value))
    && (Filled(input, "author") ==> lib.like(a.author, Lookup(input, "author").value))
    && (Filled(input, "category") ==> a.category == Lookup(input, "category").value)
    && (Filled(input, "source") ==> a.source == Lookup(input, "source").value)
  }

  predicate DatesHold(input: map<string, Option<string>>, a: Article, lib: Library) {
    && (Filled(input, "from") ==> a.publishedAt >= lib.startOfDay(Lookup(input, "from").value))
    && (Filled(input, "to") ==> a.publishedAt <= lib.endOfDay(Lookup(input, "to").value))
  }

  /** The `tags` piece at position `i` matches the row's tags. */
  predicate TagPieceHolds(input: map<string, Option<string>>, i: int, a: Article, lib: Library)
    requires Filled(input, "tags")
  {
    var pieces := Split(Lookup(input, "tags").value, ',');
    0 <= i < |pieces| && a.Tags().Some? && JsonContains(a.Tags().value, lib.titleCase(pieces[i]))
  }

  /** A concatenation of clauses all hold iff both parts all hold. */
  lemma AllHoldConcat(xs: seq<Clause>, ys: seq<Clause>, a: Article, lib: Library)
    ensures AllHold(xs + ys, a, lib) <==> AllHold(xs, a, lib) && AllHold(ys, a, lib)
  {
    if AllHold(xs, a, lib) && AllHold(ys, a, lib) {
      forall i | 0 <= i < |xs + ys| ensures Holds((xs + ys)[i].condition, a, lib) {
        if i >= |xs| { assert (xs + ys)[i] == ys[i - |xs|]; }
      }
    }
    if AllHold(xs + ys, a, lib) {
      forall i | 0 <= i < |xs| ensures Holds(xs[i].condition, a, lib) {
        assert (xs + ys)[i] == xs[i];
      }
      forall i | 0 <= i < |ys| ensures Holds(ys[i].condition, a, lib) {
        assert (xs + ys)[|xs| + i] == ys[i];
      }
    }
  }

  lemma AllAndConcat(xs: seq<Clause>, ys: seq<Clause>)
    requires AllAnd(xs) && AllAnd(ys)
    ensures AllAnd(xs + ys)
  {
    forall i | 0 <= i < |xs + ys| ensures (xs + ys)[i].connector == And {
      if i >= |xs| { assert (xs + ys)[i] == ys[i - |xs|]; }
    }
  }

  lemma AndIfHolds(filled: bool, c: Condition, a: Article, lib: Library)
    ensures AllHold(AndIf(filled, c), a, lib) <==> (filled ==> Holds(c, a, lib))
  {
    if filled { assert AndIf(filled, c)[0] == Clause(And, c); }
  }

  lemma FilterClausesHold(input: map<string, Option<string>>, a: Article, lib: Library)
    ensures AllHold(FilterClauses(input), a, lib) <==> FiltersHold(input, a, lib)
  {
    var s := AndIf(Filled(input, "search"), TitleLike(Lookup(input, "search").GetOr("")));
    var au := AndIf(Filled(input, "author"), AuthorLike(Lookup(input, "author").GetOr("")));
    var c := AndIf(Filled(input, "category"), CategoryIs(Lookup(input, "category").GetOr("")));
    var so := AndIf(Filled(input, "source"), SourceIs(Lookup(input, "source").GetOr("")));
    assert FilterClauses(input) == s + au + c + so;
    AllHoldConcat(s + au + c, so, a, lib);
    AllHoldConcat(s + au, c, a, lib);
    AllHoldConcat(s, au, a, lib);
    AndIfHolds(Filled(input, "search"), TitleLike(Lookup(input, "search").GetOr("")), a, lib);
    AndIfHolds(Filled(input, "author"), AuthorLike(Lookup(input, "author").GetOr("")), a, lib);
    AndIfHolds(Filled(input, "category"), CategoryIs(Lookup(input, "category").GetOr("")), a, lib);
    AndIfHolds(Filled(input, "source"), SourceIs(Lookup(input, "source").GetOr("")), a, lib);
  }

  lemma DateClausesHold(input: map<string, Option<string>>, a: Article, lib: Library)
    ensures AllHold(DateClauses(input, lib), a, lib) <==> DatesHold(input, a, lib)
  {
    var f := AndIf(Filled(input, "from"), PublishedFrom(lib.startOfDay(Lookup(input, "from").GetOr(""))));
    var u := AndIf(Filled(input, "to"), PublishedUntil(lib.endOfDay(Lookup(input, "to").GetOr(""))));
    assert DateClauses(input, lib) == f + u;
    AllHoldConcat(f, u, a, lib);
    AndIfHolds(Filled(input, "from"), PublishedFrom(lib.startOfDay(Lookup(input, "from").GetOr(""))), a, lib);
    AndIfHolds(Filled(input, "to"), PublishedUntil(lib.endOfDay(Lookup(input, "to").GetOr(""))), a, lib);
  }

  /** Without `tags`, a row matches exactly when every filled filter holds:
      title and author contain their text, category and source are equal, and
      the date lies between the start of `from` and the end of `to`. */
  lemma MatchesWithoutTags(input: map<string, Option<string>>, a: Article, lib: Library)
    requires !Filled(input, "tags")
    ensures Matches(IndexChain(input, lib), a, lib) <==> FiltersHold(input, a, lib) && DatesHold(input, a, lib)
  {
    var pre := FilterClauses(input);
    var post := DateClauses(input, lib);
    assert IndexChain(input, lib) == pre + post;
    AllAndConcat(pre, post);
    MatchesAnds(pre + post, a, lib);
    FilterClausesHold(input, a, lib);
    DateClausesHold(input, a, lib);
    AllHoldConcat(pre, post, a, lib);
  }

  /** The tag clause at position `i` holds for a row iff piece `i` matches. */
  lemma TagClauseHolds(input: map<string, Option<string>>, i: int, a: Article, lib: Library)
    requires Filled(input, "tags") && 0 <= i < |TagClauses(input, lib)|
    ensures Holds(TagClauses(input, lib)[i].condition, a, lib) <==> TagPieceHolds(input, i, a, lib)
  {
    var pieces := Split(Lookup(input, "tags").value, ',');
    assert TagClauses(input, lib)[i] == Clause(Or, TagsContain(lib.titleCase(pieces[i])));
  }

  /** The tag clauses but the last hold for a row iff one of those pieces
      matches, and the last clause iff the last piece does. */
  lemma TagClausesHold(input: map<string, Option<string>>, a: Article, lib: Library)
    requires Filled(input, "tags")
    ensures var ors := TagClauses(input, lib);
            var m := |Split(Lookup(input, "tags").value, ',')|;
            && |ors| == m >= 1
            && (AnyHolds(ors[..m - 1], a, lib) <==> exists i :: 0 <= i < m - 1 && TagPieceHolds(input, i, a, lib))
            && (Holds(ors[m - 1].condition, a, lib) <==> TagPieceHolds(input, m - 1, a, lib))
  {
    var ors := TagClauses(input, lib);
    var m := |ors|;
    TagClauseHolds(input, m - 1, a, lib);
    if AnyHolds(ors[..m - 1], a, lib) {
      var i :| 0 <= i < m - 1 && Holds(ors[..m - 1][i].condition, a, lib);
      assert ors[..m - 1][i] == ors[i];
      TagClauseHolds(input, i, a, lib);
    }
    if exists i :: 0 <= i < m - 1 && TagPieceHolds(input, i, a, lib) {
      var i :| 0 <= i < m - 1 && TagPieceHolds(input, i, a, lib);
      assert ors[..m - 1][i] == ors[i];
      TagClauseHolds(input, i, a, lib);
    }
  }

  /** The shape of the chain with `tags` and a filled `search`, in clause terms. */
  lemma IndexChainWithTags(input: map<string, Option<string>>, a: Article, lib: Library)
    requires Filled(input, "tags") && Filled(input, "search")
    ensures var ors := TagClauses(input, lib);
            var m := |Split(Lookup(input, "tags").value, ',')|;
            && |ors| == m >= 1
            && (Matches(IndexChain(input, lib), a, lib) <==>
                 (|| AllHold(FilterClauses(input), a, lib)
                  || AnyHolds(ors[..m - 1], a, lib)
                  || (Holds(ors[m - 1].condition, a, lib) && AllHold(DateClauses(input, lib), a, lib))))
  {
    var pre := FilterClauses(input);
    var ors := TagClauses(input, lib);
    var post := DateClauses(input, lib);
    assert IndexChain(input, lib) == pre + ors + post;
    assert |pre| >= 1;
    assert AllAnd(pre[1..]) by {
      forall i | 0 <= i < |pre[1..]| ensures pre[1..][i].connector == And {
        assert pre[1..][i] == pre[i + 1];
      }
    }
    MatchesAndsOrsAnds(pre, ors, post, a, lib);
  }

  /** With `tags` and a filled `search`, the tag clauses do not nest inside
      the AND: a row matches when all the title/author/category/source
      filters hold, or any tag piece but the last matches on its own, or the
      last piece matches together with the date bounds. */
  lemma MatchesWithTags(input: map<string, Option<string>>, a: Article, lib: Library)
    requires Filled(input, "tags") && Filled(input, "search")
    ensures var m := |Split(Lookup(input, "tags").value, ',')|;
            Matches(IndexChain(input, lib), a, lib) <==>
              (|| FiltersHold(input, a, lib)
               || (exists i :: 0 <= i < m - 1 && TagPieceHolds(input, i, a, lib))
               || (TagPieceHolds(input, m - 1, a, lib) && DatesHold(input, a, lib)))
  {
    IndexChainWithTags(input, a, lib);
    FilterClausesHold(input, a, lib);
    DateClausesHold(input, a, lib);
    TagClausesHold(input, a, lib);
  }
}
