/** The feed and article store (src/hooks/useFeedManager.tsx): the configured feeds, the
    stored articles, the refresh bookkeeping, the per-article enrichment lifecycle and the
    queue that enriches articles one at a time.

    The React state and refs become the fields of `FeedStore`; each callback becomes a method.
    An asynchronous callback is split at its `await`: the part before it is one method and
    the continuation, which receives what the awaited promise produced, is another. The clock
    is the parameter `now` (milliseconds). */
module FeedManager {
  import opened Types
  import Seqs

  const CacheDuration: int := 15 * 60 * 1000
  const SocialCheckInterval: int := 3 * 1000
  const SocialCacheDuration: int := 10 * 60 * 1000
  const ArticlesPerFeed: nat := 20

  /** `DEFAULT_FEEDS` of src/constants.ts. */
  const DefaultFeeds: seq<Feed> := [Feed("Hacker News", "https://news.ycombinator.com/rss")]

  // ---------------------------------------------------------------------------------------
  // Feeds, keyed by url

  predicate UniqueUrls(fs: seq<Feed>)
  {
    forall i, j :: 0 <= i < j < |fs| ==> fs[i].url != fs[j].url
  }

  /** The position of the first feed with url `u`, or -1. */
  function UrlIndex(fs: seq<Feed>, u: string): (i: int)
    ensures -1 <= i < |fs|
    ensures i >= 0 ==> fs[i].url == u && forall j :: 0 <= j < i ==> fs[j].url != u
    ensures i < 0 <==> forall j :: 0 <= j < |fs| ==> fs[j].url != u
  {
    if fs == [] then -1
    else if fs[0].url == u then 0
    else
      var k := UrlIndex(fs[1..], u);
      if k < 0 then -1 else k + 1
  }

  /** `Map.prototype.set` on the url-keyed map of feeds: the entry of the feed's url takes the
      new value where it stands, or a new entry is added at the end. */
  function Upsert(m: seq<Feed>, f: Feed): seq<Feed>
  {
    var i := UrlIndex(m, f.url);
    if i >= 0 then m[i := f] else m + [f]
  }

  lemma UpsertUnique(m: seq<Feed>, f: Feed)
    requires UniqueUrls(m)
    ensures UniqueUrls(Upsert(m, f))
  {
  }

  /** An upsert under another url leaves the entry of `u` where and what it was. */
  lemma UpsertOtherUrl(m: seq<Feed>, f: Feed, u: string)
    requires f.url != u
    ensures UrlIndex(Upsert(m, f), u) == UrlIndex(m, u)
    ensures UrlIndex(m, u) >= 0 ==> Upsert(m, f)[UrlIndex(m, u)] == m[UrlIndex(m, u)]
  {
    var r := Upsert(m, f);
    var i := UrlIndex(m, f.url);
    var k := UrlIndex(m, u);
    if k < 0 {
      assert forall j :: 0 <= j < |r| ==> r[j].url != u by {
        forall j | 0 <= j < |r| ensures r[j].url != u {
          if j < |m| && j != i { assert r[j] == m[j]; }
        }
      }
    } else {
      assert r[k] == m[k];
      assert forall j :: 0 <= j < k ==> r[j].url != u by {
        forall j | 0 <= j < k ensures r[j].url != u {
          if j != i { assert r[j] == m[j]; }
        }
      }
    }
  }

  /** `new Map(feeds.map(f => [f.url, f]))`, listed by `values()`. */
  function UrlMap(fs: seq<Feed>): seq<Feed>
  {
    if fs == [] then [] else Upsert(UrlMap(fs[..|fs| - 1]), fs[|fs| - 1])
  }

  /** The guard `newFeed.url && newFeed.name`. */
  predicate Importable(f: Feed)
  {
    f.url != "" && f.name != ""
  }

  /** One step of the import loop. */
  function ImportStep(m: seq<Feed>, f: Feed): seq<Feed>
  {
    if Importable(f) then Upsert(m, f) else m
  }

  /** The import loop over `imports`, left to right, from the map `m`. */
  function ImportAll(m: seq<Feed>, imports: seq<Feed>): seq<Feed>
  {
    if imports == [] then m
    else ImportStep(ImportAll(m, imports[..|imports| - 1]), imports[|imports| - 1])
  }

  /** Importing is importing the first part, then the rest. */
  lemma {:induction false} ImportAllAppend(m: seq<Feed>, a: seq<Feed>, b: seq<Feed>)
    ensures ImportAll(m, a + b) == ImportAll(ImportAll(m, a), b)
  {
    if b == [] {
      assert a + b == a;
    } else {
      assert (a + b)[..|a + b| - 1] == a + b[..|b| - 1];
      ImportAllAppend(m, a, b[..|b| - 1]);
    }
  }

  /** Entries without a url or a name are skipped. */
  lemma ImportSkipsInvalid(m: seq<Feed>, a: seq<Feed>, f: Feed, b: seq<Feed>)
    requires !Importable(f)
    ensures ImportAll(m, a + [f] + b) == ImportAll(m, a + b)
  {
    ImportAllAppend(m, a + [f], b);
    ImportAllAppend(m, a, [f]);
    ImportAllAppend(m, a, b);
    assert ImportAll(m, a + [f]) == ImportAll(m, a) by {
      assert (a + [f])[..|a + [f]| - 1] == a;
    }
  }

  lemma {:induction false} ImportAllUnique(m: seq<Feed>, imports: seq<Feed>)
    requires UniqueUrls(m)
    ensures UniqueUrls(ImportAll(m, imports))
  {
    if imports != [] {
      ImportAllUnique(m, imports[..|imports| - 1]);
      UpsertUnique(ImportAll(m, imports[..|imports| - 1]), imports[|imports| - 1]);
    }
  }

  /** Whether some importable entry of `imports` has url `u`. */
  predicate Imports(imports: seq<Feed>, u: string)
  {
    exists j :: 0 <= j < |imports| && Importable(imports[j]) && imports[j].url == u
  }

  /** The map only grows, and every url it held keeps its position. */
  lemma {:induction false} ImportKeepsPositions(m: seq<Feed>, imports: seq<Feed>)
    ensures var r := ImportAll(m, imports);
            |m| <= |r| && forall i :: 0 <= i < |m| ==> r[i].url == m[i].url
  {
    if imports != [] {
      var init := imports[..|imports| - 1];
      ImportKeepsPositions(m, init);
    }
  }

  /** Feeds whose url no importable entry mentions are retained, where they were. */
  lemma {:induction false} ImportRetains(m: seq<Feed>, imports: seq<Feed>, i: int)
    requires 0 <= i < |m| && !Imports(imports, m[i].url)
    ensures i < |ImportAll(m, imports)| && ImportAll(m, imports)[i] == m[i]
  {
    ImportKeepsPositions(m, imports);
    if imports != [] {
      var init, f := imports[..|imports| - 1], imports[|imports| - 1];
      assert !Imports(init, m[i].url);
      ImportRetains(m, init, i);
      ImportKeepsPositions(m, init);
      var prev := ImportAll(m, init);
      if Importable(f) {
        assert f.url != m[i].url by { assert imports[|imports| - 1] == f; }
        var k := UrlIndex(prev, f.url);
        if k >= 0 {
          assert k != i;
        }
      }
    }
  }

  /** After an upsert the first entry under the feed's url is that feed. */
  lemma UpsertPlaces(m: seq<Feed>, f: Feed)
    ensures UrlIndex(Upsert(m, f), f.url) >= 0 && Upsert(m, f)[UrlIndex(Upsert(m, f), f.url)] == f
  {
    var r, u := Upsert(m, f), f.url;
    var i := UrlIndex(m, u);
    if i < 0 {
      assert r == m + [f];
      assert forall k :: 0 <= k < |m| ==> r[k].url != u by {
        forall k | 0 <= k < |m| ensures r[k].url != u { assert r[k] == m[k]; }
      }
      assert r[|m|] == f;
    } else {
      assert r == m[i := f];
      assert r[i] == f;
      assert forall k :: 0 <= k < i ==> r[k].url != u by {
        forall k | 0 <= k < i ensures r[k].url != u { assert r[k] == m[k]; }
      }
    }
  }

  /** For a url that an importable entry mentions, the map holds the last such entry. */
  lemma {:induction false} ImportLastWins(m: seq<Feed>, imports: seq<Feed>, j: int)
    requires 0 <= j < |imports| && Importable(imports[j])
    requires forall k :: j < k < |imports| && Importable(imports[k]) ==> imports[k].url != imports[j].url
    ensures var r, u := ImportAll(m, imports), imports[j].url;
            UrlIndex(r, u) >= 0 && r[UrlIndex(r, u)] == imports[j]
  {
    var init, f := imports[..|imports| - 1], imports[|imports| - 1];
    var prev := ImportAll(m, init);
    var u := imports[j].url;
    if j == |imports| - 1 {
      UpsertPlaces(prev, f);
    } else {
      assert init[j] == imports[j];
      ImportLastWins(m, init, j);
      if Importable(f) {
        assert f.url != u;
        UpsertOtherUrl(prev, f, u);
      }
    }
  }

  /** Importing a feed list with distinct urls into itself changes nothing. */
  lemma {:induction false} SelfImportIdentity(fs: seq<Feed>, n: nat)
    requires UniqueUrls(fs) && n <= |fs|
    ensures ImportAll(fs, fs[..n]) == fs
  {
    if n > 0 {
      SelfImportIdentity(fs, n - 1);
      assert fs[..n][..n - 1] == fs[..n - 1];
      var f := fs[n - 1];
      assert UrlIndex(fs, f.url) == n - 1;
      assert fs[n - 1 := f] == fs;
    }
  }

  /** With distinct urls the Map built from the list lists it unchanged. */
  lemma {:induction false} UrlMapOfUnique(fs: seq<Feed>)
    requires UniqueUrls(fs)
    ensures UrlMap(fs) == fs
  {
    if fs != [] {
      var init, f := fs[..|fs| - 1], fs[|fs| - 1];
      UrlMapOfUnique(init);
      assert UrlIndex(init, f.url) < 0;
      assert init + [f] == fs;
    }
  }

  // ---------------------------------------------------------------------------------------
  // Articles, keyed by id

  predicate UniqueIds(s: seq<Article>)
  {
    forall i, j :: 0 <= i < j < |s| ==> s[i].id != s[j].id
  }

  /** `Map.prototype.has` on the id-keyed map of articles. */
  predicate HasId(s: seq<Article>, id: string)
  {
    exists i | 0 <= i < |s| :: s[i].id == id
  }

  /** The position of the first article with id `id` (what `find` returns), or -1. */
  function FindIndex(s: seq<Article>, id: string): (i: int)
    ensures -1 <= i < |s|
    ensures i >= 0 ==> s[i].id == id && forall j :: 0 <= j < i ==> s[j].id != id
    ensures i < 0 <==> !HasId(s, id)
  {
    if s == [] then -1
    else if s[0].id == id then 0
    else
      var k := FindIndex(s[1..], id);
      assert HasId(s[1..], id) ==> HasId(s, id) by {
        if HasId(s[1..], id) {
          var j :| 0 <= j < |s[1..]| && s[1..][j].id == id;
          assert s[j + 1].id == id;
        }
      }
      if k < 0 then -1 else k + 1
  }

  /** The merge of a refresh: the stored articles stay as they are, in order, and each batch
      article whose id is not yet present is appended, left to right. */
  function MergeById(store: seq<Article>, batch: seq<Article>): (r: seq<Article>)
    ensures store <= r
    ensures UniqueIds(store) ==> UniqueIds(r)
    ensures forall a :: a in r ==> a in store || a in batch
  {
    if batch == [] then store
    else
      var m := MergeById(store, batch[..|batch| - 1]);
      var a := batch[|batch| - 1];
      if HasId(m, a.id) then m else m + [a]
  }

  /** One batch article: appended exactly when its id is not yet present. */
  lemma MergeByIdSingle(store: seq<Article>, a: Article)
    ensures MergeById(store, [a]) == if HasId(store, a.id) then store else store + [a]
  {
    assert [a][..0] == [];
  }

  /** The batch is merged left to right: merging `a + b` is merging `a`, then `b`. */
  lemma {:induction false} MergeByIdAppend(store: seq<Article>, a: seq<Article>, b: seq<Article>)
    ensures MergeById(store, a + b) == MergeById(MergeById(store, a), b)
    decreases |b|
  {
    if b == [] {
      assert a + b == a;
    } else {
      var init, last := b[..|b| - 1], b[|b| - 1];
      MergeByIdAppend(store, a, init);
      assert (a + b)[..|a + b| - 1] == a + init;
      assert (a + b)[|a + b| - 1] == last;
    }
  }

  /** After the merge every batch id is present. */
  lemma {:induction false} MergeCoversBatch(store: seq<Article>, batch: seq<Article>)
    ensures forall k :: 0 <= k < |batch| ==> HasId(MergeById(store, batch), batch[k].id)
  {
    if batch != [] {
      var init := batch[..|batch| - 1];
      MergeCoversBatch(store, init);
      var m := MergeById(store, init);
      forall k | 0 <= k < |batch| ensures HasId(MergeById(store, batch), batch[k].id) {
        if k < |batch| - 1 {
          assert batch[k] == init[k];
          var j :| 0 <= j < |m| && m[j].id == batch[k].id;
          assert MergeById(store, batch)[j] == m[j];
        } else if !HasId(m, batch[k].id) {
          assert MergeById(store, batch)[|m|] == batch[k];
        }
      }
    }
  }

  /** A batch of known ids only leaves the store unchanged. */
  lemma {:induction false} MergeKnownOnly(store: seq<Article>, batch: seq<Article>)
    requires forall k :: 0 <= k < |batch| ==> HasId(store, batch[k].id)
    ensures MergeById(store, batch) == store
  {
    if batch != [] {
      MergeKnownOnly(store, batch[..|batch| - 1]);
    }
  }

  /** Merging the same batch twice is merging it once. */
  lemma MergeIdempotent(store: seq<Article>, batch: seq<Article>)
    ensures MergeById(MergeById(store, batch), batch) == MergeById(store, batch)
  {
    MergeCoversBatch(store, batch);
    MergeKnownOnly(MergeById(store, batch), batch);
  }

  /** Of several batch articles with a new id the first one is kept. */
  lemma {:induction false} MergeFirstWins(store: seq<Article>, batch: seq<Article>, k: int)
    requires 0 <= k < |batch| && !HasId(store, batch[k].id)
    requires forall j :: 0 <= j < k ==> batch[j].id != batch[k].id
    ensures batch[k] in MergeById(store, batch)
    ensures forall a :: a in MergeById(store, batch) && a.id == batch[k].id ==> a == batch[k]
  {
    var init, last := batch[..|batch| - 1], batch[|batch| - 1];
    var m := MergeById(store, init);
    var id := batch[k].id;
    if k == |batch| - 1 {
      forall j | 0 <= j < |m| ensures m[j].id != id {
        var a := m[j];
        assert a in m;
        if a in store {
          var i :| 0 <= i < |store| && store[i] == a;
        } else {
          var i :| 0 <= i < |init| && init[i] == a;
          assert batch[i] == a;
        }
      }
    } else {
      assert init[k] == batch[k];
      MergeFirstWins(store, init, k);
      if !HasId(m, last.id) {
        assert last.id != id by {
          var j :| 0 <= j < |m| && m[j] == batch[k];
        }
      }
    }
  }

  /** `arr.slice(0, 20)` of one feed's outcome; a failed feed contributes `[]`. */
  function Capped(outcome: Result<seq<Article>, string>): (r: seq<Article>)
    ensures |r| <= ArticlesPerFeed
    ensures outcome.Failure? ==> r == []
    ensures outcome.Success? ==> r <= outcome.value
    ensures outcome.Success? && |outcome.value| <= ArticlesPerFeed ==> r == outcome.value
    ensures outcome.Success? && |outcome.value| > ArticlesPerFeed ==>
              r == outcome.value[..ArticlesPerFeed]
  {
    match outcome
    case Failure(_) => []
    case Success(articles) =>
      if |articles| <= ArticlesPerFeed then articles else articles[..ArticlesPerFeed]
  }

  /** `newArticlesArrays.map(arr => arr.slice(0, 20)).flat()`. */
  function NewArticles(outcomes: seq<Result<seq<Article>, string>>): seq<Article>
  {
    Seqs.Concat(Seqs.Map(Capped, outcomes))
  }

  /** Feeds contribute in feed order. */
  lemma NewArticlesAppend(a: seq<Result<seq<Article>, string>>, b: seq<Result<seq<Article>, string>>)
    ensures NewArticles(a + b) == NewArticles(a) + NewArticles(b)
  {
    Seqs.MapAppend(Capped, a, b);
    Seqs.ConcatAppend(Seqs.Map(Capped, a), Seqs.Map(Capped, b));
  }

  /** A failing feed contributes nothing and does not disturb the others. */
  lemma FailedFeedContributesNothing(a: seq<Result<seq<Article>, string>>, message: string,
                                     b: seq<Result<seq<Article>, string>>)
    ensures NewArticles(a + [Failure(message)] + b) == NewArticles(a + b)
  {
    NewArticlesAppend(a + [Failure(message)], b);
    NewArticlesAppend(a, [Failure(message)]);
    NewArticlesAppend(a, b);
    assert Seqs.Map(Capped, [Failure(message)]) == [[]];
    var none: seq<seq<Article>> := [[]];
    assert none[1..] == [];
    assert Seqs.Concat(none) == [];
  }

  /** At most 20 articles per feed. */
  lemma {:induction false} NewArticlesBound(outcomes: seq<Result<seq<Article>, string>>)
    ensures |NewArticles(outcomes)| <= ArticlesPerFeed * |outcomes|
  {
    if outcomes != [] {
      NewArticlesAppend([outcomes[0]], outcomes[1..]);
      assert [outcomes[0]] + outcomes[1..] == outcomes;
      NewArticlesBound(outcomes[1..]);
      assert Seqs.Map(Capped, [outcomes[0]]) == [Capped(outcomes[0])];
    }
  }

  // ---------------------------------------------------------------------------------------
  // Enrichment eligibility and the queue

  /** `lastUpdated && now - lastUpdated < CACHE_DURATION`. */
  predicate CacheFresh(lastUpdated: Option<int>, now: int)
  {
    TruthyTime(lastUpdated) && now - lastUpdated.value < CacheDuration
  }

  /** `lastSocialCheck && now - lastSocialCheck < SOCIAL_CACHE_DURATION`. */
  predicate RecentlyChecked(a: Article, now: int)
  {
    TruthyTime(a.social.lastSocialCheck) && now - a.social.lastSocialCheck.value < SocialCacheDuration
  }

  /** Whether `fetchSocialData` goes ahead for the article it found. */
  predicate ShouldFetch(a: Article, force: bool, now: int)
  {
    !a.social.isFetching && (force || (!HasComments(a) && !RecentlyChecked(a, now)))
  }

  /** The queue filter: no comments on either provider and not checked recently. */
  predicate NeedsCheck(a: Article, now: int)
  {
    !HasComments(a) && !RecentlyChecked(a, now)
  }

  function NeedsCheckAt(now: int): Article -> bool
  {
    (a: Article) => NeedsCheck(a, now)
  }

  function IdOf(a: Article): string
  {
    a.id
  }

  /** The queue: the ids of the articles that need a check, in store order. */
  function PendingIds(articles: seq<Article>, now: int): (r: seq<string>)
    ensures |r| <= |articles|
  {
    Seqs.Map(IdOf, Seqs.Filter(NeedsCheckAt(now), articles))
  }

  /** An id is queued exactly when some stored article with that id needs a check. */
  lemma PendingIdsMember(articles: seq<Article>, now: int, id: string)
    ensures id in PendingIds(articles, now)
            <==> exists a :: a in articles && a.id == id && NeedsCheck(a, now)
  {
    var p := NeedsCheckAt(now);
    var kept := Seqs.Filter(p, articles);
    var ids := PendingIds(articles, now);
    assert ids == Seqs.Map(IdOf, kept);
    assert |ids| == |kept|;
    if id in ids {
      var k :| 0 <= k < |ids| && ids[k] == id;
      var a := kept[k];
      assert ids[k] == IdOf(a);
      assert a in kept;
      Seqs.FilterMember(p, articles, a);
      assert p(a);
    }
    if exists a :: a in articles && a.id == id && NeedsCheck(a, now) {
      var a :| a in articles && a.id == id && NeedsCheck(a, now);
      assert p(a);
      Seqs.FilterMember(p, articles, a);
      var k :| 0 <= k < |kept| && kept[k] == a;
      assert ids[k] == IdOf(a);
    }
  }

  lemma PendingIdsAppend(a: seq<Article>, b: seq<Article>, now: int)
    ensures PendingIds(a + b, now) == PendingIds(a, now) + PendingIds(b, now)
  {
    Seqs.FilterAppend(NeedsCheckAt(now), a, b);
    Seqs.MapAppend(IdOf, Seqs.Filter(NeedsCheckAt(now), a), Seqs.Filter(NeedsCheckAt(now), b));
  }

  /** The queue and the unforced fetch agree: an unforced fetch of an article that is not
      being fetched starts exactly when the article would be queued. */
  lemma QueueMatchesUnforcedFetch(a: Article, now: int)
    requires !a.social.isFetching
    ensures ShouldFetch(a, false, now) <==> NeedsCheck(a, now)
  {
  }

  /** The article with its `isFetching` flag set to `b`. */
  function WithFetching(a: Article, b: bool): (r: Article)
    ensures r.social.isFetching == b
    ensures r.(social := a.social) == a
    ensures r.social.(isFetching := a.social.isFetching) == a.social
  {
    a.(social := a.social.(isFetching := b))
  }

  /** The outcome of the awaited `fetchSocialDataForArticle`: the record, or `None` when the
      promise rejected. */
  type FetchOutcome = Option<SocialData>

  /** The article after the awaited lookup settled. */
  function Settled(a: Article, outcome: FetchOutcome): Article
  {
    match outcome
    case Some(data) => a.(social := data.(isFetching := false))
    case None => WithFetching(a, false)
  }

  /** The store after a complete `fetchSocialData(articleId, force)` that is not
      interleaved with other updates. */
  function AfterFetch(s: seq<Article>, articleId: string, force: bool, now: int,
                      outcome: FetchOutcome): (r: seq<Article>)
    ensures |r| == |s|
    ensures forall j :: 0 <= j < |s| && j != FindIndex(s, articleId) ==> r[j] == s[j]
    ensures forall j :: 0 <= j < |s| ==> r[j].(social := s[j].social) == s[j]
  {
    var i := FindIndex(s, articleId);
    if i >= 0 && ShouldFetch(s[i], force, now) then s[i := Settled(s[i], outcome)] else s
  }

  /** Replacing one article by one with the same id keeps ids distinct. */
  lemma ReplaceKeepsUniqueIds(s: seq<Article>, i: int, a: Article)
    requires UniqueIds(s) && 0 <= i < |s| && a.id == s[i].id
    ensures UniqueIds(s[i := a])
  {
  }

  lemma AfterFetchKeepsUniqueIds(s: seq<Article>, articleId: string, force: bool, now: int,
                                 outcome: FetchOutcome)
    requires UniqueIds(s)
    ensures UniqueIds(AfterFetch(s, articleId, force, now, outcome))
  {
    var i := FindIndex(s, articleId);
    if i >= 0 && ShouldFetch(s[i], force, now) {
      ReplaceKeepsUniqueIds(s, i, Settled(s[i], outcome));
    }
  }

  /** An unforced fetch never touches an article that already has comments, and a
      successful forced fetch of an idle article installs the fetched record. */
  lemma FetchEligibility(s: seq<Article>, articleId: string, now: int, outcome: FetchOutcome)
    ensures var i := FindIndex(s, articleId);
            i >= 0 && HasComments(s[i]) ==> AfterFetch(s, articleId, false, now, outcome) == s
    ensures var i := FindIndex(s, articleId);
            i >= 0 && !s[i].social.isFetching && outcome.Some? ==>
              AfterFetch(s, articleId, true, now, outcome)[i].social
                == outcome.value.(isFetching := false)
    ensures !HasId(s, articleId) ==> AfterFetch(s, articleId, true, now, outcome) == s
  {
  }

  /** The `Map` a refresh builds: seeded with the stored articles (whose ids are distinct,
      so the seed lists them unchanged), then every batch article whose id is absent is set,
      in batch order. */
  method MergeBatch(store: seq<Article>, batch: seq<Article>) returns (merged: seq<Article>)
    requires UniqueIds(store)
    ensures merged == MergeById(store, batch)
  {
    merged := store;
    for i := 0 to |batch|
      invariant merged == MergeById(store, batch[..i])
    {
      var a := batch[i];
      if !HasId(merged, a.id) {
        merged := merged + [a];
      }
      assert batch[..i + 1][..i] == batch[..i];
    }
    assert batch[..|batch|] == batch;
  }

  // ---------------------------------------------------------------------------------------
  // The store

  class FeedStore {
    var feeds: seq<Feed>
    var articles: seq<Article>
    var lastUpdated: Option<int>
    var isLoading: bool
    var initialLoad: bool
    var showEmpty: bool
    var socialCheckQueue: seq<string>
    var isCheckingSocial: bool

    /** Feed urls and article ids are distinct. */
    predicate Valid()
      reads this
    {
      UniqueUrls(feeds) && UniqueIds(articles)
    }

    /** The provider's initial state with nothing persisted yet. */
    constructor ()
      ensures Valid()
      ensures feeds == DefaultFeeds && articles == [] && lastUpdated == None
      ensures !isLoading && initialLoad && showEmpty
      ensures socialCheckQueue == [] && !isCheckingSocial
    {
      feeds := DefaultFeeds;
      articles := [];
      lastUpdated := None;
      isLoading := false;
      initialLoad := true;
      showEmpty := true;
      socialCheckQueue := [];
      isCheckingSocial := false;
    }

    method ToggleShowEmpty()
      modifies this`showEmpty
      ensures showEmpty == !old(showEmpty)
    {
      showEmpty := !showEmpty;
    }

    /** `addFeed`: appended only when no feed has its url. */
    method AddFeed(feed: Feed)
      requires Valid()
      modifies this`feeds
      ensures Valid()
      ensures UrlIndex(old(feeds), feed.url) >= 0 ==> feeds == old(feeds)
      ensures UrlIndex(old(feeds), feed.url) < 0 ==> feeds == old(feeds) + [feed]
    {
      if UrlIndex(feeds, feed.url) < 0 {
        feeds := feeds + [feed];
      }
    }

    /** `removeFeed`: the feed and every article of that feed go; the rest stays in order. */
    method RemoveFeed(url: string)
      requires Valid()
      modifies this`feeds, this`articles
      ensures Valid()
      ensures feeds == Seqs.Filter(NotAtUrl(url), old(feeds))
      ensures articles == Seqs.Filter(NotAtFeedUrl(url), old(articles))
    {
      FilterKeepsUniqueUrls(NotAtUrl(url), feeds);
      FilterKeepsUniqueIds(NotAtFeedUrl(url), articles);
      feeds := Seqs.Filter(NotAtUrl(url), feeds);
      articles := Seqs.Filter(NotAtFeedUrl(url), articles);
    }

    /** `importFeeds`: the current feeds keyed by url, then each importable entry set in
        turn. */
    method ImportFeeds(feedsToImport: seq<Feed>)
      requires Valid()
      modifies this`feeds
      ensures Valid()
      ensures feeds == ImportAll(old(feeds), feedsToImport)
    {
      UrlMapOfUnique(feeds);
      var feedMap := UrlMap(feeds);
      for i := 0 to |feedsToImport|
        invariant feedMap == ImportAll(old(feeds), feedsToImport[..i])
      {
        var newFeed := feedsToImport[i];
        if newFeed.url != "" && newFeed.name != "" {
          feedMap := Upsert(feedMap, newFeed);
        }
        assert feedsToImport[..i + 1][..i] == feedsToImport[..i];
      }
      assert feedsToImport[..|feedsToImport|] == feedsToImport;
      ImportAllUnique(old(feeds), feedsToImport);
      feeds := feedMap;
    }

    /** The part of `refreshFeeds` before the feeds are fetched: nothing while a refresh is
        running; unless forced, only `initialLoad` is cleared while the cache is fresh;
        otherwise the refresh starts. */
    method BeginRefresh(force: bool, now: int) returns (started: bool)
      modifies this`isLoading, this`initialLoad
      ensures started <==> !old(isLoading) && (force || !CacheFresh(lastUpdated, now))
      ensures started ==> isLoading && initialLoad == old(initialLoad)
      ensures old(isLoading) ==> isLoading && initialLoad == old(initialLoad)
      ensures !old(isLoading) && !started ==> !isLoading && !initialLoad
    {
      if isLoading {
        return false;
      }
      if !force && CacheFresh(lastUpdated, now) {
        initialLoad := false;
        return false;
      }
      isLoading := true;
      started := true;
    }

    /** The continuation of `refreshFeeds`: `outcomes` holds, per feed, its parsed articles or
        the failure that the per-feed `catch` turned into `[]`. Each feed is capped at 20
        articles and the batch is merged by id. */
    method CompleteRefresh(outcomes: seq<Result<seq<Article>, string>>, now: int)
      requires Valid()
      modifies this`articles, this`lastUpdated, this`isLoading, this`initialLoad
      ensures Valid()
      ensures articles == MergeById(old(articles), NewArticles(outcomes))
      ensures lastUpdated == Some(now) && !isLoading && !initialLoad
    {
      var merged := MergeBatch(articles, NewArticles(outcomes));
      articles := merged;
      lastUpdated := Some(now);
      isLoading := false;
      initialLoad := false;
    }

    /** The part of `fetchSocialData` before the lookup: when the article exists and is
        eligible, its `isFetching` is set and the article is returned for the lookup. */
    method BeginSocialFetch(articleId: string, force: bool, now: int) returns (target: Option<Article>)
      requires Valid()
      modifies this`articles
      ensures Valid()
      ensures var i := FindIndex(old(articles), articleId);
              if i >= 0 && ShouldFetch(old(articles)[i], force, now) then
                target == Some(old(articles)[i])
                && articles == old(articles)[i := WithFetching(old(articles)[i], true)]
              else
                target == None && articles == old(articles)
    {
      var i := FindIndex(articles, articleId);
      if i < 0 || articles[i].social.isFetching {
        return None;
      }
      var article := articles[i];
      var hasComments := HasComments(article);
      var recentlyChecked := RecentlyChecked(article, now);
      if !force && hasComments {
        return None;
      }
      if !force && !hasComments && recentlyChecked {
        return None;
      }
      ReplaceKeepsUniqueIds(articles, i, WithFetching(article, true));
      articles := articles[i := WithFetching(article, true)];
      target := Some(article);
    }

    /** The continuation of `fetchSocialData`: the article found by id, if any, takes the
        lookup's record with `isFetching` false, or on a rejection only has `isFetching`
        cleared. */
    method SettleSocialFetch(articleId: string, outcome: FetchOutcome)
      requires Valid()
      modifies this`articles
      ensures Valid()
      ensures var i := FindIndex(old(articles), articleId);
              if i >= 0 then articles == old(articles)[i := Settled(old(articles)[i], outcome)]
              else articles == old(articles)
    {
      var i := FindIndex(articles, articleId);
      if i >= 0 {
        ReplaceKeepsUniqueIds(articles, i, Settled(articles[i], outcome));
        articles := articles[i := Settled(articles[i], outcome)];
      }
    }

    /** A whole `fetchSocialData` call that no other update interleaves with. */
    method FetchSocialData(articleId: string, force: bool, now: int, outcome: FetchOutcome)
      requires Valid()
      modifies this`articles
      ensures Valid()
      ensures articles == AfterFetch(old(articles), articleId, force, now, outcome)
    {
      var target := BeginSocialFetch(articleId, force, now);
      if target.Some? {
        SettleSocialFetch(articleId, outcome);
        assert WithFetching(WithFetching(target.value, true), false) == WithFetching(target.value, false);
      }
    }

    /** The effect that refills the queue whenever the articles change. */
    method RebuildQueue(now: int)
      modifies this`socialCheckQueue
      ensures socialCheckQueue == PendingIds(articles, now)
    {
      socialCheckQueue := PendingIds(articles, now);
    }

    /** One tick of `processQueue`: nothing while busy or with an empty queue; otherwise the
        worker becomes busy, pops the first id and fetches it unforced when it is non-empty,
        then is idle again. */
    method ProcessQueue(now: int, outcome: FetchOutcome)
      requires Valid()
      modifies this`articles, this`socialCheckQueue, this`isCheckingSocial
      ensures Valid()
      ensures old(isCheckingSocial) || old(socialCheckQueue) == [] ==>
                && articles == old(articles) && socialCheckQueue == old(socialCheckQueue)
                && isCheckingSocial == old(isCheckingSocial)
      ensures !old(isCheckingSocial) && old(socialCheckQueue) != [] ==>
                var articleId := old(socialCheckQueue)[0];
                && socialCheckQueue == old(socialCheckQueue)[1..] && !isCheckingSocial
                && articles == if articleId != "" then AfterFetch(old(articles), articleId, false, now, outcome)
                               else old(articles)
    {
      if isCheckingSocial || |socialCheckQueue| == 0 {
        return;
      }
      isCheckingSocial := true;
      var articleId := socialCheckQueue[0];
      socialCheckQueue := socialCheckQueue[1..];
      if articleId != "" {
        FetchSocialData(articleId, false, now, outcome);
      }
      isCheckingSocial := false;
    }
  }

  // ---------------------------------------------------------------------------------------
  // Removal

  function NotAtUrl(url: string): Feed -> bool
  {
    (f: Feed) => f.url != url
  }

  function NotAtFeedUrl(url: string): Article -> bool
  {
    (a: Article) => a.feedUrl != url
  }

  function UrlOf(f: Feed): string
  {
    f.url
  }

  lemma FilterKeepsUniqueUrls(p: Feed -> bool, fs: seq<Feed>)
    requires UniqueUrls(fs)
    ensures UniqueUrls(Seqs.Filter(p, fs))
  {
    assert Seqs.DistinctBy(fs, UrlOf);
    Seqs.FilterDistinct(p, fs, UrlOf);
    var r := Seqs.Filter(p, fs);
    assert forall i, j :: 0 <= i < j < |r| ==> UrlOf(r[i]) != UrlOf(r[j]);
  }

  lemma FilterKeepsUniqueIds(p: Article -> bool, s: seq<Article>)
    requires UniqueIds(s)
    ensures UniqueIds(Seqs.Filter(p, s))
  {
    assert Seqs.DistinctBy(s, IdOf);
    Seqs.FilterDistinct(p, s, IdOf);
    var r := Seqs.Filter(p, s);
    assert forall i, j :: 0 <= i < j < |r| ==> IdOf(r[i]) != IdOf(r[j]);
  }

  /** `removeFeed` cascades: no feed with the url and no article of that feed remain, and
      everything else remains. */
  lemma RemoveFeedCascade(fs: seq<Feed>, s: seq<Article>, url: string)
    ensures forall f :: f in Seqs.Filter(NotAtUrl(url), fs) <==> f in fs && f.url != url
    ensures forall a :: a in Seqs.Filter(NotAtFeedUrl(url), s) <==> a in s && a.feedUrl != url
  {
    forall f ensures f in Seqs.Filter(NotAtUrl(url), fs) <==> f in fs && f.url != url {
      Seqs.FilterMember(NotAtUrl(url), fs, f);
    }
    forall a ensures a in Seqs.Filter(NotAtFeedUrl(url), s) <==> a in s && a.feedUrl != url {
      Seqs.FilterMember(NotAtFeedUrl(url), s, a);
    }
  }
}
