/** The earlier feed store (hooks/useFeedManager.ts): feeds and articles with the same
    add/remove rules as the current store, a refresh that merges every parsed article (no
    per-feed cap) and then re-sorts the whole store newest first, and a social lookup gated
    by whether both providers have already answered.

    The feed fetches, the parser and the social lookup are inputs: `outcomes` holds each
    feed's parsed articles or its failure, `timeOf` reads a date text as a timestamp, and a
    lookup's outcome is the record or `None` for a rejected promise. */
module LegacyFeedManager {
  import opened Types
  import Seqs
  import FeedManager

  /** `DEFAULT_FEEDS` of the root-level constants.ts. */
  const DefaultFeeds: seq<Feed> := [
    Feed("Hacker News", "https://news.ycombinator.com/rss"),
    Feed("Simon Willison's Blog", "https://simonwillison.net/atom/everything/"),
    Feed("The Verge", "https://www.theverge.com/rss/index.xml")
  ]

  // ---------------------------------------------------------------------------------------
  // Refresh

  /** What one feed contributes: its articles, or `[]` once the `catch` swallowed its
      failure. */
  function Contribution(outcome: Result<seq<Article>, string>): seq<Article>
  {
    match outcome
    case Success(articles) => articles
    case Failure(_) => []
  }

  /** `newArticlesArrays.flat()`: every parsed article, feed after feed. */
  function NewArticles(outcomes: seq<Result<seq<Article>, string>>): seq<Article>
  {
    Seqs.Concat(Seqs.Map(Contribution, outcomes))
  }

  lemma NewArticlesAppend(a: seq<Result<seq<Article>, string>>, b: seq<Result<seq<Article>, string>>)
    ensures NewArticles(a + b) == NewArticles(a) + NewArticles(b)
  {
    Seqs.MapAppend(Contribution, a, b);
    Seqs.ConcatAppend(Seqs.Map(Contribution, a), Seqs.Map(Contribution, b));
  }

  /** There is no cap: an article is in the batch exactly when some feed parsed it, and a
      failed feed contributes nothing. */
  lemma {:induction false} NewArticlesMember(outcomes: seq<Result<seq<Article>, string>>, a: Article)
    ensures a in NewArticles(outcomes)
            <==> exists k :: 0 <= k < |outcomes| && outcomes[k].Success? && a in outcomes[k].value
  {
    if outcomes != [] {
      var head, rest := outcomes[0], outcomes[1..];
      assert outcomes == [head] + rest;
      NewArticlesAppend([head], rest);
      assert NewArticles([head]) == Contribution(head);
      NewArticlesMember(rest, a);
      if a in NewArticles(rest) {
        var k :| 0 <= k < |rest| && rest[k].Success? && a in rest[k].value;
        assert outcomes[k + 1] == rest[k];
      }
      if exists k :: 0 <= k < |outcomes| && outcomes[k].Success? && a in outcomes[k].value {
        var k :| 0 <= k < |outcomes| && outcomes[k].Success? && a in outcomes[k].value;
        if k > 0 {
          assert rest[k - 1] == outcomes[k];
        }
      }
    }
  }

  /** A feed that parsed appends all its articles, in order, after the earlier feeds'. */
  lemma NewArticlesSnoc(outcomes: seq<Result<seq<Article>, string>>, last: Result<seq<Article>, string>)
    ensures last.Success? ==> NewArticles(outcomes + [last]) == NewArticles(outcomes) + last.value
    ensures last.Failure? ==> NewArticles(outcomes + [last]) == NewArticles(outcomes)
  {
    NewArticlesAppend(outcomes, [last]);
    assert Seqs.Map(Contribution, [last]) == [Contribution(last)];
    assert Seqs.Concat([Contribution(last)]) == Contribution(last) + Seqs.Concat([]);
  }

  /** The store after a refresh: the id-keyed merge, then a newest-first sort of
      everything. */
  function Refreshed(store: seq<Article>, batch: seq<Article>, timeOf: string -> int): seq<Article>
  {
    Seqs.SortDesc(FeedManager.MergeById(store, batch), ByDate(timeOf))
  }

  /** The refreshed store is newest first, holds exactly the merged articles, and keeps ids
      distinct. */
  lemma RefreshedShape(store: seq<Article>, batch: seq<Article>, timeOf: string -> int)
    requires FeedManager.UniqueIds(store)
    ensures Seqs.SortedDesc(Refreshed(store, batch, timeOf), ByDate(timeOf))
    ensures multiset(Refreshed(store, batch, timeOf)) == multiset(FeedManager.MergeById(store, batch))
    ensures FeedManager.UniqueIds(Refreshed(store, batch, timeOf))
  {
    var merged := FeedManager.MergeById(store, batch);
    Seqs.SortDescSorted(merged, ByDate(timeOf));
    assert Seqs.DistinctBy(merged, FeedManager.IdOf);
    Seqs.SortDescDistinct(merged, ByDate(timeOf), FeedManager.IdOf);
    var r := Refreshed(store, batch, timeOf);
    assert forall i, j :: 0 <= i < j < |r| ==> FeedManager.IdOf(r[i]) != FeedManager.IdOf(r[j]);
  }

  /** Every stored article survives a refresh unchanged, its `social` included, and every
      batch id is present afterwards. */
  lemma RefreshedRetains(store: seq<Article>, batch: seq<Article>, timeOf: string -> int)
    ensures forall a :: a in store ==> a in Refreshed(store, batch, timeOf)
    ensures forall k :: 0 <= k < |batch| ==> FeedManager.HasId(Refreshed(store, batch, timeOf), batch[k].id)
  {
    var merged := FeedManager.MergeById(store, batch);
    var r := Refreshed(store, batch, timeOf);
    assert multiset(r) == multiset(merged);
    forall a | a in store ensures a in r {
      assert a in merged;
      assert a in multiset(merged);
    }
    FeedManager.MergeCoversBatch(store, batch);
    forall k | 0 <= k < |batch| ensures FeedManager.HasId(r, batch[k].id) {
      var j :| 0 <= j < |merged| && merged[j].id == batch[k].id;
      assert merged[j] in multiset(r);
      var i :| 0 <= i < |r| && r[i] == merged[j];
    }
  }

  /** A refresh that brings only known ids leaves a store that is already newest first
      unchanged. */
  lemma RefreshedKnownOnly(store: seq<Article>, batch: seq<Article>, timeOf: string -> int)
    requires Seqs.SortedDesc(store, ByDate(timeOf))
    requires forall k :: 0 <= k < |batch| ==> FeedManager.HasId(store, batch[k].id)
    ensures Refreshed(store, batch, timeOf) == store
  {
    FeedManager.MergeKnownOnly(store, batch);
    Seqs.SortDescOfSorted(store, ByDate(timeOf));
  }

  // ---------------------------------------------------------------------------------------
  // Social lookup

  /** `hasFetchedAll`: each provider has either found its thread or reported an error. */
  predicate HasFetchedAll(a: Article)
  {
    (Truthy(a.social.hn.id) || Truthy(a.social.hn.error))
    && (Truthy(a.social.reddit.url) || Truthy(a.social.reddit.error))
  }

  /** Whether `fetchSocialData` goes ahead for the article it found. */
  predicate ShouldFetch(a: Article)
  {
    !a.social.isFetching && !HasFetchedAll(a)
  }

  /** The store after a complete `fetchSocialData(articleId)` that is not interleaved with
      other updates. */
  function AfterFetch(s: seq<Article>, articleId: string, outcome: FeedManager.FetchOutcome)
    : (r: seq<Article>)
    ensures |r| == |s|
    ensures forall j :: 0 <= j < |s| && j != FeedManager.FindIndex(s, articleId) ==> r[j] == s[j]
    ensures forall j :: 0 <= j < |s| ==> r[j].(social := s[j].social) == s[j]
  {
    var i := FeedManager.FindIndex(s, articleId);
    if i >= 0 && ShouldFetch(s[i]) then s[i := FeedManager.Settled(s[i], outcome)] else s
  }

  /** The gate: an article both providers have answered for is never looked up again, and
      an idle article that is looked up successfully takes the fetched record. */
  lemma FetchGate(s: seq<Article>, articleId: string, outcome: FeedManager.FetchOutcome)
    ensures var i := FeedManager.FindIndex(s, articleId);
            i >= 0 && HasFetchedAll(s[i]) ==> AfterFetch(s, articleId, outcome) == s
    ensures var i := FeedManager.FindIndex(s, articleId);
            i >= 0 && ShouldFetch(s[i]) && outcome.Some? ==>
              AfterFetch(s, articleId, outcome)[i].social == outcome.value.(isFetching := false)
    ensures !FeedManager.HasId(s, articleId) ==> AfterFetch(s, articleId, outcome) == s
  {
  }

  /** Unlike the current store, the gate does not look at comment counts or at when the
      article was last checked: an article with comments whose providers have not both
      answered is looked up again. */
  lemma GateIgnoresCounts(s: seq<Article>, articleId: string, outcome: FeedManager.FetchOutcome)
    requires var i := FeedManager.FindIndex(s, articleId);
             i >= 0 && !s[i].social.isFetching && !Truthy(s[i].social.hn.id) && !Truthy(s[i].social.hn.error)
    requires outcome.Some?
    ensures var i := FeedManager.FindIndex(s, articleId);
            AfterFetch(s, articleId, outcome)[i].social == outcome.value.(isFetching := false)
  {
  }

  lemma AfterFetchKeepsUniqueIds(s: seq<Article>, articleId: string, outcome: FeedManager.FetchOutcome)
    requires FeedManager.UniqueIds(s)
    ensures FeedManager.UniqueIds(AfterFetch(s, articleId, outcome))
  {
    var i := FeedManager.FindIndex(s, articleId);
    if i >= 0 && ShouldFetch(s[i]) {
      FeedManager.ReplaceKeepsUniqueIds(s, i, FeedManager.Settled(s[i], outcome));
    }
  }

  // ---------------------------------------------------------------------------------------
  // The store

  class LegacyFeedStore {
    var feeds: seq<Feed>
    var articles: seq<Article>
    var lastUpdated: Option<int>
    var isLoading: bool
    var initialLoad: bool

    predicate Valid()
      reads this
    {
      FeedManager.UniqueUrls(feeds) && FeedManager.UniqueIds(articles)
    }

    /** The provider's initial state with nothing persisted yet. */
    constructor ()
      ensures Valid()
      ensures feeds == DefaultFeeds && articles == [] && lastUpdated == None
      ensures !isLoading && initialLoad
    {
      feeds := DefaultFeeds;
      articles := [];
      lastUpdated := None;
      isLoading := false;
      initialLoad := true;
    }

    /** `addFeed`: appended only when no feed has its url. */
    method AddFeed(feed: Feed)
      requires Valid()
      modifies this`feeds
      ensures Valid()
      ensures FeedManager.UrlIndex(old(feeds), feed.url) >= 0 ==> feeds == old(feeds)
      ensures FeedManager.UrlIndex(old(feeds), feed.url) < 0 ==> feeds == old(feeds) + [feed]
    {
      if FeedManager.UrlIndex(feeds, feed.url) < 0 {
        feeds := feeds + [feed];
      }
    }

    /** `removeFeed`: the feed and every article of that feed go; the rest stays in order. */
    method RemoveFeed(url: string)
      requires Valid()
      modifies this`feeds, this`articles
      ensures Valid()
      ensures feeds == Seqs.Filter(FeedManager.NotAtUrl(url), old(feeds))
      ensures articles == Seqs.Filter(FeedManager.NotAtFeedUrl(url), old(articles))
    {
      FeedManager.FilterKeepsUniqueUrls(FeedManager.NotAtUrl(url), feeds);
      FeedManager.FilterKeepsUniqueIds(FeedManager.NotAtFeedUrl(url), articles);
      feeds := Seqs.Filter(FeedManager.NotAtUrl(url), feeds);
      articles := Seqs.Filter(FeedManager.NotAtFeedUrl(url), articles);
    }

    /** The part of `refreshFeeds` before the feeds are fetched: nothing while a refresh is
        running; unless forced, only `initialLoad` is cleared while the cache is fresh;
        otherwise the refresh starts. */
    method BeginRefresh(force: bool, now: int) returns (started: bool)
      modifies this`isLoading, this`initialLoad
      ensures started <==> !old(isLoading) && (force || !FeedManager.CacheFresh(lastUpdated, now))
      ensures started ==> isLoading && initialLoad == old(initialLoad)
      ensures old(isLoading) ==> isLoading && initialLoad == old(initialLoad)
      ensures !old(isLoading) && !started ==> !isLoading && !initialLoad
    {
      if isLoading {
        return false;
      }
      if !force && FeedManager.CacheFresh(lastUpdated, now) {
        initialLoad := false;
        return false;
      }
      isLoading := true;
      started := true;
    }

    /** The continuation of `refreshFeeds`: the batch is merged by id into the store, the
        store is sorted newest first, and the refresh ends. */
    method CompleteRefresh(outcomes: seq<Result<seq<Article>, string>>, timeOf: string -> int, now: int)
      requires Valid()
      modifies this`articles, this`lastUpdated, this`isLoading, this`initialLoad
      ensures Valid()
      ensures articles == Refreshed(old(articles), NewArticles(outcomes), timeOf)
      ensures lastUpdated == Some(now) && !isLoading && !initialLoad
    {
      var newArticles := NewArticles(outcomes);
      var merged := FeedManager.MergeBatch(articles, newArticles);
      RefreshedShape(articles, newArticles, timeOf);
      articles := Seqs.SortDesc(merged, ByDate(timeOf));
      lastUpdated := Some(now);
      isLoading := false;
      initialLoad := false;
    }

    /** The part of `fetchSocialData` before the lookup: when the article exists, is idle
        and has not heard from both providers, its `isFetching` is set and the article is
        returned for the lookup by its link. */
    method BeginSocialFetch(articleId: string) returns (target: Option<Article>)
      requires Valid()
      modifies this`articles
      ensures Valid()
      ensures var i := FeedManager.FindIndex(old(articles), articleId);
              if i >= 0 && ShouldFetch(old(articles)[i]) then
                target == Some(old(articles)[i])
                && articles == old(articles)[i := FeedManager.WithFetching(old(articles)[i], true)]
              else
                target == None && articles == old(articles)
    {
      var i := FeedManager.FindIndex(articles, articleId);
      if i < 0 || articles[i].social.isFetching {
        return None;
      }
      var article := articles[i];
      if HasFetchedAll(article) {
        return None;
      }
      FeedManager.ReplaceKeepsUniqueIds(articles, i, FeedManager.WithFetching(article, true));
      articles := articles[i := FeedManager.WithFetching(article, true)];
      target := Some(article);
    }

    /** The continuation of `fetchSocialData`: the article found by id, if any, takes the
        lookup's record with `isFetching` false, or on a rejection only has `isFetching`
        cleared. */
    method SettleSocialFetch(articleId: string, outcome: FeedManager.FetchOutcome)
      requires Valid()
      modifies this`articles
      ensures Valid()
      ensures var i := FeedManager.FindIndex(old(articles), articleId);
              if i >= 0 then articles == old(articles)[i := FeedManager.Settled(old(articles)[i], outcome)]
              else articles == old(articles)
    {
      var i := FeedManager.FindIndex(articles, articleId);
      if i >= 0 {
        FeedManager.ReplaceKeepsUniqueIds(articles, i, FeedManager.Settled(articles[i], outcome));
        articles := articles[i := FeedManager.Settled(articles[i], outcome)];
      }
    }

    /** A whole `fetchSocialData` call that no other update interleaves with. */
    method FetchSocialData(articleId: string, outcome: FeedManager.FetchOutcome)
      requires Valid()
      modifies this`articles
      ensures Valid()
      ensures articles == AfterFetch(old(articles), articleId, outcome)
    {
      var target := BeginSocialFetch(articleId);
      if target.Some? {
        SettleSocialFetch(articleId, outcome);
        assert FeedManager.WithFetching(FeedManager.WithFetching(target.value, true), false)
            == FeedManager.WithFetching(target.value, false);
      }
    }
  }
}
