/** Discussion lookup (src/services/socialApi.ts): an article's Hacker News and Reddit threads
    are found by its title, their comment trees are rebuilt in the canonical `Comment` form,
    and the two provider records are combined into the article's enrichment record.

    The network is not modelled: each provider is a pair of lookups from the query (the title,
    a story id, a comments url) to a `Response`, that is a parsed JSON body, an HTTP status
    other than 2xx, or a thrown exception. HTML entity decoding is a parameter. */
module SocialApi {
  import opened Types
  import opened Text

  /** The outcome of one `fetch` followed by `res.json()`: a body, a response whose `ok` is
      false, or an exception, which carries a message when it is an `Error`. */
  datatype Response<T> = Ok(body: T) | HttpError(status: int) | Thrown(message: Option<string>)

  /** A node of an Algolia item's `children` array: `null`, or a comment whose missing
      `children` is the empty array. */
  datatype HnNode = HnNull | HnItem(id: int, author: Option<string>, text: Option<string>,
                                   children: seq<HnNode>)

  datatype HnHit = HnHit(objectID: string, numComments: Option<int>)
  datatype HnSearchResult = HnSearchResult(hits: seq<HnHit>)
  datatype HnItemResult = HnItemResult(children: seq<HnNode>)

  /** The Algolia search by title and the item lookup by story id. */
  datatype HnApi = HnApi(search: string -> Response<HnSearchResult>,
                         item: string -> Response<HnItemResult>)

  /** A Reddit listing child: `kind` and the fields of `data` that are read. A missing
      `replies.data.children` is the empty array. */
  datatype RedditThing = RedditThing(kind: string, id: string, author: string,
                                     body: Option<string>, bodyHtml: string, permalink: string,
                                     replies: seq<RedditThing>)

  datatype RedditPost = RedditPost(permalink: string, numComments: Option<int>)

  /** `searchData.data.children`; a missing path is the empty array. */
  datatype RedditSearchResult = RedditSearchResult(posts: seq<RedditPost>)

  /** The comments page: an array of listings, each with its `data.children` when present. */
  datatype RedditCommentsResult = RedditCommentsResult(listings: seq<Option<seq<RedditThing>>>)

  /** The Reddit search by title and the comments page by url. */
  datatype RedditApi = RedditApi(search: string -> Response<RedditSearchResult>,
                                 comments: string -> Response<RedditCommentsResult>)

  const HnItemUrl := "https://news.ycombinator.com/item?id="
  const RedditUrl := "https://www.reddit.com"
  const NotFoundOnHn := "Not found on HN"
  const NotFoundOnReddit := "Not found on Reddit"
  const UnknownError := "Unknown error"

  // ---------------------------------------------------------------------------------------
  // Comment trees

  /** Every comment of the forest sits at `depth`, its children at depth + 1 and so on down,
      and every id and url carries the provider's prefix. */
  predicate CommentForest(cs: seq<Comment>, depth: int, idPrefix: string, urlPrefix: string)
  {
    forall i :: 0 <= i < |cs| ==>
      && cs[i].depth == depth && idPrefix <= cs[i].id && urlPrefix <= cs[i].url
      && CommentForest(cs[i].children, depth + 1, idPrefix, urlPrefix)
  }

  /** No comment of the forest, at any level, has an empty body. */
  predicate BodiesNonEmpty(cs: seq<Comment>)
  {
    forall i :: 0 <= i < |cs| ==> cs[i].body != "" && BodiesNonEmpty(cs[i].children)
  }

  lemma {:induction false} CommentForestAppend(a: seq<Comment>, b: seq<Comment>, depth: int,
                                               idPrefix: string, urlPrefix: string)
    requires CommentForest(a, depth, idPrefix, urlPrefix)
    requires CommentForest(b, depth, idPrefix, urlPrefix)
    ensures CommentForest(a + b, depth, idPrefix, urlPrefix)
  {
    forall i | 0 <= i < |a + b|
      ensures (a + b)[i].depth == depth && idPrefix <= (a + b)[i].id
              && urlPrefix <= (a + b)[i].url
              && CommentForest((a + b)[i].children, depth + 1, idPrefix, urlPrefix)
    {
      if i < |a| {
        assert (a + b)[i] == a[i];
      } else {
        assert (a + b)[i] == b[i - |a|];
      }
    }
  }

  /** An HN node that survives `c && c.text`. */
  predicate HnKept(n: HnNode)
  {
    n.HnItem? && Truthy(n.text)
  }

  /** `parseHnComments`: null nodes and nodes without text are dropped with their whole
      subtree; every other node becomes a comment at `depth` whose children are its own
      children parsed at depth + 1. */
  function ParseHnComments(nodes: seq<HnNode>, depth: int): (r: seq<Comment>)
    ensures |r| <= |nodes|
    ensures CommentForest(r, depth, "hn-", HnItemUrl)
    ensures BodiesNonEmpty(r)
    decreases nodes
  {
    if nodes == [] then []
    else
      var rest := ParseHnComments(nodes[1..], depth);
      match nodes[0]
      case HnNull => rest
      case HnItem(id, author, text, children) =>
        if Truthy(text) then
          var c := Comment("hn-" + IntToString(id),
                           if Truthy(author) then author.value else "[deleted]",
                           text.value, HnItemUrl + IntToString(id), depth,
                           ParseHnComments(children, depth + 1));
          assert "hn-" <= c.id && HnItemUrl <= c.url;
          CommentForestAppend([c], rest, depth, "hn-", HnItemUrl);
          [c] + rest
        else rest
  }

  /** Parsing runs node by node: the comments of two runs of nodes are those of the first
      run followed by those of the second. */
  lemma {:induction false} ParseHnAppend(a: seq<HnNode>, b: seq<HnNode>, depth: int)
    ensures ParseHnComments(a + b, depth) == ParseHnComments(a, depth) + ParseHnComments(b, depth)
  {
    if a == [] {
      assert a + b == b;
    } else {
      assert (a + b)[0] == a[0] && (a + b)[1..] == a[1..] + b;
      ParseHnAppend(a[1..], b, depth);
    }
  }

  /** The node mapping: a kept node yields one comment with id `hn-<id>`, the author or
      "[deleted]", the text as body and the item url; any other node yields nothing. */
  lemma ParseHnNode(n: HnNode, depth: int)
    ensures !HnKept(n) ==> ParseHnComments([n], depth) == []
    ensures HnKept(n) ==>
              ParseHnComments([n], depth)
              == [Comment("hn-" + IntToString(n.id),
                          if Truthy(n.author) then n.author.value else "[deleted]",
                          n.text.value, HnItemUrl + IntToString(n.id), depth,
                          ParseHnComments(n.children, depth + 1))]
  {
    assert [n][1..] == [];
  }

  /** A dropped node takes its subtree with it and changes nothing around it. */
  lemma HnNodeDropped(before: seq<HnNode>, n: HnNode, after: seq<HnNode>, depth: int)
    requires !HnKept(n)
    ensures ParseHnComments(before + [n] + after, depth)
         == ParseHnComments(before + after, depth)
  {
    ParseHnAppend(before + [n], after, depth);
    ParseHnAppend(before, [n], depth);
    ParseHnAppend(before, after, depth);
    ParseHnNode(n, depth);
  }

  /** A Reddit child that survives `c.kind === 't1' && c.data.body`. */
  predicate RedditKept(t: RedditThing)
  {
    t.kind == "t1" && Truthy(t.body)
  }

  /** `parseRedditComments`: only `t1` things with a body are kept, with their decoded HTML
      body; replies are parsed at depth + 1. */
  function ParseRedditComments(things: seq<RedditThing>, depth: int, decode: string -> string)
    : (r: seq<Comment>)
    ensures |r| <= |things|
    ensures CommentForest(r, depth, "reddit-", RedditUrl)
    decreases things
  {
    if things == [] then []
    else
      var rest := ParseRedditComments(things[1..], depth, decode);
      var t := things[0];
      if RedditKept(t) then
        var c := Comment("reddit-" + t.id, t.author, decode(t.bodyHtml), RedditUrl + t.permalink,
                         depth, ParseRedditComments(t.replies, depth + 1, decode));
        assert "reddit-" <= c.id && RedditUrl <= c.url;
        CommentForestAppend([c], rest, depth, "reddit-", RedditUrl);
        [c] + rest
      else rest
  }

  lemma {:induction false} ParseRedditAppend(a: seq<RedditThing>, b: seq<RedditThing>,
                                             depth: int, decode: string -> string)
    ensures ParseRedditComments(a + b, depth, decode)
         == ParseRedditComments(a, depth, decode) + ParseRedditComments(b, depth, decode)
  {
    if a == [] {
      assert a + b == b;
    } else {
      assert (a + b)[0] == a[0] && (a + b)[1..] == a[1..] + b;
      ParseRedditAppend(a[1..], b, depth, decode);
    }
  }

  /** The thing mapping: a kept `t1` yields one comment with id `reddit-<id>`, the decoded
      HTML body and the permalink url; anything else yields nothing. */
  lemma ParseRedditThing(t: RedditThing, depth: int, decode: string -> string)
    ensures !RedditKept(t) ==> ParseRedditComments([t], depth, decode) == []
    ensures RedditKept(t) ==>
              ParseRedditComments([t], depth, decode)
              == [Comment("reddit-" + t.id, t.author, decode(t.bodyHtml), RedditUrl + t.permalink,
                          depth, ParseRedditComments(t.replies, depth + 1, decode))]
  {
    assert [t][1..] == [];
  }

  lemma RedditThingDropped(before: seq<RedditThing>, t: RedditThing, after: seq<RedditThing>,
                           depth: int, decode: string -> string)
    requires !RedditKept(t)
    ensures ParseRedditComments(before + [t] + after, depth, decode)
         == ParseRedditComments(before + after, depth, decode)
  {
    ParseRedditAppend(before + [t], after, depth, decode);
    ParseRedditAppend(before, [t], depth, decode);
    ParseRedditAppend(before, after, depth, decode);
    ParseRedditThing(t, depth, decode);
  }

  // ---------------------------------------------------------------------------------------
  // Provider lookups

  /** JavaScript's `n || 0` on an optional count. */
  function OrZero(n: Option<int>): int
  {
    if n.Some? then n.value else 0
  }

  /** The message of a caught exception: its own when it is an `Error`, else "Unknown
      error". */
  function ErrorMessage(message: Option<string>): string
  {
    message.GetOr(UnknownError)
  }

  /** What an HN record in any outcome satisfies: an error comes with no story, no comments
      and a zero count; a zero count comes with no comments; a story id determines the url;
      the comments form a well-formed HN forest. */
  predicate HnConsistent(h: HnData)
  {
    && (h.error.Some? ==> h.id.None? && h.url.None? && h.comments == [] && h.commentCount == 0)
    && (h.commentCount == 0 ==> h.comments == [])
    && (h.id.Some? ==> h.url == Some(HnItemUrl + h.id.value))
    && CommentForest(h.comments, 0, "hn-", HnItemUrl)
  }

  /** The record of a caught exception in `fetchHnData`. */
  function HnFailure(message: Option<string>): HnData
  {
    HnData(None, None, [], 0, Some(ErrorMessage(message)))
  }

  /** The provider record `fetchHnData` returns: search by title; no hit is "Not found on
      HN"; a hit with no comments is returned without fetching the item; otherwise the
      item's children are parsed, and the count is the hit's `num_comments`. A failed or
      throwing request yields only an error. */
  function HnLookup(title: string, api: HnApi): (r: HnData)
    ensures HnConsistent(r)
  {
    match api.search(title)
    case HttpError(status) => HnFailure(Some("HN search failed with status " + IntToString(status)))
    case Thrown(message) => HnFailure(message)
    case Ok(found) =>
      if |found.hits| == 0 then HnData(None, None, [], 0, Some(NotFoundOnHn))
      else
        var storyId := found.hits[0].objectID;
        var commentCount := OrZero(found.hits[0].numComments);
        if commentCount == 0 then HnData(Some(storyId), Some(HnItemUrl + storyId), [], 0, None)
        else
          match api.item(storyId)
          case HttpError(status) =>
            HnFailure(Some("HN item fetch failed with status " + IntToString(status)))
          case Thrown(message) => HnFailure(message)
          case Ok(item) =>
            HnData(Some(storyId), Some(HnItemUrl + storyId), ParseHnComments(item.children, 0),
                   commentCount, None)
  }

  /** The outcomes of the HN lookup, case by case. */
  lemma HnLookupOutcomes(title: string, api: HnApi)
    ensures var r := HnLookup(title, api);
            && (api.search(title).HttpError? ==>
                  r.error == Some("HN search failed with status "
                                  + IntToString(api.search(title).status)))
            && (api.search(title).Thrown? ==>
                  r.error == Some(api.search(title).message.GetOr(UnknownError)))
            && (api.search(title).Ok? && api.search(title).body.hits == [] ==>
                  r == HnData(None, None, [], 0, Some(NotFoundOnHn)))
    ensures api.search(title).Ok? && api.search(title).body.hits != [] ==>
              var r := HnLookup(title, api);
              var story := api.search(title).body.hits[0];
              var item := api.item(story.objectID);
              && (OrZero(story.numComments) == 0 ==>
                    r == HnData(Some(story.objectID), Some(HnItemUrl + story.objectID), [], 0, None))
              && (OrZero(story.numComments) != 0 && item.HttpError? ==>
                    r.error == Some("HN item fetch failed with status " + IntToString(item.status)))
              && (OrZero(story.numComments) != 0 && item.Thrown? ==>
                    r.error == Some(item.message.GetOr(UnknownError)))
              && (OrZero(story.numComments) != 0 && item.Ok? ==>
                    && r.id == Some(story.objectID) && r.error.None?
                    && r.comments == ParseHnComments(item.body.children, 0)
                    && r.commentCount == story.numComments.value)
  {
  }

  /** With a zero count the item is never requested: the record does not depend on the item
      lookup. */
  lemma HnZeroCountSkipsItem(title: string, api1: HnApi, api2: HnApi)
    requires api1.search == api2.search
    requires api1.search(title).Ok? && api1.search(title).body.hits != []
    requires OrZero(api1.search(title).body.hits[0].numComments) == 0
    ensures HnLookup(title, api1) == HnLookup(title, api2)
  {
  }

  /** The reported count is the hit's `num_comments`, not the number of parsed comments:
      whatever comment nodes the item holds, the record reports the hit's count. */
  lemma HnCountIsReported(title: string, api: HnApi, count: int)
    requires api.search(title).Ok? && api.search(title).body.hits != []
    requires api.search(title).body.hits[0].numComments == Some(count) && count != 0
    requires api.item(api.search(title).body.hits[0].objectID).Ok?
    ensures HnLookup(title, api).commentCount == count
    ensures HnLookup(title, api).comments
            == ParseHnComments(api.item(api.search(title).body.hits[0].objectID).body.children, 0)
  {
  }

  /** `fetchHnData`, step by step with early returns. */
  method FetchHnData(title: string, api: HnApi) returns (r: HnData)
    ensures r == HnLookup(title, api)
  {
    var searchRes := api.search(title);
    if searchRes.HttpError? {
      return HnFailure(Some("HN search failed with status " + IntToString(searchRes.status)));
    }
    if searchRes.Thrown? {
      return HnFailure(searchRes.message);
    }
    var hits := searchRes.body.hits;
    if |hits| == 0 {
      return HnData(None, None, [], 0, Some(NotFoundOnHn));
    }
    var story := hits[0];
    var storyId := story.objectID;
    var commentCount := OrZero(story.numComments);
    if commentCount == 0 {
      return HnData(Some(storyId), Some(HnItemUrl + storyId), [], 0, None);
    }
    var itemRes := api.item(storyId);
    if itemRes.HttpError? {
      return HnFailure(Some("HN item fetch failed with status " + IntToString(itemRes.status)));
    }
    if itemRes.Thrown? {
      return HnFailure(itemRes.message);
    }
    var comments := ParseHnComments(itemRes.body.children, 0);
    r := HnData(Some(storyId), Some(HnItemUrl + storyId), comments, commentCount, None);
  }

  /** What a Reddit record in any outcome satisfies: an error comes with no submission, no
      comments and a zero count; a zero count comes with no comments; a submission url is a
      reddit.com url; the comments form a well-formed Reddit forest. */
  predicate RedditConsistent(d: RedditData)
  {
    && (d.error.Some? ==> d.url.None? && d.comments == [] && d.commentCount == 0)
    && (d.commentCount == 0 ==> d.comments == [])
    && (d.url.Some? ==> RedditUrl <= d.url.value)
    && CommentForest(d.comments, 0, "reddit-", RedditUrl)
  }

  function RedditFailure(message: Option<string>): RedditData
  {
    RedditData(None, [], 0, Some(ErrorMessage(message)))
  }

  /** `commentsData[1]?.data?.children || []`. */
  function TopLevelThings(page: RedditCommentsResult): seq<RedditThing>
  {
    if |page.listings| > 1 && page.listings[1].Some? then page.listings[1].value else []
  }

  /** The provider record `fetchRedditData` returns: search by title; no post is "Not found
      on Reddit"; a post with no comments is returned without fetching its comments;
      otherwise the second listing of `<submission url>.json?limit=100` is parsed, and the
      count is the post's `num_comments`. A failed or throwing request yields only an
      error. */
  function RedditLookup(title: string, api: RedditApi, decode: string -> string): (r: RedditData)
    ensures RedditConsistent(r)
  {
    match api.search(title)
    case HttpError(status) =>
      RedditFailure(Some("Reddit search failed with status " + IntToString(status)))
    case Thrown(message) => RedditFailure(message)
    case Ok(found) =>
      if |found.posts| == 0 then RedditData(None, [], 0, Some(NotFoundOnReddit))
      else
        var submissionUrl := RedditUrl + found.posts[0].permalink;
        var commentCount := OrZero(found.posts[0].numComments);
        assert RedditUrl <= submissionUrl;
        if commentCount == 0 then RedditData(Some(submissionUrl), [], 0, None)
        else
          match api.comments(submissionUrl + ".json?limit=100")
          case HttpError(status) =>
            RedditFailure(Some("Reddit comments fetch failed with status " + IntToString(status)))
          case Thrown(message) => RedditFailure(message)
          case Ok(page) =>
            RedditData(Some(submissionUrl), ParseRedditComments(TopLevelThings(page), 0, decode),
                       commentCount, None)
  }

  /** The outcomes of the Reddit lookup, case by case. */
  lemma RedditLookupOutcomes(title: string, api: RedditApi, decode: string -> string)
    ensures var r := RedditLookup(title, api, decode);
            && (api.search(title).HttpError? ==>
                  r.error == Some("Reddit search failed with status "
                                  + IntToString(api.search(title).status)))
            && (api.search(title).Thrown? ==>
                  r.error == Some(api.search(title).message.GetOr(UnknownError)))
            && (api.search(title).Ok? && api.search(title).body.posts == [] ==>
                  r == RedditData(None, [], 0, Some(NotFoundOnReddit)))
    ensures api.search(title).Ok? && api.search(title).body.posts != [] ==>
              var r := RedditLookup(title, api, decode);
              var post := api.search(title).body.posts[0];
              var page := api.comments(RedditUrl + post.permalink + ".json?limit=100");
              && (OrZero(post.numComments) == 0 ==>
                    r == RedditData(Some(RedditUrl + post.permalink), [], 0, None))
              && (OrZero(post.numComments) != 0 && page.HttpError? ==>
                    r.error == Some("Reddit comments fetch failed with status "
                                    + IntToString(page.status)))
              && (OrZero(post.numComments) != 0 && page.Thrown? ==>
                    r.error == Some(page.message.GetOr(UnknownError)))
              && (OrZero(post.numComments) != 0 && page.Ok? ==>
                    && r.url == Some(RedditUrl + post.permalink) && r.error.None?
                    && r.comments == ParseRedditComments(TopLevelThings(page.body), 0, decode)
                    && r.commentCount == post.numComments.value)
  {
  }

  /** `fetchRedditData`, step by step with early returns. */
  method FetchRedditData(title: string, api: RedditApi, decode: string -> string)
    returns (r: RedditData)
    ensures r == RedditLookup(title, api, decode)
  {
    var searchRes := api.search(title);
    if searchRes.HttpError? {
      return RedditFailure(Some("Reddit search failed with status " + IntToString(searchRes.status)));
    }
    if searchRes.Thrown? {
      return RedditFailure(searchRes.message);
    }
    var posts := searchRes.body.posts;
    if |posts| == 0 {
      return RedditData(None, [], 0, Some(NotFoundOnReddit));
    }
    var post := posts[0];
    var submissionUrl := RedditUrl + post.permalink;
    var commentCount := OrZero(post.numComments);
    if commentCount == 0 {
      return RedditData(Some(submissionUrl), [], 0, None);
    }
    var commentsRes := api.comments(submissionUrl + ".json?limit=100");
    if commentsRes.HttpError? {
      return RedditFailure(Some("Reddit comments fetch failed with status "
                                + IntToString(commentsRes.status)));
    }
    if commentsRes.Thrown? {
      return RedditFailure(commentsRes.message);
    }
    var comments := ParseRedditComments(TopLevelThings(commentsRes.body), 0, decode);
    r := RedditData(Some(submissionUrl), comments, commentCount, None);
  }

  // ---------------------------------------------------------------------------------------
  // Combination

  /** The combiner of `fetchSocialDataForArticle`: `lastSocialCheck` is the time of the
      lookup, `isFetching` is absent, a falsy id or url becomes null and the error passes
      through. Each provider's part depends only on that provider's record. */
  function CombineSocialData(hn: HnData, reddit: RedditData, now: int): (r: SocialData)
    ensures r.lastSocialCheck == Some(now) && !r.isFetching
    ensures r.hn.id == OrNull(hn.id) && r.hn.url == OrNull(hn.url)
    ensures r.reddit.url == OrNull(reddit.url)
    ensures r.hn.comments == hn.comments && r.hn.commentCount == hn.commentCount
    ensures r.reddit.comments == reddit.comments && r.reddit.commentCount == reddit.commentCount
    ensures r.hn.error == hn.error && r.reddit.error == reddit.error
    ensures HnConsistent(hn) ==> HnConsistent(r.hn)
    ensures RedditConsistent(reddit) ==> RedditConsistent(r.reddit)
  {
    SocialData(false, Some(now),
               HnData(OrNull(hn.id), OrNull(hn.url), hn.comments, hn.commentCount, hn.error),
               RedditData(OrNull(reddit.url), reddit.comments, reddit.commentCount, reddit.error))
  }

  /** A failure of one provider cannot disturb the other's part of the record. */
  lemma ProvidersIndependent(hn1: HnData, hn2: HnData, reddit1: RedditData,
                             reddit2: RedditData, now: int)
    ensures CombineSocialData(hn1, reddit1, now).reddit == CombineSocialData(hn2, reddit1, now).reddit
    ensures CombineSocialData(hn1, reddit1, now).hn == CombineSocialData(hn1, reddit2, now).hn
  {
  }

  /** `fetchSocialDataForArticle`: both providers are looked up by the article's title and
      their records combined. */
  method FetchSocialDataForArticle(article: Article, hnApi: HnApi, redditApi: RedditApi,
                                   decode: string -> string, now: int)
    returns (r: SocialData)
    ensures r == CombineSocialData(HnLookup(article.title, hnApi),
                                   RedditLookup(article.title, redditApi, decode), now)
    ensures r.lastSocialCheck == Some(now) && !r.isFetching
    ensures HnConsistent(r.hn) && RedditConsistent(r.reddit)
  {
    var hnResult := FetchHnData(article.title, hnApi);
    var redditResult := FetchRedditData(article.title, redditApi, decode);
    r := CombineSocialData(hnResult, redditResult, now);
  }
}
