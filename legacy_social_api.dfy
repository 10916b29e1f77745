/** The earlier discussion lookup (services/socialApi.ts). Unlike the current one it looks an
    article up by its link rather than its title, keeps only the top level of each thread
    as a flat comment list, keeps Reddit's body HTML as it is, and sets no
    `lastSocialCheck`.

    A flat comment (id, author, body, url) is a `Types.Comment` at depth 0 with no
    children. The providers' JSON bodies are the same abstract responses as the current
    lookup's; the nested replies they may carry are not read here. */
module LegacySocialApi {
  import opened Types
  import opened Text
  import Seqs
  import SocialApi

  const UnknownAuthor := "unknown"

  // ---------------------------------------------------------------------------------------
  // Flat comment lists

  /** Every comment is a top-level comment without replies whose id and url carry the
      provider's prefixes. */
  predicate FlatList(cs: seq<Comment>, idPrefix: string, urlPrefix: string)
  {
    forall i :: 0 <= i < |cs| ==>
      cs[i].depth == 0 && cs[i].children == [] && idPrefix <= cs[i].id && urlPrefix <= cs[i].url
  }

  /** A flat list is a comment forest at depth 0. */
  lemma FlatListIsForest(cs: seq<Comment>, idPrefix: string, urlPrefix: string)
    requires FlatList(cs, idPrefix, urlPrefix)
    ensures SocialApi.CommentForest(cs, 0, idPrefix, urlPrefix)
  {
    forall i | 0 <= i < |cs| ensures SocialApi.CommentForest(cs[i].children, 1, idPrefix, urlPrefix) {
      assert cs[i].children == [];
    }
  }

  /** The comment `map` makes of an HN child that has text. */
  function HnComment(id: int, author: Option<string>, text: string): Comment
  {
    Comment("hn-" + IntToString(id), if Truthy(author) then author.value else UnknownAuthor, text,
            SocialApi.HnItemUrl + IntToString(id), 0, [])
  }

  /** `(itemData.children || []).filter(c => c.text).map(...)`: children with text become
      flat comments, in order. Reading `.text` of a `null` child throws, and then there is
      no list at all. */
  function HnComments(nodes: seq<SocialApi.HnNode>): (r: Option<seq<Comment>>)
    ensures r.None? <==> exists i :: 0 <= i < |nodes| && nodes[i].HnNull?
    ensures r.Some? ==> |r.value| <= |nodes| && FlatList(r.value, "hn-", SocialApi.HnItemUrl)
    ensures r.Some? ==> forall i :: 0 <= i < |r.value| ==> r.value[i].author != "" && r.value[i].body != ""
  {
    if nodes == [] then Some([])
    else
      var rest := HnComments(nodes[1..]);
      assert (exists i :: 0 <= i < |nodes[1..]| && nodes[1..][i].HnNull?)
             ==> exists i :: 0 <= i < |nodes| && nodes[i].HnNull? by {
        if exists i :: 0 <= i < |nodes[1..]| && nodes[1..][i].HnNull? {
          var i :| 0 <= i < |nodes[1..]| && nodes[1..][i].HnNull?;
          assert nodes[i + 1].HnNull?;
        }
      }
      match nodes[0]
      case HnNull => None
      case HnItem(id, author, text, _) =>
        if rest.None? then None
        else if Truthy(text) then
          var c := HnComment(id, author, text.value);
          assert "hn-" <= c.id && SocialApi.HnItemUrl <= c.url;
          Some([c] + rest.value)
        else rest
  }

  /** One child: a `null` one throws, one with text becomes its comment, with the author
      defaulting to "unknown", and one without text is filtered out. */
  lemma HnCommentsSingle(node: SocialApi.HnNode)
    ensures HnComments([node]) ==
              match node
              case HnNull => None
              case HnItem(id, author, text, _) =>
                if Truthy(text) then
                  Some([Comment("hn-" + IntToString(id),
                                if Truthy(author) then author.value else "unknown", text.value,
                                SocialApi.HnItemUrl + IntToString(id), 0, [])])
                else Some([])
  {
    var nodes := [node];
    assert nodes[0] == node && nodes[1..] == [];
    assert HnComments(nodes[1..]) == Some([]);
    match node
    case HnNull =>
    case HnItem(id, author, text, _) =>
      if Truthy(text) {
        var c := HnComment(id, author, text.value);
        assert [c] + [] == [c];
      }
  }

  /** The children are mapped in order: the list of `a + b` is the list of `a` followed by
      that of `b`, and it throws exactly when either part does. */
  lemma {:induction false} HnCommentsAppend(a: seq<SocialApi.HnNode>, b: seq<SocialApi.HnNode>)
    ensures HnComments(a + b) ==
              if HnComments(a).Some? && HnComments(b).Some?
              then Some(HnComments(a).value + HnComments(b).value)
              else None
  {
    if a == [] {
      assert a + b == b;
      assert HnComments(a) == Some([]);
      if HnComments(b).Some? {
        assert [] + HnComments(b).value == HnComments(b).value;
      }
    } else {
      HnCommentsAppend(a[1..], b);
      assert (a + b)[0] == a[0];
      assert (a + b)[1..] == a[1..] + b;
      match a[0]
      case HnNull =>
      case HnItem(id, author, text, _) =>
        if HnComments(a[1..]).Some? && HnComments(b).Some? && Truthy(text) {
          var c := HnComment(id, author, text.value);
          assert [c] + (HnComments(a[1..]).value + HnComments(b).value)
                 == ([c] + HnComments(a[1..]).value) + HnComments(b).value;
        }
    }
  }

  /** The comment `map` makes of a kept Reddit child: the body HTML is not decoded. */
  function RedditComment(t: SocialApi.RedditThing): Comment
  {
    Comment("reddit-" + t.id, t.author, t.bodyHtml, SocialApi.RedditUrl + t.permalink, 0, [])
  }

  function KeptReddit(t: SocialApi.RedditThing): bool
  {
    SocialApi.RedditKept(t)
  }

  /** `commentList.filter(c => c.kind === 't1' && c.data.body).map(...)`. */
  function RedditComments(things: seq<SocialApi.RedditThing>): seq<Comment>
  {
    Seqs.Map(RedditComment, Seqs.Filter(KeptReddit, things))
  }

  /** The Reddit list holds one flat comment per kept `t1` child, in order, and nothing
      else. */
  lemma RedditCommentsShape(things: seq<SocialApi.RedditThing>)
    ensures |RedditComments(things)| <= |things|
    ensures FlatList(RedditComments(things), "reddit-", SocialApi.RedditUrl)
    ensures forall t :: t in things && SocialApi.RedditKept(t) ==> RedditComment(t) in RedditComments(things)
    ensures forall c :: c in RedditComments(things) ==>
              exists t :: t in things && SocialApi.RedditKept(t) && c == RedditComment(t)
  {
    var kept := Seqs.Filter(KeptReddit, things);
    var r := RedditComments(things);
    forall i | 0 <= i < |r|
      ensures r[i].depth == 0 && r[i].children == [] && "reddit-" <= r[i].id && SocialApi.RedditUrl <= r[i].url
    {
      assert r[i] == RedditComment(kept[i]);
    }
    forall t | t in things && SocialApi.RedditKept(t) ensures RedditComment(t) in r {
      Seqs.FilterMember(KeptReddit, things, t);
      var k :| 0 <= k < |kept| && kept[k] == t;
      assert r[k] == RedditComment(t);
    }
    forall c | c in r ensures exists t :: t in things && SocialApi.RedditKept(t) && c == RedditComment(t) {
      var k :| 0 <= k < |r| && r[k] == c;
      assert kept[k] in kept;
      Seqs.FilterMember(KeptReddit, things, kept[k]);
    }
  }

  /** A dropped child changes nothing around it. */
  lemma RedditChildDropped(before: seq<SocialApi.RedditThing>, t: SocialApi.RedditThing,
                           after: seq<SocialApi.RedditThing>)
    requires !SocialApi.RedditKept(t)
    ensures RedditComments(before + [t] + after) == RedditComments(before + after)
  {
    Seqs.FilterAppend(KeptReddit, before + [t], after);
    Seqs.FilterAppend(KeptReddit, before, [t]);
    Seqs.FilterAppend(KeptReddit, before, after);
    assert Seqs.Filter(KeptReddit, [t]) == [];
  }

  // ---------------------------------------------------------------------------------------
  // Provider lookups, by the article's link

  /** The record `fetchHnData(url)` returns: search by link; no hit is "Not found on HN"; a
      hit with no comments is returned without fetching the item; otherwise the item's
      top-level children become the comments, and a `null` child turns the whole lookup into
      an error carrying that TypeError's message `nullAccess`. */
  function HnLookup(url: string, api: SocialApi.HnApi, nullAccess: string): (r: HnData)
    ensures SocialApi.HnConsistent(r)
    ensures FlatList(r.comments, "hn-", SocialApi.HnItemUrl)
  {
    match api.search(url)
    case HttpError(status) =>
      SocialApi.HnFailure(Some("HN search failed with status " + IntToString(status)))
    case Thrown(message) => SocialApi.HnFailure(message)
    case Ok(found) =>
      if |found.hits| == 0 then HnData(None, None, [], 0, Some(SocialApi.NotFoundOnHn))
      else
        var storyId := found.hits[0].objectID;
        var commentCount := SocialApi.OrZero(found.hits[0].numComments);
        if commentCount == 0 then HnData(Some(storyId), Some(SocialApi.HnItemUrl + storyId), [], 0, None)
        else
          match api.item(storyId)
          case HttpError(status) =>
            SocialApi.HnFailure(Some("HN item fetch failed with status " + IntToString(status)))
          case Thrown(message) => SocialApi.HnFailure(message)
          case Ok(item) =>
            match HnComments(item.children)
            case None => SocialApi.HnFailure(Some(nullAccess))
            case Some(comments) =>
              FlatListIsForest(comments, "hn-", SocialApi.HnItemUrl);
              HnData(Some(storyId), Some(SocialApi.HnItemUrl + storyId), comments, commentCount, None)
  }

  /** A `null` child anywhere in a fetched item loses every comment of the story. */
  lemma HnNullChildFails(url: string, api: SocialApi.HnApi, nullAccess: string, k: int)
    requires api.search(url).Ok? && api.search(url).body.hits != []
    requires SocialApi.OrZero(api.search(url).body.hits[0].numComments) != 0
    requires api.item(api.search(url).body.hits[0].objectID).Ok?
    requires var item := api.item(api.search(url).body.hits[0].objectID).body;
             0 <= k < |item.children| && item.children[k].HnNull?
    ensures HnLookup(url, api, nullAccess) == SocialApi.HnFailure(Some(nullAccess))
  {
  }

  /** The branches of `fetchHnData(url)`: a failed or thrown step is that provider's error
      with no comments, no hit is "Not found on HN", a hit with no comments carries the story
      id and url and no error, and otherwise the item's text-bearing top-level children are
      the comments, with the hit's count. */
  lemma HnLookupOutcomes(url: string, api: SocialApi.HnApi, nullAccess: string)
    ensures var r := HnLookup(url, api, nullAccess);
            && (!api.search(url).Ok? ==> r.error.Some? && r.comments == [] && r.commentCount == 0)
            && (api.search(url).Ok? && api.search(url).body.hits == [] ==>
                  r == HnData(None, None, [], 0, Some(SocialApi.NotFoundOnHn)))
    ensures api.search(url).Ok? && api.search(url).body.hits != [] ==>
              var r := HnLookup(url, api, nullAccess);
              var story := api.search(url).body.hits[0];
              var item := api.item(story.objectID);
              && (SocialApi.OrZero(story.numComments) == 0 ==>
                    r == HnData(Some(story.objectID), Some(SocialApi.HnItemUrl + story.objectID), [], 0, None))
              && (SocialApi.OrZero(story.numComments) != 0 && !item.Ok? ==>
                    r.error.Some? && r.id.None? && r.comments == [] && r.commentCount == 0)
              && (SocialApi.OrZero(story.numComments) != 0 && item.Ok? && HnComments(item.body.children).Some? ==>
                    r == HnData(Some(story.objectID), Some(SocialApi.HnItemUrl + story.objectID),
                                HnComments(item.body.children).value, story.numComments.value, None))
  {
  }

  /** `fetchHnData`, step by step with early returns. */
  method FetchHnData(url: string, api: SocialApi.HnApi, nullAccess: string) returns (r: HnData)
    ensures r == HnLookup(url, api, nullAccess)
  {
    var searchRes := api.search(url);
    if searchRes.HttpError? {
      return SocialApi.HnFailure(Some("HN search failed with status " + IntToString(searchRes.status)));
    }
    if searchRes.Thrown? {
      return SocialApi.HnFailure(searchRes.message);
    }
    var hits := searchRes.body.hits;
    if |hits| == 0 {
      return HnData(None, None, [], 0, Some(SocialApi.NotFoundOnHn));
    }
    var storyId := hits[0].objectID;
    var commentCount := SocialApi.OrZero(hits[0].numComments);
    if commentCount == 0 {
      return HnData(Some(storyId), Some(SocialApi.HnItemUrl + storyId), [], 0, None);
    }
    var itemRes := api.item(storyId);
    if itemRes.HttpError? {
      return SocialApi.HnFailure(Some("HN item fetch failed with status " + IntToString(itemRes.status)));
    }
    if itemRes.Thrown? {
      return SocialApi.HnFailure(itemRes.message);
    }
    var comments := HnComments(itemRes.body.children);
    if comments.None? {
      return SocialApi.HnFailure(Some(nullAccess));
    }
    r := HnData(Some(storyId), Some(SocialApi.HnItemUrl + storyId), comments.value, commentCount, None);
  }

  /** The record `fetchRedditData(url)` returns: search by link; no post is "Not found on
      Reddit"; a post with no comments is returned without fetching them; otherwise the
      second listing of `<submission url>.json` becomes the comments. */
  function RedditLookup(url: string, api: SocialApi.RedditApi): (r: RedditData)
    ensures SocialApi.RedditConsistent(r)
    ensures FlatList(r.comments, "reddit-", SocialApi.RedditUrl)
  {
    match api.search(url)
    case HttpError(status) =>
      SocialApi.RedditFailure(Some("Reddit search failed with status " + IntToString(status)))
    case Thrown(message) => SocialApi.RedditFailure(message)
    case Ok(found) =>
      if |found.posts| == 0 then RedditData(None, [], 0, Some(SocialApi.NotFoundOnReddit))
      else
        var submissionUrl := SocialApi.RedditUrl + found.posts[0].permalink;
        var commentCount := SocialApi.OrZero(found.posts[0].numComments);
        assert SocialApi.RedditUrl <= submissionUrl;
        if commentCount == 0 then RedditData(Some(submissionUrl), [], 0, None)
        else
          match api.comments(submissionUrl + ".json")
          case HttpError(status) =>
            SocialApi.RedditFailure(Some("Reddit comments fetch failed with status " + IntToString(status)))
          case Thrown(message) => SocialApi.RedditFailure(message)
          case Ok(page) =>
            var comments := RedditComments(SocialApi.TopLevelThings(page));
            RedditCommentsShape(SocialApi.TopLevelThings(page));
            FlatListIsForest(comments, "reddit-", SocialApi.RedditUrl);
            RedditData(Some(submissionUrl), comments, commentCount, None)
  }

  /** The branches of `fetchRedditData(url)`: a failed or thrown step is that provider's
      error with no comments, no post is "Not found on Reddit" with a null url, a post with no
      comments carries the submission url and no error, and otherwise the top-level kept
      things of the second listing are the comments, with the post's count. */
  lemma RedditLookupOutcomes(url: string, api: SocialApi.RedditApi)
    ensures var r := RedditLookup(url, api);
            && (!api.search(url).Ok? ==> r.error.Some? && r.comments == [] && r.commentCount == 0)
            && (api.search(url).Ok? && api.search(url).body.posts == [] ==>
                  r == RedditData(None, [], 0, Some(SocialApi.NotFoundOnReddit)))
    ensures api.search(url).Ok? && api.search(url).body.posts != [] ==>
              var r := RedditLookup(url, api);
              var post := api.search(url).body.posts[0];
              var page := api.comments(SocialApi.RedditUrl + post.permalink + ".json");
              && (SocialApi.OrZero(post.numComments) == 0 ==>
                    r == RedditData(Some(SocialApi.RedditUrl + post.permalink), [], 0, None))
              && (SocialApi.OrZero(post.numComments) != 0 && !page.Ok? ==>
                    r.error.Some? && r.url.None? && r.comments == [] && r.commentCount == 0)
              && (SocialApi.OrZero(post.numComments) != 0 && page.Ok? ==>
                    r == RedditData(Some(SocialApi.RedditUrl + post.permalink),
                                    RedditComments(SocialApi.TopLevelThings(page.body)),
                                    post.numComments.value, None))
  {
  }

  /** `fetchRedditData`, step by step with early returns. */
  method FetchRedditData(url: string, api: SocialApi.RedditApi) returns (r: RedditData)
    ensures r == RedditLookup(url, api)
  {
    var searchRes := api.search(url);
    if searchRes.HttpError? {
      return SocialApi.RedditFailure(Some("Reddit search failed with status " + IntToString(searchRes.status)));
    }
    if searchRes.Thrown? {
      return SocialApi.RedditFailure(searchRes.message);
    }
    var posts := searchRes.body.posts;
    if |posts| == 0 {
      return RedditData(None, [], 0, Some(SocialApi.NotFoundOnReddit));
    }
    var submissionUrl := SocialApi.RedditUrl + posts[0].permalink;
    var commentCount := SocialApi.OrZero(posts[0].numComments);
    if commentCount == 0 {
      return RedditData(Some(submissionUrl), [], 0, None);
    }
    var commentsRes := api.comments(submissionUrl + ".json");
    if commentsRes.HttpError? {
      return SocialApi.RedditFailure(Some("Reddit comments fetch failed with status "
                                          + IntToString(commentsRes.status)));
    }
    if commentsRes.Thrown? {
      return SocialApi.RedditFailure(commentsRes.message);
    }
    r := RedditData(Some(submissionUrl), RedditComments(SocialApi.TopLevelThings(commentsRes.body)),
                    commentCount, None);
  }

  // ---------------------------------------------------------------------------------------
  // Combination

  /** The combiner of `fetchSocialDataForArticle`: a falsy id or url becomes null, comments
      and counts and errors pass through, and neither `isFetching` nor `lastSocialCheck` is
      set. */
  function Combine(hn: HnData, reddit: RedditData): (r: SocialData)
    ensures r.lastSocialCheck.None? && !r.isFetching
    ensures r.hn.id == OrNull(hn.id) && r.hn.url == OrNull(hn.url)
    ensures r.reddit.url == OrNull(reddit.url)
    ensures r.hn.comments == hn.comments && r.hn.commentCount == hn.commentCount
    ensures r.reddit.comments == reddit.comments && r.reddit.commentCount == reddit.commentCount
    ensures r.hn.error == hn.error && r.reddit.error == reddit.error
    ensures SocialApi.HnConsistent(hn) ==> SocialApi.HnConsistent(r.hn)
    ensures SocialApi.RedditConsistent(reddit) ==> SocialApi.RedditConsistent(r.reddit)
  {
    SocialData(false, None,
               HnData(OrNull(hn.id), OrNull(hn.url), hn.comments, hn.commentCount, hn.error),
               RedditData(OrNull(reddit.url), reddit.comments, reddit.commentCount, reddit.error))
  }

  /** `fetchSocialDataForArticle(url)`: both providers are looked up by the link. */
  method FetchSocialDataForArticle(url: string, hnApi: SocialApi.HnApi, redditApi: SocialApi.RedditApi,
                                   nullAccess: string)
    returns (r: SocialData)
    ensures r == Combine(HnLookup(url, hnApi, nullAccess), RedditLookup(url, redditApi))
    ensures r.lastSocialCheck.None? && !r.isFetching
    ensures SocialApi.HnConsistent(r.hn) && SocialApi.RedditConsistent(r.reddit)
    ensures FlatList(r.hn.comments, "hn-", SocialApi.HnItemUrl)
    ensures FlatList(r.reddit.comments, "reddit-", SocialApi.RedditUrl)
  {
    var hnResult := FetchHnData(url, hnApi, nullAccess);
    var redditResult := FetchRedditData(url, redditApi);
    r := Combine(hnResult, redditResult);
  }
}
