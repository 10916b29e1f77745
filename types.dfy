/** The records of the feed reader (src/types.ts): feeds, canonical comments, the per-provider
    discussion data and the articles that carry it. Clock readings are integers
    (milliseconds); an article's publication date is the date text of its feed. */
module Types {

  datatype Option<T> = None | Some(value: T)
  {
    function GetOr(default: T): T
    {
      match this
      case Some(v) => v
      case None => default
    }
  }

  datatype Result<T, E> = Success(value: T) | Failure(error: E)

  /** A configured feed; its identity is `url`. */
  datatype Feed = Feed(name: string, url: string)

  /** A canonical comment: `depth` is 0 at the top level and grows by one per nesting level. */
  datatype Comment = Comment(id: string, author: string, body: string, url: string,
                             depth: int, children: seq<Comment>)

  /** What is known about an article's Hacker News discussion. The story id is Algolia's
      `objectID`, a string. */
  datatype HnData = HnData(id: Option<string>, url: Option<string>, comments: seq<Comment>,
                           commentCount: int, error: Option<string>)

  /** What is known about an article's Reddit discussion. */
  datatype RedditData = RedditData(url: Option<string>, comments: seq<Comment>,
                                   commentCount: int, error: Option<string>)

  /** The enrichment state of one article. An absent `isFetching` is modelled as false. */
  datatype SocialData = SocialData(isFetching: bool, lastSocialCheck: Option<int>,
                                   hn: HnData, reddit: RedditData)

  datatype Article = Article(id: string, title: string, link: string, description: string,
                             feedName: string, feedUrl: string, pubDate: string,
                             social: SocialData)

  /** The sort key of newest-first orderings: `new Date(a.pubDate).getTime()`, where
      `timeOf` is the date parser. */
  function ByDate(timeOf: string -> int): Article -> int
  {
    (a: Article) => timeOf(a.pubDate)
  }

  /** The enrichment record every freshly parsed article starts with. */
  const EmptySocial: SocialData :=
    SocialData(false, None, HnData(None, None, [], 0, None), RedditData(None, [], 0, None))

  /** True when either provider reports at least one comment. */
  predicate HasComments(a: Article)
  {
    a.social.hn.commentCount > 0 || a.social.reddit.commentCount > 0
  }

  /** JavaScript truthiness of a `string | null | undefined` value. */
  predicate Truthy(s: Option<string>)
  {
    s.Some? && s.value != ""
  }

  /** JavaScript truthiness of a `number | null` timestamp: 0 counts as unset. */
  predicate TruthyTime(t: Option<int>)
  {
    t.Some? && t.value != 0
  }

  /** JavaScript's `x || null` on an optional string. */
  function OrNull(s: Option<string>): (r: Option<string>)
    ensures Truthy(s) ==> r == s
    ensures !Truthy(s) ==> r == None
  {
    if Truthy(s) then s else None
  }
}
