/** Feed item normalisation (src/services/rssParser.ts): RSS 2.0 `<item>` and Atom `<entry>`
    elements (section 4.1.2 of RFC 4287) become canonical articles.

    XML parsing itself is not modelled: a document is either malformed or the sequence of its
    item/entry elements in document order, each given by the text of its first descendant
    element per tag name and by the `href` attributes of its first `link[rel="alternate"]`
    (section 4.2.7 of RFC 4287) and its first `link` element. HTML stripping of the
    description and the clock are parameters. */
module RssParser {
  import opened Types
  import opened Text
  import Seqs

  /** One `<item>` or `<entry>` element. Each text field is the text content of the first
      descendant element with that tag name, `None` when there is no such element. An href is
      `None` when the element or its attribute is missing. */
  datatype RawItem = RawItem(title: Option<string>, link: Option<string>,
                             description: Option<string>, summary: Option<string>,
                             content: Option<string>, pubDate: Option<string>,
                             published: Option<string>, updated: Option<string>,
                             alternateHref: Option<string>, linkHref: Option<string>)

  /** A fetched feed document: either rejected by the XML parser or its items in order. */
  datatype XmlDocument = Malformed | Document(items: seq<RawItem>)

  const ParseErrorMessage := "Failed to parse RSS feed."
  const DescriptionLimit := 300
  const Ellipsis := "..."

  // ---------------------------------------------------------------------------------------
  // The link checksum

  const TwoTo31: int := 0x8000_0000
  const TwoTo32: int := 0x1_0000_0000

  /** ECMAScript's ToInt32 (what `x | 0` does): the signed 32-bit integer congruent to `x`
      modulo 2^32. */
  function ToInt32(x: int): (r: int)
    ensures -TwoTo31 <= r < TwoTo31
    ensures (x - r) % TwoTo32 == 0
  {
    var m := x % TwoTo32;
    if m >= TwoTo31 then m - TwoTo32 else m
  }

  /** ToInt32 depends only on the residue modulo 2^32. */
  lemma ToInt32Shift(y: int, k: int)
    ensures ToInt32(y + k * TwoTo32) == ToInt32(y)
  {
    var x := y + k * TwoTo32;
    assert (x - y) % TwoTo32 == 0;
    var rx, ry := ToInt32(x), ToInt32(y);
    assert (rx - ry) % TwoTo32 == 0;
  }

  /** The UTF-16 code unit `charCodeAt` reads for a character of the Basic Multilingual
      Plane. */
  function CharCode(c: char): int
  {
    c as int
  }

  /** One step of the checksum: `h` becomes `h * 31 + code`, wrapped to a signed 32-bit
      integer. */
  function HashStep(h: int, code: int): int
  {
    ToInt32(h * 31 + code)
  }

  /** The checksum of `s`: it starts at 0 and takes one step per character, left to right. */
  function HashOf(s: string): (h: int)
    ensures -TwoTo31 <= h < TwoTo31
  {
    if s == [] then 0 else HashStep(HashOf(s[..|s| - 1]), CharCode(s[|s| - 1]))
  }

  /** The article id of a link: the decimal rendering of its checksum. */
  function LinkId(link: string): string
  {
    IntToString(HashOf(link))
  }

  /** The source's update `(hash << 5) - hash + char` followed by `| 0` is one checksum
      step: the shift is a multiplication by 32 wrapped to 32 bits, and the final
      wrap absorbs the inner one. */
  lemma ShiftUpdateIsStep(h: int, code: int)
    ensures ToInt32(ToInt32(h * 32) - h + code) == HashStep(h, code)
  {
    var shifted := ToInt32(h * 32);
    var k := (h * 32 - shifted) / TwoTo32;
    assert h * 32 == shifted + k * TwoTo32;
    assert shifted - h + code == (h * 31 + code) + (-k) * TwoTo32;
    ToInt32Shift(h * 31 + code, -k);
  }

  /** `stringToHash`: the loop `hash = (hash << 5) - hash + char; hash |= 0` over every
      character, then `hash.toString()`. */
  method StringToHash(str: string) returns (id: string)
    ensures id == LinkId(str)
  {
    var hash := 0;
    for i := 0 to |str|
      invariant hash == HashOf(str[..i])
    {
      var code := CharCode(str[i]);
      ShiftUpdateIsStep(hash, code);
      hash := ToInt32(ToInt32(hash * 32) - hash + code);
      assert str[..i + 1][..i] == str[..i];
    }
    assert str[..|str|] == str;
    id := IntToString(hash);
  }

  /** Appending a character advances the checksum by one step. */
  lemma HashOfAppend(s: string, c: char)
    ensures HashOf(s + [c]) == HashStep(HashOf(s), CharCode(c))
  {
    assert (s + [c])[..|s|] == s;
  }

  /** Links with different checksums get different ids: the id identifies the checksum. */
  lemma LinkIdDistinguishesHashes(a: string, b: string)
    requires HashOf(a) != HashOf(b)
    ensures LinkId(a) != LinkId(b)
  {
    if LinkId(a) == LinkId(b) {
      IntToStringInjective(HashOf(a), HashOf(b));
    }
  }

  // ---------------------------------------------------------------------------------------
  // Item fields

  /** `getElementText`: the trimmed text of the element, or "" when there is none. */
  function GetElementText(node: Option<string>): (r: string)
    ensures node.None? ==> r == ""
    ensures node.Some? ==> r == Trim(node.value)
  {
    if node.Some? then Trim(node.value) else ""
  }

  /** JavaScript's `a || b || c` on strings: the first non-empty one, else `c`. */
  function FirstNonEmpty(a: string, b: string, c: string): (r: string)
    ensures r == a || r == b || r == c
    ensures r == "" <==> a == "" && b == "" && c == ""
    ensures a != "" ==> r == a
    ensures a == "" && b != "" ==> r == b
    ensures a == "" && b == "" ==> r == c
  {
    if a != "" then a else if b != "" then b else c
  }

  /** The item's link: the `rel="alternate"` href, else the first link's href, else the
      first link's text. */
  function ResolveLink(item: RawItem): (r: string)
    ensures Truthy(item.alternateHref) ==> r == item.alternateHref.value
    ensures !Truthy(item.alternateHref) && Truthy(item.linkHref) ==> r == item.linkHref.value
    ensures !Truthy(item.alternateHref) && !Truthy(item.linkHref) ==> r == GetElementText(item.link)
  {
    FirstNonEmpty(item.alternateHref.GetOr(""), item.linkHref.GetOr(""), GetElementText(item.link))
  }

  /** The description or summary or content text, before HTML stripping. */
  function RawDescription(item: RawItem): string
  {
    FirstNonEmpty(GetElementText(item.description), GetElementText(item.summary),
                  GetElementText(item.content))
  }

  /** The stripped, trimmed description cut to 300 characters, with "..." always appended.
      `stripHtml(x)` is the text content of the HTML document `<div>x</div>`, "" when it has
      none. */
  function Description(item: RawItem, stripHtml: string -> string): (r: string)
    ensures 3 <= |r| <= DescriptionLimit + 3
    ensures r[|r| - 3..] == Ellipsis
    ensures var t := Trim(stripHtml(RawDescription(item)));
            |r| - 3 <= |t| && r[..|r| - 3] == t[..|r| - 3]
    ensures |Trim(stripHtml(RawDescription(item)))| <= DescriptionLimit ==>
              r == Trim(stripHtml(RawDescription(item))) + Ellipsis
    ensures var t := Trim(stripHtml(RawDescription(item)));
            |t| > DescriptionLimit ==> r == t[..DescriptionLimit] + Ellipsis
  {
    Prefix(Trim(stripHtml(RawDescription(item))), DescriptionLimit) + Ellipsis
  }

  /** The publication date text: the first non-empty of pubDate, published and updated,
      else `now`, the ISO rendering of the time of the parse. */
  function PublishedAt(item: RawItem, now: string): string
  {
    var text := FirstNonEmpty(GetElementText(item.pubDate), GetElementText(item.published),
                              GetElementText(item.updated));
    if text != "" then text else now
  }

  /** What every parsed article satisfies: it carries its feed's name and url and an empty
      enrichment record, its id is its link's checksum, and its description ends in "..."
      after at most 300 characters. */
  predicate Normalised(a: Article, feed: Feed)
  {
    && a.feedName == feed.name && a.feedUrl == feed.url
    && a.social == EmptySocial
    && a.id == LinkId(a.link)
    && 3 <= |a.description| <= DescriptionLimit + 3
    && a.description[|a.description| - 3..] == Ellipsis
  }

  /** The article an item maps to, before the title/link filter. */
  function MakeArticle(item: RawItem, feed: Feed, now: string, stripHtml: string -> string)
    : (a: Article)
    ensures a.link == ResolveLink(item) && a.title == GetElementText(item.title)
  {
    var link := ResolveLink(item);
    Article(LinkId(link), GetElementText(item.title), link, Description(item, stripHtml),
            feed.name, feed.url, PublishedAt(item, now), EmptySocial)
  }

  /** Every mapped item is a normalised article of its feed. */
  lemma MakeArticleNormalised(item: RawItem, feed: Feed, now: string, stripHtml: string -> string)
    ensures Normalised(MakeArticle(item, feed, now, stripHtml), feed)
  {
  }

  /** The per-item mapping of one parse, as a function value. */
  function ArticleOf(feed: Feed, now: string, stripHtml: string -> string): RawItem -> Article
  {
    item => MakeArticle(item, feed, now, stripHtml)
  }

  /** `items.map(...)`. */
  function MapItems(items: seq<RawItem>, feed: Feed, now: string, stripHtml: string -> string)
    : (r: seq<Article>)
    ensures |r| == |items|
    ensures forall i :: 0 <= i < |r| ==> r[i] == MakeArticle(items[i], feed, now, stripHtml)
  {
    Seqs.Map(ArticleOf(feed, now, stripHtml), items)
  }

  /** The filter `article.title && article.link`. */
  predicate IsComplete(a: Article)
  {
    a.title != "" && a.link != ""
  }

  /** `parseRssFeed`: a malformed document throws; otherwise every item is mapped and
      those with an empty title or link are dropped. */
  function ParseRssFeed(doc: XmlDocument, feed: Feed, now: string, stripHtml: string -> string)
    : (r: Result<seq<Article>, string>)
    ensures doc.Malformed? <==> r.Failure?
    ensures r.Failure? ==> r.error == ParseErrorMessage
    ensures r.Success? ==> |r.value| <= |doc.items|
    ensures r.Success? ==> forall i :: 0 <= i < |r.value| ==>
              IsComplete(r.value[i]) && Normalised(r.value[i], feed)
    ensures doc.Document? ==> r == Success(Articles(doc.items, feed, now, stripHtml))
  {
    match doc
    case Malformed => Failure(ParseErrorMessage)
    case Document(items) =>
      var mapped := MapItems(items, feed, now, stripHtml);
      var kept := Articles(items, feed, now, stripHtml);
      forall i | 0 <= i < |kept| ensures Normalised(kept[i], feed) {
        assert kept[i] in mapped;
        var j :| 0 <= j < |mapped| && mapped[j] == kept[i];
        MakeArticleNormalised(items[j], feed, now, stripHtml);
      }
      Success(kept)
  }

  /** The articles of a well-formed document. */
  function Articles(items: seq<RawItem>, feed: Feed, now: string, stripHtml: string -> string)
    : seq<Article>
  {
    Seqs.Filter(IsComplete, MapItems(items, feed, now, stripHtml))
  }

  /** Document order is kept: the articles of two consecutive runs of items are the articles
      of the first run followed by those of the second. */
  lemma ArticlesAppend(a: seq<RawItem>, b: seq<RawItem>, feed: Feed, now: string,
                       stripHtml: string -> string)
    ensures Articles(a + b, feed, now, stripHtml)
         == Articles(a, feed, now, stripHtml) + Articles(b, feed, now, stripHtml)
  {
    var f := ArticleOf(feed, now, stripHtml);
    Seqs.MapAppend(f, a, b);
    Seqs.FilterAppend(IsComplete, Seqs.Map(f, a), Seqs.Map(f, b));
  }

  /** A single item yields exactly its article when it has a title and a link, else nothing. */
  lemma ArticlesSingle(item: RawItem, feed: Feed, now: string, stripHtml: string -> string)
    ensures var a := MakeArticle(item, feed, now, stripHtml);
            Articles([item], feed, now, stripHtml) == if IsComplete(a) then [a] else []
  {
  }

  /** When every item has a title and a link, the output has one article per item, in
      document order. */
  lemma ArticlesAllComplete(items: seq<RawItem>, feed: Feed, now: string,
                            stripHtml: string -> string)
    requires forall i :: 0 <= i < |items| ==>
               GetElementText(items[i].title) != "" && ResolveLink(items[i]) != ""
    ensures var r := Articles(items, feed, now, stripHtml);
            |r| == |items|
            && forall i :: 0 <= i < |r| ==> r[i] == MakeArticle(items[i], feed, now, stripHtml)
  {
    Seqs.FilterAllKept(IsComplete, MapItems(items, feed, now, stripHtml));
  }

  /** An item whose title or link resolves to "" contributes nothing. */
  lemma IncompleteItemDropped(before: seq<RawItem>, item: RawItem, after: seq<RawItem>,
                              feed: Feed, now: string, stripHtml: string -> string)
    requires GetElementText(item.title) == "" || ResolveLink(item) == ""
    ensures Articles(before + [item] + after, feed, now, stripHtml)
         == Articles(before + after, feed, now, stripHtml)
  {
    ArticlesAppend(before + [item], after, feed, now, stripHtml);
    ArticlesAppend(before, [item], feed, now, stripHtml);
    ArticlesAppend(before, after, feed, now, stripHtml);
    ArticlesSingle(item, feed, now, stripHtml);
  }

  /** The date fallback: the pubDate, published or updated text in that order, else the time
      of the parse; an element with only whitespace counts as missing. */
  lemma PublishedAtFallback(item: RawItem, now: string)
    ensures GetElementText(item.pubDate) != "" ==>
              PublishedAt(item, now) == GetElementText(item.pubDate)
    ensures GetElementText(item.pubDate) == "" && GetElementText(item.published) != "" ==>
              PublishedAt(item, now) == GetElementText(item.published)
    ensures GetElementText(item.pubDate) == "" && GetElementText(item.published) == ""
            && GetElementText(item.updated) != "" ==>
              PublishedAt(item, now) == GetElementText(item.updated)
    ensures (GetElementText(item.pubDate) == "" && GetElementText(item.published) == ""
             && GetElementText(item.updated) == "") ==> PublishedAt(item, now) == now
  {
  }
}
