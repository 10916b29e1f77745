/** The scenarios of src/services/rssParser.test.ts, stated about the parser model for every
    choice of the texts involved: the malformed document, the filter on title and link, and
    an Atom entry with an alternate link, an `updated` date and HTML content. */
module RssParserScenarios {
  import opened Types
  import opened Text
  import opened RssParser

  /** A malformed document throws the parse error and yields no articles. */
  lemma MalformedDocumentFails(feed: Feed, now: string, stripHtml: string -> string)
    ensures ParseRssFeed(Malformed, feed, now, stripHtml) == Failure("Failed to parse RSS feed.")
  {
  }

  /** An item with only a title and a link element. */
  function TextItem(title: Option<string>, link: Option<string>): RawItem
  {
    RawItem(title, link, None, None, None, None, None, None, None, None)
  }

  /** An item whose title and link are not blank is kept, trimmed. */
  lemma TitledLinkedItemKept(title: string, link: string, feed: Feed, now: string,
                             stripHtml: string -> string)
    requires Trim(title) != "" && Trim(link) != ""
    ensures var r := Articles([TextItem(Some(title), Some(link))], feed, now, stripHtml);
            |r| == 1 && r[0].title == Trim(title) && r[0].link == Trim(link)
  {
    ArticlesSingle(TextItem(Some(title), Some(link)), feed, now, stripHtml);
  }

  /** Items without a link element or without a title element are dropped. */
  lemma UntitledOrUnlinkedDropped(title: string, link: string, feed: Feed, now: string,
                                  stripHtml: string -> string)
    ensures Articles([TextItem(Some(title), None), TextItem(None, Some(link))], feed, now,
                     stripHtml) == []
  {
    var noLink, noTitle := TextItem(Some(title), None), TextItem(None, Some(link));
    ArticlesSingle(noLink, feed, now, stripHtml);
    ArticlesSingle(noTitle, feed, now, stripHtml);
    ArticlesAppend([noLink], [noTitle], feed, now, stripHtml);
    assert [noLink] + [noTitle] == [noLink, noTitle];
  }

  /** A good item, an item without a link and an item without a title: only the first
      survives, with its trimmed title and link. */
  lemma IncompleteItemsFiltered(title: string, link: string, otherTitle: string,
                                otherLink: string, feed: Feed, now: string,
                                stripHtml: string -> string)
    requires Trim(title) != "" && Trim(link) != ""
    ensures var good := TextItem(Some(title), Some(link));
            var noLink := TextItem(Some(otherTitle), None);
            var noTitle := TextItem(None, Some(otherLink));
            var r := ParseRssFeed(Document([good, noLink, noTitle]), feed, now, stripHtml);
            r.Success? && |r.value| == 1 && r.value[0].title == Trim(title)
            && r.value[0].link == Trim(link)
  {
    var good := TextItem(Some(title), Some(link));
    var noLink := TextItem(Some(otherTitle), None);
    var noTitle := TextItem(None, Some(otherLink));
    TitledLinkedItemKept(title, link, feed, now, stripHtml);
    UntitledOrUnlinkedDropped(otherTitle, otherLink, feed, now, stripHtml);
    ArticlesAppend([good], [noLink, noTitle], feed, now, stripHtml);
    assert [good] + [noLink, noTitle] == [good, noLink, noTitle];
  }

  /** An Atom entry: the alternate link wins over the link element's empty text, the
      `updated` text is the date, and the stripped content, shorter than the limit, is the
      description with "..." appended. */
  lemma AtomEntryParsed(title: string, link: string, updated: string, content: string,
                        feed: Feed, now: string, stripHtml: string -> string)
    requires Trim(title) != "" && link != "" && Trim(updated) != ""
    requires |Trim(stripHtml(Trim(content)))| <= DescriptionLimit
    ensures var entry := RawItem(Some(title), Some(""), None, None, Some(content), None, None,
                                 Some(updated), Some(link), Some(link));
            var r := ParseRssFeed(Document([entry]), feed, now, stripHtml);
            r.Success? && |r.value| == 1
            && r.value[0].title == Trim(title)
            && r.value[0].link == link
            && r.value[0].pubDate == Trim(updated)
            && r.value[0].description == Trim(stripHtml(Trim(content))) + Ellipsis
            && r.value[0].feedName == feed.name && r.value[0].feedUrl == feed.url
  {
    var entry := RawItem(Some(title), Some(""), None, None, Some(content), None, None,
                         Some(updated), Some(link), Some(link));
    assert RawDescription(entry) == Trim(content);
    assert PublishedAt(entry, now) == Trim(updated);
    ArticlesSingle(entry, feed, now, stripHtml);
  }

  /** An RSS 2.0 item: the link element's text is the link, the `pubDate` text is the date,
      and the stripped description, shorter than the limit, is the description with "..."
      appended. */
  lemma Rss2ItemParsed(title: string, link: string, pubDate: string, description: string,
                       feed: Feed, now: string, stripHtml: string -> string)
    requires Trim(title) != "" && Trim(link) != "" && Trim(pubDate) != ""
    requires |Trim(stripHtml(Trim(description)))| <= DescriptionLimit
    ensures var item := RawItem(Some(title), Some(link), Some(description), None, None,
                                Some(pubDate), None, None, None, None);
            var r := ParseRssFeed(Document([item]), feed, now, stripHtml);
            r.Success? && |r.value| == 1
            && r.value[0].title == Trim(title)
            && r.value[0].link == Trim(link)
            && r.value[0].pubDate == Trim(pubDate)
            && r.value[0].description == Trim(stripHtml(Trim(description))) + Ellipsis
            && r.value[0].feedName == feed.name && r.value[0].feedUrl == feed.url
  {
    var item := RawItem(Some(title), Some(link), Some(description), None, None,
                        Some(pubDate), None, None, None, None);
    assert ResolveLink(item) == Trim(link);
    assert RawDescription(item) == Trim(description);
    assert PublishedAt(item, now) == Trim(pubDate);
    ArticlesSingle(item, feed, now, stripHtml);
  }
}
