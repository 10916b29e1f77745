# Echo Chamber, modelled in Dafny

Echo Chamber is a browser RSS reader. It keeps a list of feeds and fetches and parses them
into articles. It enriches each article with its discussion threads from Hacker News (via the
Algolia search API) and from Reddit. The articles are shown as a paginated list that
interleaves the feeds round by round. Feeds can be added by hand or imported from a JSON file
or URL.

This project models the logic core of the application and proves properties of it:

| module | file | models |
|---|---|---|
| `Types` | types.dfy | the records of src/types.ts and types.ts (feeds, articles, comments, provider data), with JavaScript truthiness helpers |
| `Seqs` | seqs.dfy | `filter`, `map`, `flat` and the stable newest-first `sort` that the code calls, with their lemmas |
| `Text` | text.dfy | `String.prototype.trim`, `substring` and the decimal rendering of numbers |
| `RssParser` | rss_parser.dfy | src/services/rssParser.ts: the 32-bit link checksum, the element fallbacks and the item normalisation and filtering |
| `RssParserScenarios` | rss_parser_scenarios.dfy | the cases of src/services/rssParser.test.ts, stated for arbitrary texts |
| `SocialApi` | social_api.dfy | src/services/socialApi.ts: the recursive comment-tree builders, both provider lookups and the combiner |
| `FeedManager` | feed_manager.dfy | src/hooks/useFeedManager.tsx: the `FeedStore` class, with feed add, remove and import, the refresh guard, cap and merge, the `isFetching` lifecycle and the social-check queue and worker |
| `ArticleList` | article_list.dfy | src/components/ArticleList.tsx: the round-robin interleaving and the pagination |
| `SettingsModal` | settings_modal.dfy | src/components/SettingsModal.tsx: the add-feed guards, the import validator, and the file and URL import handlers |
| `LegacySocialApi` | legacy_social_api.dfy | the earlier services/socialApi.ts, which looks up by link and builds flat comment lists |
| `LegacyFeedManager` | legacy_feed_manager.dfy | the earlier hooks/useFeedManager.ts, with a merge-then-sort store and the `hasFetchedAll` gate |

The model's conventions:
- Every outside effect is an input:
  - network responses are values of `Response` datatypes, passed in as functions from the
    query key to the response;
  - the current time is an `int`;
  - a date text is read as a timestamp by a parameter function `timeOf`;
  - HTML stripping, entity decoding and URL validity are parameter functions;
  - the message of an engine `TypeError` is a parameter string.
- `pubDate` stays the text the feed gave. The code stores the text and converts it only when
  it compares two articles. The model follows the code in this, not a design that would store
  a timestamp.
- Each asynchronous handler is split at its `await`. A `Begin…` method checks the guards and
  records the start. A `Settle…` or `Complete…` method applies the awaited outcome. A method
  with the handler's own name runs both and is proved equal to a specification function.
- JavaScript's `x && …` and `x || y` are modelled by truthiness. A timestamp of `0` and an
  empty string therefore count as unset, as they do in the code.

## Model

| member | source | states |
|---|---|---|
| Types.OrNull | src/services/socialApi.ts:126-127 | `x \|\| null`: a falsy optional text becomes null, and a truthy one is kept |
| Seqs.Filter | src/hooks/useFeedManager.tsx:51-52 | `Array.prototype.filter`: no more elements than the input, each satisfying the predicate and taken from the input |
| Seqs.FilterMember | src/hooks/useFeedManager.tsx:51-52 | an element is kept exactly when it is in the input and satisfies the predicate |
| Seqs.Map | src/hooks/useFeedManager.tsx:155 | `Array.prototype.map`: same length, and element `i` is `f` of input element `i` |
| Seqs.SortDesc | src/components/ArticleList.tsx:26 | the comparator sort `b - a` on timestamps: a newest-first arrangement with the same length and multiset as its input |
| Seqs.SortDescSorted | src/components/ArticleList.tsx:26 | the sorted list is non-increasing in the key |
| Seqs.SortDescOfSorted | hooks/useFeedManager.ts:77 | sorting a list that is already newest first returns it unchanged (the sort is stable) |
| Seqs.SortDescDistinct | hooks/useFeedManager.ts:77 | sorting keeps the keys of a list with distinct keys distinct |
| Seqs.FilterPermutation | src/components/ArticleList.tsx:15-17 | filtering two permutations of each other gives permutations of each other |
| Text.TrimShape | src/components/SettingsModal.tsx:25 | `trim()` removes exactly the leading and trailing whitespace: the result is a contiguous slice with non-blank ends, and all that is cut off is whitespace |
| Text.TrimIdempotent | src/services/rssParser.ts:16 | trimming twice is trimming once |
| Text.TrimFixedPoint | src/services/rssParser.ts:41 | a text is its own trim exactly when it is empty or has non-blank ends |
| Text.Prefix | src/services/rssParser.ts:41 | `substring(0, n)`: the whole text when it is no longer than `n`, and exactly its first `n` characters otherwise |
| Text.NatToString | src/services/socialApi.ts:19 | decimal rendering: non-empty, all digits, no leading zero |
| Text.IntToStringInjective | src/services/socialApi.ts:19 | different numbers give different decimal texts, so `hn-${id}` keeps ids apart |
| RssParser.ToInt32 | src/services/rssParser.ts:9 | `hash \|= 0`: the signed 32-bit value congruent to its input modulo 2^32 |
| RssParser.ToInt32Shift | src/services/rssParser.ts:9 | adding a multiple of 2^32 does not change the 32-bit value |
| RssParser.HashOf | src/services/rssParser.ts:4-11 | the checksum of a text is always a signed 32-bit integer |
| RssParser.ShiftUpdateIsStep | src/services/rssParser.ts:8-9 | `(hash << 5) - hash + char`, wrapped, equals the step `hash * 31 + char` wrapped to 32 bits |
| RssParser.StringToHash | src/services/rssParser.ts:4-12 | the character loop returns the decimal text of the checksum of the whole string |
| RssParser.HashOfAppend | src/services/rssParser.ts:6-10 | the checksum of `s + [c]` is one step applied to the checksum of `s`, starting from 0 |
| RssParser.LinkIdDistinguishesHashes | src/services/rssParser.ts:46 | links with different checksums get different article ids (equal links always share one) |
| RssParser.GetElementText | src/services/rssParser.ts:14-17 | a missing element gives `''`, and a present one its trimmed text |
| RssParser.FirstNonEmpty | src/services/rssParser.ts:37 | the `a \|\| b \|\| c` chain: the first non-empty of three texts, and empty only when all three are |
| RssParser.ResolveLink | src/services/rssParser.ts:34-35 | the link is the `rel="alternate"` href, else the first `link` href, else the `link` text |
| RssParser.Description | src/services/rssParser.ts:37-41 | the trimmed stripped description, cut to 300 characters, with `...` always appended: 3 to 303 characters, the whole text plus `...` when it fits, and exactly its first 300 characters plus `...` when it does not |
| RssParser.PublishedAtFallback | src/services/rssParser.ts:43 | pubDate is the first non-empty of `pubDate`, `published`, `updated`, else the current time's text |
| RssParser.MakeArticle | src/services/rssParser.ts:30-59 | the article's title is the `title` text and its link the resolved link |
| RssParser.MakeArticleNormalised | src/services/rssParser.ts:45-59 | every article has the checksum id of its link, the feed's name and url, and the empty social record (not fetching, never checked, both providers null with no comments) |
| RssParser.MapItems | src/services/rssParser.ts:28-30 | one article per item, in document order |
| RssParser.ParseRssFeed | src/services/rssParser.ts:19-61 | a document with a parser error fails with `Failed to parse RSS feed.` and only such a one fails; otherwise the result is the item-by-item mapping with incomplete articles dropped, so every returned article is complete and normalised, and there are no more than the items |
| RssParser.ArticlesAppend | src/services/rssParser.ts:30-60 | the map and filter run item by item: the articles of `a + b` are those of `a` followed by those of `b` |
| RssParser.ArticlesSingle | src/services/rssParser.ts:60 | one item gives its article exactly when title and link are non-empty |
| RssParser.ArticlesAllComplete | src/services/rssParser.ts:60 | when every item has a title and a link, nothing is dropped and order is kept |
| RssParser.IncompleteItemDropped | src/services/rssParser.ts:60 | an item without a title or link is removed and nothing else changes |
| RssParserScenarios.MalformedDocumentFails | src/services/rssParser.test.ts:60-67 | a broken document yields the parse error and no articles |
| RssParserScenarios.Rss2ItemParsed | src/services/rssParser.test.ts:48-58 | an RSS 2.0 item gives one article with the trimmed title, the link element's text, its `pubDate` and its description with `...`, and the feed's name and url |
| RssParserScenarios.TitledLinkedItemKept | src/services/rssParser.test.ts:72 | an RSS item with a title and a text link gives one article with the trimmed title and link |
| RssParserScenarios.UntitledOrUnlinkedDropped | src/services/rssParser.test.ts:73-74 | an item without a link and one without a title both give nothing |
| RssParserScenarios.IncompleteItemsFiltered | src/services/rssParser.test.ts:69-80 | of a good item, a link-less one and a title-less one, only the good one survives |
| RssParserScenarios.AtomEntryParsed | src/services/rssParser.test.ts:36-46 | an Atom entry takes its alternate href, its `updated` date and its `content` as description with `...`, and the feed's name and url |
| SocialApi.CommentForestAppend | src/services/socialApi.ts:16-25 | joining two forests at the same depth gives a forest at that depth |
| SocialApi.ParseHnComments | src/services/socialApi.ts:14-26 | the HN tree builder gives no more comments than nodes; every comment sits at the given depth with its children one deeper, all the way down, with `hn-` ids, item urls and non-empty bodies |
| SocialApi.ParseHnAppend | src/services/socialApi.ts:16-17 | the builder works node by node: the comments of `a + b` are those of `a` then those of `b` |
| SocialApi.ParseHnNode | src/services/socialApi.ts:17-25 | a node without text (or null) gives nothing; a kept node gives `hn-<id>`, its author or `[deleted]`, its text, its item url, the given depth and its children parsed one level deeper |
| SocialApi.HnNodeDropped | src/services/socialApi.ts:17 | removing a text-less node, and with it its subtree, leaves the other comments unchanged |
| SocialApi.ParseRedditComments | src/services/socialApi.ts:62-78 | the Reddit tree builder gives no more comments than things, all at the given depth with children one deeper, with `reddit-` ids and reddit.com urls |
| SocialApi.ParseRedditAppend | src/services/socialApi.ts:64-65 | the builder works thing by thing over concatenation |
| SocialApi.ParseRedditThing | src/services/socialApi.ts:65-77 | only a `t1` thing with a body is kept: `reddit-<id>`, the author, the decoded `body_html`, the permalink url, and its replies parsed one level deeper |
| SocialApi.RedditThingDropped | src/services/socialApi.ts:65 | removing a non-`t1` or body-less thing leaves the other comments unchanged |
| SocialApi.HnLookup | src/services/socialApi.ts:28-60 | the HN record is consistent: an error comes with no comments and a zero count |
| SocialApi.HnLookupOutcomes | src/services/socialApi.ts:30-58 | a failed or thrown step gives that status or message as the error; no hit gives `Not found on HN`; a hit with no comments gives its id and url and no error; otherwise the parsed item children with the hit's count |
| SocialApi.HnZeroCountSkipsItem | src/services/socialApi.ts:43-45 | with a zero count the item endpoint is never consulted |
| SocialApi.HnCountIsReported | src/services/socialApi.ts:41-54 | for every lookup whose hit has a non-zero count and whose item loads, the count is the hit's `num_comments` whatever comment nodes the item holds, and the comments are the parsed tree of those nodes |
| SocialApi.FetchHnData | src/services/socialApi.ts:28-60 | the early-return procedure returns exactly the lookup's record |
| SocialApi.RedditLookup | src/services/socialApi.ts:80-114 | the Reddit record is consistent: an error comes with no url, no comments and a zero count |
| SocialApi.RedditLookupOutcomes | src/services/socialApi.ts:82-112 | a failed or thrown step gives its error; no result gives `Not found on Reddit` and a null url; a zero count gives the submission url with no comments and no error; otherwise the second listing's comments with the post's count |
| SocialApi.FetchRedditData | src/services/socialApi.ts:80-114 | the early-return procedure returns exactly the lookup's record |
| SocialApi.CombineSocialData | src/services/socialApi.ts:117-138 | the combined record has `lastSocialCheck = now`, is not fetching, nulls falsy ids and urls, and passes comments, counts and errors through |
| SocialApi.ProvidersIndependent | src/services/socialApi.ts:118-121 | each provider's part of the record depends only on that provider's result |
| SocialApi.FetchSocialDataForArticle | src/services/socialApi.ts:117-139 | both lookups use the article's title, and the result is the combination of the two, stamped with `now` |
| FeedManager.UrlIndex | src/hooks/useFeedManager.tsx:45 | `feeds.some(f => f.url === u)`: the first position holding the url, or -1 exactly when none does |
| FeedManager.UpsertUnique | src/hooks/useFeedManager.tsx:60 | `Map.set` on a url-keyed list keeps urls distinct |
| FeedManager.UpsertOtherUrl | src/hooks/useFeedManager.tsx:60 | setting one url moves no other url and changes no other entry |
| FeedManager.UrlMapOfUnique | src/hooks/useFeedManager.tsx:57 | the `Map` built from a list with distinct urls lists it unchanged |
| FeedManager.ImportAllAppend | src/hooks/useFeedManager.tsx:58-62 | importing `a + b` is importing `a` and then `b` |
| FeedManager.ImportSkipsInvalid | src/hooks/useFeedManager.tsx:59 | an entry without name or url is ignored |
| FeedManager.ImportAllUnique | src/hooks/useFeedManager.tsx:55-65 | urls stay distinct after an import |
| FeedManager.ImportKeepsPositions | src/hooks/useFeedManager.tsx:57-63 | existing feeds keep their positions and urls; the list only grows |
| FeedManager.ImportRetains | src/hooks/useFeedManager.tsx:57-63 | an existing feed that the import does not mention is kept unchanged |
| FeedManager.ImportLastWins | src/hooks/useFeedManager.tsx:58-62 | for a repeated url the last valid imported entry is the one stored |
| FeedManager.SelfImportIdentity | src/hooks/useFeedManager.tsx:55-65 | importing the current list into itself changes nothing |
| FeedManager.FindIndex | src/hooks/useFeedManager.tsx:115 | `articles.find(a => a.id === id)`: the first position with the id, or -1 exactly when none has it |
| FeedManager.MergeById | src/hooks/useFeedManager.tsx:95-103 | the stored articles are a prefix of the merge, ids stay distinct, and nothing comes from outside the store and the batch |
| FeedManager.MergeCoversBatch | src/hooks/useFeedManager.tsx:97-101 | every id of the batch is present after the merge |
| FeedManager.MergeKnownOnly | src/hooks/useFeedManager.tsx:98 | a batch of known ids leaves the store unchanged |
| FeedManager.MergeIdempotent | src/hooks/useFeedManager.tsx:95-103 | merging the same batch twice is merging it once |
| FeedManager.MergeFirstWins | src/hooks/useFeedManager.tsx:98-99 | a new id is represented by its first occurrence in the batch, and only by that one |
| FeedManager.MergeByIdSingle | src/hooks/useFeedManager.tsx:97-101 | one batch article is appended at the end exactly when its id is not yet present, and otherwise changes nothing |
| FeedManager.MergeByIdAppend | src/hooks/useFeedManager.tsx:97-101 | the batch is merged left to right: merging `a + b` is merging `a`, then merging `b` into the result, so new articles are appended in batch order |
| FeedManager.MergeBatch | src/hooks/useFeedManager.tsx:96-102 | for a store with distinct ids (as the store keeps them), the `forEach` over the seeded `Map` returns exactly the merge |
| FeedManager.Capped | src/hooks/useFeedManager.tsx:85-92 | a feed contributes all its articles when it has at most 20, exactly its first 20 otherwise, and a failed feed none |
| FeedManager.NewArticlesAppend | src/hooks/useFeedManager.tsx:92-93 | the batch of `a + b` is the batch of `a` followed by that of `b` |
| FeedManager.FailedFeedContributesNothing | src/hooks/useFeedManager.tsx:85-88 | a failing feed adds nothing and does not disturb the others |
| FeedManager.NewArticlesBound | src/hooks/useFeedManager.tsx:92 | the batch has at most 20 articles per feed |
| FeedManager.PendingIds | src/hooks/useFeedManager.tsx:149-155 | the queue is no longer than the store |
| FeedManager.PendingIdsMember | src/hooks/useFeedManager.tsx:150-155 | an id is queued exactly when a stored article with that id has no comments and was not checked recently |
| FeedManager.PendingIdsAppend | src/hooks/useFeedManager.tsx:149-155 | queue order is store order |
| FeedManager.QueueMatchesUnforcedFetch | src/hooks/useFeedManager.tsx:119-153 | for an idle article, an unforced fetch goes ahead exactly when the queue would hold it |
| FeedManager.WithFetching | src/hooks/useFeedManager.tsx:125-143 | setting `isFetching` changes nothing else in the article |
| FeedManager.AfterFetch | src/hooks/useFeedManager.tsx:114-145 | a fetch changes at most the one article found by id, and only its `social` |
| FeedManager.ReplaceKeepsUniqueIds | src/hooks/useFeedManager.tsx:125-143 | replacing an article in place by one with the same id keeps ids distinct |
| FeedManager.AfterFetchKeepsUniqueIds | src/hooks/useFeedManager.tsx:114-145 | a fetch keeps ids distinct |
| FeedManager.FetchEligibility | src/hooks/useFeedManager.tsx:117-135 | an unforced fetch of an article with comments changes nothing; a forced successful fetch of an idle article installs the fetched record with `isFetching` false; a missing id changes nothing |
| FeedManager.FeedStore.constructor | src/hooks/useFeedManager.tsx:32-40 | the default feeds, no articles, never updated, not loading, initial load pending, empty articles shown, an empty queue and an idle worker |
| FeedManager.FeedStore.ToggleShowEmpty | src/hooks/useFeedManager.tsx:42 | the flag flips |
| FeedManager.FeedStore.AddFeed | src/hooks/useFeedManager.tsx:44-48 | the feed is appended exactly when its url is new; urls stay distinct |
| FeedManager.FeedStore.RemoveFeed | src/hooks/useFeedManager.tsx:50-53 | the feed and every article with that `feedUrl` go, and the rest keep their order |
| FeedManager.FeedStore.ImportFeeds | src/hooks/useFeedManager.tsx:55-65 | the feed list becomes the url-keyed import of the entries; urls stay distinct |
| FeedManager.FeedStore.BeginRefresh | src/hooks/useFeedManager.tsx:67-75 | the refresh starts exactly when not loading and (forced or the cache is stale); a fresh cache only clears `initialLoad` |
| FeedManager.FeedStore.CompleteRefresh | src/hooks/useFeedManager.tsx:91-111 | the store becomes the merge with the capped batch; `lastUpdated` is now and both flags are cleared; ids stay distinct |
| FeedManager.FeedStore.BeginSocialFetch | src/hooks/useFeedManager.tsx:114-128 | for an eligible article found by id, only its `isFetching` is set and it is returned for the lookup; otherwise nothing changes |
| FeedManager.FeedStore.SettleSocialFetch | src/hooks/useFeedManager.tsx:130-144 | success replaces the article's `social` with the record and `isFetching` false; failure only clears `isFetching` |
| FeedManager.FeedStore.FetchSocialData | src/hooks/useFeedManager.tsx:114-145 | the begin and settle steps together give exactly the specified fetch |
| FeedManager.FeedStore.RebuildQueue | src/hooks/useFeedManager.tsx:148-156 | the queue becomes the pending ids of the store |
| FeedManager.FeedStore.ProcessQueue | src/hooks/useFeedManager.tsx:160-172 | a busy worker or an empty queue does nothing; otherwise exactly one id is popped, fetched unforced, and the busy flag is clear afterwards |
| FeedManager.FilterKeepsUniqueUrls | src/hooks/useFeedManager.tsx:51 | removing feeds keeps urls distinct |
| FeedManager.FilterKeepsUniqueIds | src/hooks/useFeedManager.tsx:52 | removing articles keeps ids distinct |
| FeedManager.RemoveFeedCascade | src/hooks/useFeedManager.tsx:50-53 | a feed or article survives removal exactly when it is not at that url |
| ArticleList.Visible | src/components/ArticleList.tsx:15-17 | with `showEmpty` all articles, otherwise exactly those with HN or Reddit comments |
| ArticleList.NameIndex | src/components/ArticleList.tsx:20 | the position of a feed name among the groups, or -1 exactly when it has none |
| ArticleList.FeedNames | src/components/ArticleList.tsx:19-23 | the group keys are distinct and are exactly the feed names of the shown articles, in first-appearance order |
| ArticleList.GroupsFor | src/components/ArticleList.tsx:19-27 | group `j` is the articles of feed name `j`, sorted newest first |
| ArticleList.Pick | src/components/ArticleList.tsx:35-40 | a round holds at most one article per group |
| ArticleList.MaxLen | src/components/ArticleList.tsx:30-44 | the longest group's length: no group is longer, and one group reaches it |
| ArticleList.PickSnoc | src/components/ArticleList.tsx:35-40 | adding a group adds its `i`-th article, if any, at the end of round `i` |
| ArticleList.PickMember | src/components/ArticleList.tsx:36-37 | round `i` holds exactly the `i`-th articles of the groups that have one |
| ArticleList.RoundMember | src/components/ArticleList.tsx:36-41 | the sorted round holds the same articles |
| ArticleList.RoundSorted | src/components/ArticleList.tsx:41 | each round is newest first and a permutation of the picked articles |
| ArticleList.RoundsStep | src/components/ArticleList.tsx:42 | running one more round appends that round |
| ArticleList.RoundsPrefix | src/components/ArticleList.tsx:32-44 | earlier output is a prefix of later output |
| ArticleList.RoundPlacement | src/components/ArticleList.tsx:32-44 | round `i` follows all of rounds `0..i-1` and precedes all of round `i+1` onward |
| ArticleList.MoreArticles | src/components/ArticleList.tsx:33-39 | `hasMoreArticles` is set exactly when `i` is below the longest group's length, so the round at that length is empty |
| ArticleList.PickEmpty | src/components/ArticleList.tsx:36 | past every group's end a round is empty |
| ArticleList.PickStep | src/components/ArticleList.tsx:35-40 | the articles taken after round `n` are those taken before plus round `n` |
| ArticleList.RoundsBag | src/components/ArticleList.tsx:32-44 | the first `n` rounds hold exactly the first `n` articles of every group |
| ArticleList.PartsBag | src/components/ArticleList.tsx:41-42 | rounds that are permutations of the picks together hold exactly the taken articles |
| ArticleList.TakenBagZero | src/components/ArticleList.tsx:29 | before any round nothing is taken |
| ArticleList.TakenBagFull | src/components/ArticleList.tsx:32-44 | after as many rounds as the longest group, every grouped article is taken |
| ArticleList.GroupsForRestrict | src/components/ArticleList.tsx:19-23 | articles of other feeds do not affect a feed's group |
| ArticleList.GroupsBag | src/components/ArticleList.tsx:19-23 | the groups together with the ungrouped articles are exactly the input |
| ArticleList.AllGrouped | src/components/ArticleList.tsx:19-27 | every shown article lands in exactly one group |
| ArticleList.InterleavedPermutation | src/components/ArticleList.tsx:14-47 | the interleaved list is a permutation of the shown articles: each appears exactly once |
| ArticleList.PickOfFeed | src/components/ArticleList.tsx:35-40 | a round holds feed `j`'s `i`-th article and no other of that feed |
| ArticleList.PickOfOtherFeeds | src/components/ArticleList.tsx:35-40 | a round holds nothing of a feed without a group |
| ArticleList.RoundOfFeed | src/components/ArticleList.tsx:41 | sorting a round does not change what it holds of one feed |
| ArticleList.RoundsOfFeed | src/components/ArticleList.tsx:32-44 | the first `n` rounds hold, of one feed, exactly the first `n` articles of its group, in order |
| ArticleList.AllRoundsOfFeed | src/components/ArticleList.tsx:32-44 | once the rounds cover a group, they hold that feed's whole group in order |
| ArticleList.GroupsTagged | src/components/ArticleList.tsx:19-23 | every article of group `j` belongs to feed name `j` |
| ArticleList.FeedInterleaved | src/components/ArticleList.tsx:19-44 | the articles of one feed appear in the output in their group's newest-first order |
| ArticleList.InterleavedPerFeed | src/components/ArticleList.tsx:14-47 | for every feed name, the output restricted to it is that feed's shown articles sorted newest first |
| ArticleList.OtherFeedInterleaved | src/components/ArticleList.tsx:14-47 | a feed with nothing shown has nothing in the output |
| ArticleList.Interleave | src/components/ArticleList.tsx:14-47 | the memo body returns exactly the interleaved list, after one more round than the longest group has articles |
| ArticleList.GroupByFeed | src/components/ArticleList.tsx:19-23 | the `reduce` gives the distinct feed names in first-appearance order and, per name, its articles in input order |
| ArticleList.AddToGroupKeeps | src/components/ArticleList.tsx:20-21 | one `reduce` step keeps the grouping invariant for the longer prefix |
| ArticleList.AddToGroupFilters | src/components/ArticleList.tsx:20-21 | pushing an article onto its group, or opening a new group, keeps every group equal to its feed's articles |
| ArticleList.GroupSnoc | src/components/ArticleList.tsx:21 | an article extends only its own feed's group |
| ArticleList.FeedNamesSnoc | src/components/ArticleList.tsx:20 | a new name is added at the end, and a known one changes nothing |
| ArticleList.SortGroups | src/components/ArticleList.tsx:25-27 | every group is sorted newest first, in place of the unsorted group |
| ArticleList.CollectRound | src/components/ArticleList.tsx:33-40 | the inner loop collects exactly the `i`-th articles and reports whether any exists |
| ArticleList.RunRounds | src/components/ArticleList.tsx:29-44 | the `while` loop returns exactly all the rounds up to the first empty one, after one more round than the longest group has articles |
| ArticleList.TotalPages | src/components/ArticleList.tsx:49 | `ceil(n / 10)`: enough pages for all articles and no empty last page; zero pages exactly when there are no articles |
| ArticleList.Relative | src/components/ArticleList.tsx:52 | `slice` bounds are clamped to the list |
| ArticleList.Slice | src/components/ArticleList.tsx:52 | an in-range slice is the subsequence |
| ArticleList.PageInRange | src/components/ArticleList.tsx:50-52 | page `p` shows indices `(p-1)*10` up to `p*10`, is non-empty, and is full unless it is the last |
| ArticleList.PageBeyondLast | src/components/ArticleList.tsx:50-52 | a page past the last is empty |
| ArticleList.PagesCover | src/components/ArticleList.tsx:49-52 | the first `n` pages are the first `10n` articles |
| ArticleList.AllPages | src/components/ArticleList.tsx:49-52 | all pages together are the whole list, in order |
| ArticleList.NextPage | src/components/ArticleList.tsx:54 | next is capped at the page count |
| ArticleList.PrevPage | src/components/ArticleList.tsx:55 | prev is floored at 1 |
| ArticleList.ResetPage | src/components/ArticleList.tsx:58-60 | a page past the last resets to 1, and any other is kept |
| ArticleList.PagingStaysInRange | src/components/ArticleList.tsx:54-60 | from a valid page, next and prev stay valid and no reset happens |
| ArticleList.ResetIsInRange | src/components/ArticleList.tsx:58-60 | with at least one page, after the reset check the page is valid |
| ArticleList.Pager.constructor | src/components/ArticleList.tsx:12 | paging starts at page 1 |
| ArticleList.Pager.GoToNextPage | src/components/ArticleList.tsx:54 | the page becomes the capped next page |
| ArticleList.Pager.GoToPrevPage | src/components/ArticleList.tsx:55 | the page becomes the floored previous page |
| ArticleList.Pager.ResetIfOutOfRange | src/components/ArticleList.tsx:58-60 | the page becomes the reset page |
| SettingsModal.EveryAccepted | src/components/SettingsModal.tsx:52 | `every(f => f.name && f.url)` is true exactly when every element has a truthy name and url |
| SettingsModal.EveryThrew | src/components/SettingsModal.tsx:52 | the test throws exactly when a `null` element comes before any invalid one |
| SettingsModal.FeedOf | src/components/SettingsModal.tsx:53 | a valid element is the feed of its name and url, and is importable |
| SettingsModal.FeedsOf | src/components/SettingsModal.tsx:53 | the whole array is imported, element by element |
| SettingsModal.AcceptedFeeds | src/components/SettingsModal.tsx:51-58 | an accepted payload is an array of valid elements whose feeds are all importable, so there is no partial import |
| SettingsModal.AddFeedError | src/components/SettingsModal.tsx:25-34 | no error exactly when the trimmed name and url are non-blank and the url parses; a blank trimmed name or url gives `Both name and URL are required.`, and a non-blank pair whose url does not parse gives `Please enter a valid URL.` |
| SettingsModal.SettingsForm.constructor | src/components/SettingsModal.tsx:15-18 | every field starts empty |
| SettingsModal.SettingsForm.HandleAddFeed | src/components/SettingsModal.tsx:23-39 | on an error only the message is set; otherwise the untrimmed inputs go to `addFeed` and both fields and the error are cleared |
| SettingsModal.SettingsForm.ProcessImportedFeeds | src/components/SettingsModal.tsx:51-58 | an accepted payload replaces the feeds by its import and clears the error; a rejected or throwing one changes nothing |
| SettingsModal.SettingsForm.HandleFile | src/components/SettingsModal.tsx:60-65 | a file is read exactly when its type is `application/json`; otherwise `Please drop a valid JSON file.` is set |
| SettingsModal.SettingsForm.FileLoaded | src/components/SettingsModal.tsx:66-75 | a parse error's message, `Invalid feed format in JSON file.`, the TypeError's message or an import, by case |
| SettingsModal.SettingsForm.ImportFromUrl | src/components/SettingsModal.tsx:90-103 | an empty url does nothing; an invalid url, a network error, a failed response, a bad body or a rejected payload sets its message; an accepted payload is imported and the url field cleared |
| LegacySocialApi.FlatListIsForest | services/socialApi.ts:35-42 | a flat list is a comment forest at depth 0 |
| LegacySocialApi.HnComments | services/socialApi.ts:35-42 | the HN list fails exactly when some top-level child is `null`; otherwise it is a flat list of `hn-` comments, no longer than the children, with non-empty authors and bodies |
| LegacySocialApi.HnCommentsSingle | services/socialApi.ts:35-42 | a `null` child throws, a child with text becomes its comment (`hn-` id, author defaulting to `unknown`, the text as body, the item url), and a child without text is filtered out |
| LegacySocialApi.HnCommentsAppend | services/socialApi.ts:35-42 | the children are mapped in order: the list of `a + b` is the list of `a` followed by that of `b`, and it throws exactly when either part does |
| LegacySocialApi.RedditCommentsShape | services/socialApi.ts:83-90 | the Reddit list is flat and holds exactly the top-level `t1` things with a body, with `body_html` unchanged |
| LegacySocialApi.RedditChildDropped | services/socialApi.ts:84 | a non-`t1` or body-less thing is removed and nothing else changes |
| LegacySocialApi.HnLookup | services/socialApi.ts:8-55 | the HN record is consistent and its comments flat |
| LegacySocialApi.HnLookupOutcomes | services/socialApi.ts:10-53 | failures give an error with no comments; no hit gives `Not found on HN`; a zero count gives the story id and url with no error and no item fetch; otherwise the flat list with the hit's count |
| LegacySocialApi.HnNullChildFails | services/socialApi.ts:35-36 | one `null` child turns the whole lookup into an error |
| LegacySocialApi.FetchHnData | services/socialApi.ts:8-55 | the early-return procedure returns exactly the lookup's record |
| LegacySocialApi.RedditLookup | services/socialApi.ts:57-102 | the Reddit record is consistent and its comments flat |
| LegacySocialApi.RedditLookupOutcomes | services/socialApi.ts:60-100 | failures give an error with no comments; no result gives `Not found on Reddit`; a zero count gives the submission url with no error; otherwise the flat list of `<submission>.json` with the post's count |
| LegacySocialApi.FetchRedditData | services/socialApi.ts:57-102 | the early-return procedure returns exactly the lookup's record |
| LegacySocialApi.Combine | services/socialApi.ts:111-125 | null, `[]` and `0` defaults, errors passed through, and no `lastSocialCheck` |
| LegacySocialApi.FetchSocialDataForArticle | services/socialApi.ts:105-126 | both lookups are keyed by the article's link, and the result is their combination, with flat comment lists |
| LegacyFeedManager.NewArticlesAppend | hooks/useFeedManager.ts:68 | the batch of `a + b` is the batch of `a` followed by that of `b` |
| LegacyFeedManager.NewArticlesMember | hooks/useFeedManager.ts:54-68 | there is no cap: an article is in the batch exactly when some feed parsed it |
| LegacyFeedManager.NewArticlesSnoc | hooks/useFeedManager.ts:59-68 | a parsed feed adds all its articles in order, and a failed feed adds none |
| LegacyFeedManager.RefreshedShape | hooks/useFeedManager.ts:70-77 | after a refresh the store is newest first, is a permutation of the merge, and keeps ids distinct |
| LegacyFeedManager.RefreshedRetains | hooks/useFeedManager.ts:71-76 | every stored article survives unchanged, and every batch id is present |
| LegacyFeedManager.RefreshedKnownOnly | hooks/useFeedManager.ts:70-77 | known ids only leave a newest-first store unchanged |
| LegacyFeedManager.AfterFetch | hooks/useFeedManager.ts:90-122 | a fetch changes at most the article found by id, and only its `social` |
| LegacyFeedManager.FetchGate | hooks/useFeedManager.ts:93-112 | an article both providers answered for is left alone; a successful lookup of an idle, unanswered article installs the record with `isFetching` false; a missing id changes nothing |
| LegacyFeedManager.GateIgnoresCounts | hooks/useFeedManager.ts:95-96 | an idle article without an HN id or error is looked up again, whatever its counts |
| LegacyFeedManager.AfterFetchKeepsUniqueIds | hooks/useFeedManager.ts:90-122 | a fetch keeps ids distinct |
| LegacyFeedManager.LegacyFeedStore.constructor | hooks/useFeedManager.ts:26-30 | the three default feeds, no articles, never updated, not loading, initial load pending |
| LegacyFeedManager.LegacyFeedStore.AddFeed | hooks/useFeedManager.ts:32-36 | the feed is appended exactly when its url is new |
| LegacyFeedManager.LegacyFeedStore.RemoveFeed | hooks/useFeedManager.ts:38-41 | the feed and every article with that `feedUrl` go, and the rest keep their order |
| LegacyFeedManager.LegacyFeedStore.BeginRefresh | hooks/useFeedManager.ts:43-51 | the refresh starts exactly when not loading and (forced or stale), and a fresh cache only clears `initialLoad` |
| LegacyFeedManager.LegacyFeedStore.CompleteRefresh | hooks/useFeedManager.ts:67-86 | the store becomes the sorted merge of the whole batch; `lastUpdated` is now and both flags are cleared; ids stay distinct |
| LegacyFeedManager.LegacyFeedStore.BeginSocialFetch | hooks/useFeedManager.ts:91-103 | for an idle, unanswered article found by id only `isFetching` is set, and it is returned; otherwise nothing changes |
| LegacyFeedManager.LegacyFeedStore.SettleSocialFetch | hooks/useFeedManager.ts:105-121 | success installs the record with `isFetching` false, and failure only clears `isFetching` |
| LegacyFeedManager.LegacyFeedStore.FetchSocialData | hooks/useFeedManager.ts:90-122 | the begin and settle steps together give exactly the specified fetch |

## Left out

- Network access: `fetch`, the CORS proxy prefix, `encodeURIComponent` and query building. Each lookup is a function from its key (title, link, story id or comments url) to a response value.
- DOM work:
  - XML parsing and `querySelector` become `RawItem` records, one optional field per element read;
  - HTML stripping of descriptions, `decodeHtmlEntities` and `new URL` validity become parameter functions.
- Dates: `Date.now()` is a parameter, and `new Date(pubDate).getTime()` is a parameter function `timeOf` to integers. The NaN comparator results of unparseable dates are not modelled, and neither is `toISOString` (the current time's text is a parameter).
- Concurrency: `Promise.all`, timers (`setInterval` with CACHE_DURATION and SOCIAL_CHECK_INTERVAL), React effects and re-renders. The fan-outs are plain combinations of independent results. Each handler runs its steps without interleaving, so a store change between `Begin…` and `Settle…` is not modelled.
- Persistence through `useLocalStorage`, and JSON (de)serialisation. A payload arrives already parsed as a `Payload`, or as a parse error message.
- services/geminiService.ts, a call to an external language model, is not part of this model.
- Rendering and UI state: components, icons, drag-and-drop highlighting, `handleExport`, and `handleDrop` beyond its call to `handleFile`.
- The non-`Error` fallbacks `'Unknown error'` (kept as a default message), `'Failed to parse JSON file.'` and `'Failed to import from URL.'`. Everything these handlers can throw is an `Error`, so the last two are unreachable.
- The refresh's outer `catch`: every feed promise catches its own failure, so `Promise.all` never rejects and the outer catch is unreachable.
- A feed's fetch and parse failures are one `Failure` outcome each, and their messages are dropped, as the code only logs them.
- SettingsModal.Entry: an imported element is null, a primitive, or an object with optional `name` and `url` texts. Truthy non-string values and extra properties are not modelled.
- ArticleList.FeedNames: groups are enumerated in insertion order. JavaScript lists integer-like keys of a plain object first, in numeric order. So the round order differs for feeds named like `"1"`, but the per-feed order and the permutation property still hold.
- SocialApi.CombineSocialData: the code's record has no `isFetching` field at all, which reads as `undefined` (falsy). The model sets it false. Every caller overwrites it with false.
- LegacySocialApi.Combine: the earlier `SocialData` has no `lastSocialCheck` field, and the model sets it to `None`. Its comments have no `depth` or `children` fields, and the model gives them depth 0 and no children.
- LegacySocialApi.HnLookup: a `null` child makes `c.text` throw a TypeError inside the `try`. The model turns this into the HN error with that TypeError's message, which is a parameter. Reading `c.data.body` of a Reddit child without `data` is not modelled: every Reddit thing has its data.
- RssParser.StringToHash, RssParser.HashOf, Text.Prefix and RssParser.Description: texts are sequences of Unicode scalar values, while JavaScript's `length`, `charCodeAt` and `substring` count UTF-16 code units. So article ids and the 300-character cut agree with the code only for text within the Basic Multilingual Plane; a character outside it is one step of the checksum here and two there, and the code can cut between the two halves of a surrogate pair.
- The HN story id is stored from the search hit's `objectID` text, although the types declare it a number.
