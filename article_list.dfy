/** The article list (src/components/ArticleList.tsx): the articles shown, optionally only
    those with comments, interleaved across feeds round by round, and cut into pages of ten.

    The interleaving groups the shown articles by feed name (feeds in order of first
    appearance), sorts every group newest first, and then emits round after round: round `i`
    is the `i`-th newest article of every feed that has one, itself sorted newest first.
    Dates are compared through `key`, the article's `new Date(pubDate).getTime()`. */
module ArticleList {
  import opened Types
  import Seqs

  const ArticlesPerPage: nat := 10

  // ---------------------------------------------------------------------------------------
  // Which articles are shown

  /** All articles, or only the ones with comments when the filter is on. */
  function Visible(articles: seq<Article>, showEmpty: bool): (r: seq<Article>)
    ensures showEmpty ==> r == articles
    ensures forall a :: a in r <==> a in articles && (showEmpty || HasComments(a))
  {
    if showEmpty then articles
    else
      assert forall a :: a in Seqs.Filter(HasComments, articles) <==> a in articles && HasComments(a) by {
        forall a ensures a in Seqs.Filter(HasComments, articles) <==> a in articles && HasComments(a) {
          Seqs.FilterMember(HasComments, articles, a);
        }
      }
      Seqs.Filter(HasComments, articles)
  }

  // ---------------------------------------------------------------------------------------
  // Grouping by feed

  function FromFeed(name: string): Article -> bool
  {
    (a: Article) => a.feedName == name
  }

  function NotFromFeed(name: string): Article -> bool
  {
    (a: Article) => a.feedName != name
  }

  predicate Distinct(names: seq<string>)
  {
    forall i, j :: 0 <= i < j < |names| ==> names[i] != names[j]
  }

  /** The position of `name` in `names`, or -1: the lookup `acc[feedName]`. */
  function NameIndex(names: seq<string>, name: string): (j: int)
    ensures -1 <= j < |names|
    ensures j >= 0 ==> names[j] == name
    ensures j < 0 <==> name !in names
  {
    if names == [] then -1
    else if names[0] == name then 0
    else
      var k := NameIndex(names[1..], name);
      if k < 0 then -1 else k + 1
  }

  /** The feed names of `s` in order of first appearance: the key order of the record the
      `reduce` builds. */
  function FeedNames(s: seq<Article>): (r: seq<string>)
    ensures Distinct(r)
    ensures forall name :: name in r <==> exists a :: a in s && a.feedName == name
  {
    if s == [] then []
    else
      var init, last := s[..|s| - 1], s[|s| - 1];
      assert s == init + [last];
      var names := FeedNames(init);
      if last.feedName in names then names else names + [last.feedName]
  }

  /** The groups of the feeds `names`, each sorted newest first. */
  function GroupsFor(names: seq<string>, s: seq<Article>, key: Article -> int): (r: seq<seq<Article>>)
    ensures |r| == |names|
    ensures forall j :: 0 <= j < |names| ==> r[j] == Seqs.SortDesc(Seqs.Filter(FromFeed(names[j]), s), key)
  {
    if names == [] then []
    else [Seqs.SortDesc(Seqs.Filter(FromFeed(names[0]), s), key)] + GroupsFor(names[1..], s, key)
  }

  /** `articlesByFeed` after the sorting loop, in key order. */
  function Groups(s: seq<Article>, key: Article -> int): seq<seq<Article>>
  {
    GroupsFor(FeedNames(s), s, key)
  }

  // ---------------------------------------------------------------------------------------
  // Rounds

  /** The `i`-th article of every group that has one, in group order. */
  function Pick(groups: seq<seq<Article>>, i: nat): (r: seq<Article>)
    ensures |r| <= |groups|
  {
    if groups == [] then []
    else (if i < |groups[0]| then [groups[0][i]] else []) + Pick(groups[1..], i)
  }

  /** Round `i`, sorted newest first. */
  function Round(groups: seq<seq<Article>>, i: nat, key: Article -> int): seq<Article>
  {
    Seqs.SortDesc(Pick(groups, i), key)
  }

  function RoundAt(groups: seq<seq<Article>>, key: Article -> int): nat -> seq<Article>
  {
    (i: nat) => Round(groups, i, key)
  }

  /** Rounds `0` to `n - 1`, one after the other. */
  function Rounds(groups: seq<seq<Article>>, n: nat, key: Article -> int): seq<Article>
  {
    Seqs.ConcatUpTo(RoundAt(groups, key), n)
  }

  /** The length of the longest group. */
  function MaxLen(groups: seq<seq<Article>>): (m: nat)
    ensures forall j :: 0 <= j < |groups| ==> |groups[j]| <= m
    ensures groups == [] ==> m == 0
    ensures groups != [] ==> exists j :: 0 <= j < |groups| && |groups[j]| == m
  {
    if groups == [] then 0
    else
      var m := MaxLen(groups[1..]);
      if |groups[0]| >= m then |groups[0]|
      else
        assert groups[1..] != [];
        var j :| 0 <= j < |groups[1..]| && |groups[1..][j]| == m;
        assert |groups[j + 1]| == m;
        m
  }

  /** All the rounds the loop runs: up to and including the first empty one. */
  function RoundRobin(groups: seq<seq<Article>>, key: Article -> int): seq<Article>
  {
    Rounds(groups, MaxLen(groups) + 1, key)
  }

  /** The interleaved list the component renders pages of. */
  function Interleaved(articles: seq<Article>, showEmpty: bool, key: Article -> int): seq<Article>
  {
    RoundRobin(Groups(Visible(articles, showEmpty), key), key)
  }

  lemma {:induction false} PickSnoc(groups: seq<seq<Article>>, g: seq<Article>, i: nat)
    ensures Pick(groups + [g], i) == Pick(groups, i) + (if i < |g| then [g[i]] else [])
  {
    if groups == [] {
      assert groups + [g] == [g];
    } else {
      assert (groups + [g])[1..] == groups[1..] + [g];
      PickSnoc(groups[1..], g, i);
    }
  }

  /** A round holds exactly the `i`-th article of each group long enough to have one. */
  lemma {:induction false} PickMember(groups: seq<seq<Article>>, i: nat, a: Article)
    ensures a in Pick(groups, i) <==> exists j :: 0 <= j < |groups| && i < |groups[j]| && groups[j][i] == a
  {
    if groups != [] {
      PickMember(groups[1..], i, a);
      if exists j :: 0 <= j < |groups| && i < |groups[j]| && groups[j][i] == a {
        var j :| 0 <= j < |groups| && i < |groups[j]| && groups[j][i] == a;
        if j > 0 {
          assert groups[1..][j - 1] == groups[j];
        }
      }
      if exists j :: 0 <= j < |groups[1..]| && i < |groups[1..][j]| && groups[1..][j][i] == a {
        var j :| 0 <= j < |groups[1..]| && i < |groups[1..][j]| && groups[1..][j][i] == a;
        assert groups[j + 1] == groups[1..][j];
      }
    }
  }

  lemma RoundMember(groups: seq<seq<Article>>, i: nat, key: Article -> int, a: Article)
    ensures a in Round(groups, i, key) <==> exists j :: 0 <= j < |groups| && i < |groups[j]| && groups[j][i] == a
  {
    PickMember(groups, i, a);
    assert a in Round(groups, i, key) <==> a in multiset(Round(groups, i, key));
    assert a in Pick(groups, i) <==> a in multiset(Pick(groups, i));
  }

  /** The loop stops after round `MaxLen`, the first round that is empty: some group has an
      `i`-th article exactly when `i < MaxLen`. */
  lemma MoreArticles(groups: seq<seq<Article>>, i: nat)
    ensures (exists j :: 0 <= j < |groups| && i < |groups[j]|) <==> i < MaxLen(groups)
    ensures Pick(groups, MaxLen(groups)) == []
  {
    PickEmpty(groups, MaxLen(groups));
  }

  lemma {:induction false} PickEmpty(groups: seq<seq<Article>>, i: nat)
    requires forall j :: 0 <= j < |groups| ==> |groups[j]| <= i
    ensures Pick(groups, i) == []
  {
    if groups != [] {
      PickEmpty(groups[1..], i);
    }
  }

  // ---------------------------------------------------------------------------------------
  // Nothing lost, nothing duplicated

  /** The articles of the groups, with multiplicity. */
  function Bag(groups: seq<seq<Article>>): multiset<Article>
  {
    if groups == [] then multiset{} else multiset(groups[0]) + Bag(groups[1..])
  }

  /** The first `n` articles of every group, with multiplicity. */
  function TakenBag(groups: seq<seq<Article>>, n: nat): multiset<Article>
  {
    if groups == [] then multiset{} else multiset(Seqs.Take(groups[0], n)) + TakenBag(groups[1..], n)
  }

  /** Round `n - 1` adds the `n`-th article of every group long enough. */
  lemma {:induction false} PickStep(groups: seq<seq<Article>>, n: nat)
    requires n > 0
    ensures TakenBag(groups, n - 1) + multiset(Pick(groups, n - 1)) == TakenBag(groups, n)
  {
    if groups != [] {
      PickStep(groups[1..], n);
      var g := groups[0];
      if n - 1 < |g| {
        assert g[..n] == g[..n - 1] + [g[n - 1]];
      }
    }
  }

  /** The first `n` rounds hold the first `n` articles of every group. */
  lemma RoundsBag(groups: seq<seq<Article>>, n: nat, key: Article -> int)
    ensures multiset(Rounds(groups, n, key)) == TakenBag(groups, n)
  {
    PartsBag(groups, RoundAt(groups, key), n);
  }

  lemma {:induction false} PartsBag(groups: seq<seq<Article>>, f: nat -> seq<Article>, n: nat)
    requires forall i: nat :: multiset(f(i)) == multiset(Pick(groups, i))
    ensures multiset(Seqs.ConcatUpTo(f, n)) == TakenBag(groups, n)
    decreases n
  {
    if n == 0 {
      TakenBagZero(groups);
    } else {
      PartsBag(groups, f, n - 1);
      PickStep(groups, n);
      var before := Seqs.ConcatUpTo(f, n - 1);
      assert Seqs.ConcatUpTo(f, n) == before + f(n - 1);
      assert multiset(Seqs.ConcatUpTo(f, n)) == multiset(before) + multiset(f(n - 1));
      assert multiset(f(n - 1)) == multiset(Pick(groups, n - 1));
    }
  }

  lemma {:induction false} TakenBagZero(groups: seq<seq<Article>>)
    ensures TakenBag(groups, 0) == multiset{}
  {
    if groups != [] {
      TakenBagZero(groups[1..]);
    }
  }

  lemma {:induction false} TakenBagFull(groups: seq<seq<Article>>, n: nat)
    requires forall j :: 0 <= j < |groups| ==> |groups[j]| <= n
    ensures TakenBag(groups, n) == Bag(groups)
  {
    if groups != [] {
      TakenBagFull(groups[1..], n);
    }
  }

  /** Restricting the articles to other feeds does not change the groups of `names`. */
  lemma {:induction false} GroupsForRestrict(names: seq<string>, s: seq<Article>, other: string,
                                             key: Article -> int)
    requires other !in names
    ensures GroupsFor(names, Seqs.Filter(NotFromFeed(other), s), key) == GroupsFor(names, s, key)
  {
    if names != [] {
      GroupsForRestrict(names[1..], s, other, key);
      Seqs.FilterOfFilter(FromFeed(names[0]), NotFromFeed(other), FromFeed(names[0]), s);
    }
  }

  function NotInFeeds(names: seq<string>): Article -> bool
  {
    (a: Article) => a.feedName !in names
  }

  /** The groups of distinct feed names hold every article of those feeds exactly once. */
  lemma {:induction false} GroupsBag(names: seq<string>, s: seq<Article>, key: Article -> int)
    requires Distinct(names)
    ensures Bag(GroupsFor(names, s, key)) + multiset(Seqs.Filter(NotInFeeds(names), s)) == multiset(s)
  {
    if names == [] {
      Seqs.FilterAllKept(NotInFeeds(names), s);
    } else {
      var n0, rest := names[0], names[1..];
      var others := Seqs.Filter(NotFromFeed(n0), s);
      assert n0 !in rest;
      assert Distinct(rest) by {
        forall i, j | 0 <= i < j < |rest| ensures rest[i] != rest[j] {
          assert rest[i] == names[i + 1] && rest[j] == names[j + 1];
        }
      }
      GroupsBag(rest, others, key);
      GroupsForRestrict(rest, s, n0, key);
      Seqs.FilterOfFilter(NotInFeeds(rest), NotFromFeed(n0), NotInFeeds(names), s);
      Seqs.FilterSplit(FromFeed(n0), NotFromFeed(n0), s);
    }
  }

  /** The groups of a feed list hold all the articles. */
  lemma AllGrouped(s: seq<Article>, key: Article -> int)
    ensures Bag(Groups(s, key)) == multiset(s)
  {
    var names := FeedNames(s);
    GroupsBag(names, s, key);
    forall i | 0 <= i < |s| ensures !NotInFeeds(names)(s[i]) {
      assert s[i] in s;
    }
    Seqs.FilterNoneKept(NotInFeeds(names), s);
  }

  /** The interleaving is a permutation of the shown articles. */
  lemma InterleavedPermutation(articles: seq<Article>, showEmpty: bool, key: Article -> int)
    ensures multiset(Interleaved(articles, showEmpty, key)) == multiset(Visible(articles, showEmpty))
  {
    var s := Visible(articles, showEmpty);
    var groups := Groups(s, key);
    var n := MaxLen(groups) + 1;
    RoundsBag(groups, n, key);
    TakenBagFull(groups, n);
    AllGrouped(s, key);
  }

  // ---------------------------------------------------------------------------------------
  // Every feed keeps its own newest-first order

  /** Every article of group `j` is from feed `names[j]`. */
  predicate Tagged(groups: seq<seq<Article>>, names: seq<string>)
  {
    |groups| == |names|
    && forall j, i :: 0 <= j < |groups| && 0 <= i < |groups[j]| ==> groups[j][i].feedName == names[j]
  }

  /** Of a round, the feed `names[j]` contributes its own `i`-th article and nothing else. */
  lemma {:induction false} PickOfFeed(groups: seq<seq<Article>>, names: seq<string>, j: int, i: nat)
    requires Tagged(groups, names) && Distinct(names) && 0 <= j < |names|
    ensures Seqs.Filter(FromFeed(names[j]), Pick(groups, i))
            == if i < |groups[j]| then [groups[j][i]] else []
  {
    var p := FromFeed(names[j]);
    var head := if i < |groups[0]| then [groups[0][i]] else [];
    Seqs.FilterAppend(p, head, Pick(groups[1..], i));
    assert Tagged(groups[1..], names[1..]) by {
      forall k, m | 0 <= k < |groups[1..]| && 0 <= m < |groups[1..][k]|
        ensures groups[1..][k][m].feedName == names[1..][k]
      {
        assert groups[1..][k] == groups[k + 1];
      }
    }
    assert Distinct(names[1..]) by {
      forall a, b | 0 <= a < b < |names[1..]| ensures names[1..][a] != names[1..][b] {
        assert names[1..][a] == names[a + 1] && names[1..][b] == names[b + 1];
      }
    }
    if j == 0 {
      if i < |groups[0]| {
        assert Seqs.Filter(p, head) == head;
      }
      PickOfOtherFeeds(groups[1..], names[1..], names[0], i);
    } else {
      PickOfFeed(groups[1..], names[1..], j - 1, i);
      if i < |groups[0]| {
        assert groups[0][i].feedName == names[0];
        assert Seqs.Filter(p, head) == [];
      }
    }
  }

  /** A feed outside `names` contributes nothing to a round. */
  lemma {:induction false} PickOfOtherFeeds(groups: seq<seq<Article>>, names: seq<string>, name: string, i: nat)
    requires Tagged(groups, names) && name !in names
    ensures Seqs.Filter(FromFeed(name), Pick(groups, i)) == []
  {
    if groups != [] {
      var head := if i < |groups[0]| then [groups[0][i]] else [];
      Seqs.FilterAppend(FromFeed(name), head, Pick(groups[1..], i));
      assert Tagged(groups[1..], names[1..]) by {
        forall k, m | 0 <= k < |groups[1..]| && 0 <= m < |groups[1..][k]|
          ensures groups[1..][k][m].feedName == names[1..][k]
        {
          assert groups[1..][k] == groups[k + 1];
        }
      }
      PickOfOtherFeeds(groups[1..], names[1..], name, i);
      if i < |groups[0]| {
        assert groups[0][i].feedName == names[0];
      }
    }
  }

  /** The feed `names[j]`'s share of round `i` is its own `i`-th article. */
  lemma RoundOfFeed(groups: seq<seq<Article>>, names: seq<string>, j: int, i: nat, key: Article -> int)
    requires Tagged(groups, names) && Distinct(names) && 0 <= j < |names|
    ensures Seqs.Filter(FromFeed(names[j]), Round(groups, i, key))
            == if i < |groups[j]| then [groups[j][i]] else []
  {
    var p, pick := FromFeed(names[j]), Pick(groups, i);
    PickOfFeed(groups, names, j, i);
    Seqs.FilterPermutation(p, Round(groups, i, key), pick);
    Seqs.AtMostOne(Seqs.Filter(p, Round(groups, i, key)), Seqs.Filter(p, pick));
  }

  /** The feed `names[j]`'s share of the first `n` rounds is its first `n` articles. */
  lemma RoundsOfFeed(groups: seq<seq<Article>>, names: seq<string>, j: int, n: nat, key: Article -> int)
    requires Tagged(groups, names) && Distinct(names) && 0 <= j < |names|
    ensures Seqs.Filter(FromFeed(names[j]), Rounds(groups, n, key)) == Seqs.Take(groups[j], n)
  {
    var f := RoundAt(groups, key);
    forall i: nat ensures Seqs.Filter(FromFeed(names[j]), f(i))
                          == if i < |groups[j]| then [groups[j][i]] else [] {
      RoundOfFeed(groups, names, j, i, key);
    }
    Seqs.FilterConcatUpTo(FromFeed(names[j]), f, groups[j], n);
  }

  lemma GroupsTagged(names: seq<string>, s: seq<Article>, key: Article -> int)
    ensures Tagged(GroupsFor(names, s, key), names)
  {
    var groups: seq<seq<Article>> := GroupsFor(names, s, key);
    forall j: int, i: int | 0 <= j < |groups| && 0 <= i < |groups[j]| ensures groups[j][i].feedName == names[j] {
      var f := Seqs.Filter(FromFeed(names[j]), s);
      assert groups[j][i] in multiset(f);
    }
  }

  /** Read feed by feed, the interleaving is each feed's shown articles newest first. */
  lemma InterleavedPerFeed(articles: seq<Article>, showEmpty: bool, key: Article -> int, name: string)
    ensures Seqs.Filter(FromFeed(name), Interleaved(articles, showEmpty, key))
            == Seqs.SortDesc(Seqs.Filter(FromFeed(name), Visible(articles, showEmpty)), key)
  {
    var s := Visible(articles, showEmpty);
    var names := FeedNames(s);
    if j :| 0 <= j < |names| && names[j] == name {
      FeedInterleaved(s, key, j);
    } else {
      OtherFeedInterleaved(articles, showEmpty, key, name);
    }
  }

  lemma FeedInterleaved(s: seq<Article>, key: Article -> int, j: int)
    requires 0 <= j < |FeedNames(s)|
    ensures Seqs.Filter(FromFeed(FeedNames(s)[j]), RoundRobin(Groups(s, key), key))
            == Seqs.SortDesc(Seqs.Filter(FromFeed(FeedNames(s)[j]), s), key)
  {
    var names := FeedNames(s);
    var groups := GroupsFor(names, s, key);
    assert groups == Groups(s, key);
    GroupsTagged(names, s, key);
    AllRoundsOfFeed(groups, names, j, MaxLen(groups) + 1, key);
  }

  /** Enough rounds to exhaust group `j` return exactly group `j` for its feed. */
  lemma AllRoundsOfFeed(groups: seq<seq<Article>>, names: seq<string>, j: int, n: nat, key: Article -> int)
    requires Tagged(groups, names) && Distinct(names) && 0 <= j < |names|
    requires |groups[j]| <= n
    ensures Seqs.Filter(FromFeed(names[j]), Rounds(groups, n, key)) == groups[j]
  {
    RoundsOfFeed(groups, names, j, n, key);
  }

  lemma OtherFeedInterleaved(articles: seq<Article>, showEmpty: bool, key: Article -> int, name: string)
    requires name !in FeedNames(Visible(articles, showEmpty))
    ensures Seqs.Filter(FromFeed(name), Interleaved(articles, showEmpty, key)) == []
    ensures Seqs.Filter(FromFeed(name), Visible(articles, showEmpty)) == []
  {
    var s := Visible(articles, showEmpty);
    var inter := Interleaved(articles, showEmpty, key);
    forall i | 0 <= i < |s| ensures !FromFeed(name)(s[i]) {
      assert s[i] in s;
    }
    Seqs.FilterNoneKept(FromFeed(name), s);
    InterleavedPermutation(articles, showEmpty, key);
    Seqs.FilterPermutation(FromFeed(name), inter, s);
    assert |Seqs.Filter(FromFeed(name), inter)| == |multiset(Seqs.Filter(FromFeed(name), inter))|;
  }

  // ---------------------------------------------------------------------------------------
  // The computation as the component performs it

  /** The memoised interleaving: the `reduce` into per-feed groups, the per-group sorts and
      the `while (hasMoreArticles)` loop. `roundsRun` counts the loop's iterations. */
  method Interleave(articles: seq<Article>, showEmpty: bool, timeOf: string -> int)
    returns (result: seq<Article>, ghost roundsRun: nat)
    ensures result == Interleaved(articles, showEmpty, ByDate(timeOf))
    ensures roundsRun == MaxLen(Groups(Visible(articles, showEmpty), ByDate(timeOf))) + 1
  {
    var key := ByDate(timeOf);
    var filtered := Visible(articles, showEmpty);
    var names, byFeed := GroupByFeed(filtered);
    var groups := SortGroups(byFeed, key);
    assert groups == GroupsFor(names, filtered, key);
    result, roundsRun := RunRounds(groups, key);
  }

  /** The `reduce`: one group per feed name, in order of first appearance, each holding that
      feed's articles in their original order. */
  method GroupByFeed(filtered: seq<Article>) returns (names: seq<string>, groups: seq<seq<Article>>)
    ensures names == FeedNames(filtered)
    ensures |groups| == |names|
    ensures forall j :: 0 <= j < |names| ==> groups[j] == Seqs.Filter(FromFeed(names[j]), filtered)
  {
    names, groups := [], [];
    for k := 0 to |filtered|
      invariant names == FeedNames(filtered[..k])
      invariant |groups| == |names|
      invariant forall j :: 0 <= j < |names| ==> groups[j] == Seqs.Filter(FromFeed(names[j]), filtered[..k])
    {
      var article := filtered[k];
      assert filtered[..k + 1] == filtered[..k] + [article];
      AddToGroupKeeps(filtered[..k], names, groups, article);
      names, groups := AddToGroup(names, groups, article).0, AddToGroup(names, groups, article).1;
    }
    assert filtered[..|filtered|] == filtered;
  }

  /** One step of the `reduce`: `acc[feedName]` is created when missing, then the article is
      pushed onto it. */
  function AddToGroup(names: seq<string>, groups: seq<seq<Article>>, article: Article)
    : (seq<string>, seq<seq<Article>>)
    requires |groups| == |names|
  {
    var j := NameIndex(names, article.feedName);
    if j < 0 then (names + [article.feedName], groups + [[article]])
    else (names, groups[j := groups[j] + [article]])
  }

  /** The step keeps the record equal to the grouping of the articles seen so far. */
  lemma AddToGroupKeeps(seen: seq<Article>, names: seq<string>, groups: seq<seq<Article>>, article: Article)
    requires names == FeedNames(seen) && |groups| == |names|
    requires forall j :: 0 <= j < |names| ==> groups[j] == Seqs.Filter(FromFeed(names[j]), seen)
    ensures var (names', groups') := AddToGroup(names, groups, article);
            names' == FeedNames(seen + [article]) && |groups'| == |names'|
            && forall j :: 0 <= j < |names'| ==> groups'[j] == Seqs.Filter(FromFeed(names'[j]), seen + [article])
  {
    FeedNamesSnoc(seen, article);
    AddToGroupFilters(seen, names, groups, article);
  }

  lemma AddToGroupFilters(seen: seq<Article>, names: seq<string>, groups: seq<seq<Article>>, article: Article)
    requires |groups| == |names| && Distinct(names) && forall a :: a in seen ==> a.feedName in names
    requires forall j :: 0 <= j < |names| ==> groups[j] == Seqs.Filter(FromFeed(names[j]), seen)
    ensures var (names', groups') := AddToGroup(names, groups, article);
            |groups'| == |names'|
            && forall j :: 0 <= j < |names'| ==> groups'[j] == Seqs.Filter(FromFeed(names'[j]), seen + [article])
  {
    var name := article.feedName;
    var k := NameIndex(names, name);
    var names', groups' := AddToGroup(names, groups, article).0, AddToGroup(names, groups, article).1;
    forall j | 0 <= j < |names'|
      ensures groups'[j] == Seqs.Filter(FromFeed(names'[j]), seen + [article])
    {
      if j < |names| {
        GroupSnoc(seen, names[j], groups[j], article);
        if k < 0 {
          assert names'[j] == names[j] != name && groups'[j] == groups[j];
        } else if j == k {
          assert groups'[j] == groups[j] + [article];
        } else {
          assert names[j] != name && groups'[j] == groups[j];
        }
      } else {
        forall i | 0 <= i < |seen| ensures !FromFeed(name)(seen[i]) {
          assert seen[i] in seen;
        }
        Seqs.FilterNoneKept(FromFeed(name), seen);
        GroupSnoc(seen, name, [], article);
        assert names'[j] == name && groups'[j] == [article];
      }
    }
  }

  /** The group of `name` after one more article. */
  lemma GroupSnoc(seen: seq<Article>, name: string, g: seq<Article>, article: Article)
    requires g == Seqs.Filter(FromFeed(name), seen)
    ensures Seqs.Filter(FromFeed(name), seen + [article]) == if article.feedName == name then g + [article] else g
  {
    Seqs.FilterAppend(FromFeed(name), seen, [article]);
  }

  lemma FeedNamesSnoc(seen: seq<Article>, article: Article)
    ensures FeedNames(seen + [article])
            == if article.feedName in FeedNames(seen) then FeedNames(seen) else FeedNames(seen) + [article.feedName]
  {
    var next := seen + [article];
    assert next[..|next| - 1] == seen;
  }

  /** The loop sorting every group newest first. */
  method SortGroups(groups: seq<seq<Article>>, key: Article -> int) returns (sorted: seq<seq<Article>>)
    ensures |sorted| == |groups|
    ensures forall j :: 0 <= j < |groups| ==> sorted[j] == Seqs.SortDesc(groups[j], key)
  {
    sorted := groups;
    for j := 0 to |groups|
      invariant |sorted| == |groups|
      invariant forall m :: 0 <= m < j ==> sorted[m] == Seqs.SortDesc(groups[m], key)
      invariant forall m :: j <= m < |groups| ==> sorted[m] == groups[m]
    {
      sorted := sorted[j := Seqs.SortDesc(sorted[j], key)];
    }
  }

  /** One pass of the `while` loop's inner `for...of`: the `i`-th article of every group that
      has one, and whether any group had one. */
  method CollectRound(groups: seq<seq<Article>>, i: nat) returns (round: seq<Article>, hasMore: bool)
    ensures round == Pick(groups, i)
    ensures hasMore <==> i < MaxLen(groups)
  {
    round, hasMore := [], false;
    for j := 0 to |groups|
      invariant round == Pick(groups[..j], i)
      invariant hasMore <==> exists m :: 0 <= m < j && i < |groups[m]|
    {
      assert groups[..j + 1] == groups[..j] + [groups[j]];
      PickSnoc(groups[..j], groups[j], i);
      if i < |groups[j]| {
        round := round + [groups[j][i]];
        hasMore := true;
      }
    }
    assert groups[..|groups|] == groups;
    MoreArticles(groups, i);
  }

  lemma RoundsStep(groups: seq<seq<Article>>, n: nat, key: Article -> int)
    ensures Rounds(groups, n + 1, key) == Rounds(groups, n, key) + Round(groups, n, key)
  {
    assert RoundAt(groups, key)(n) == Round(groups, n, key);
  }

  /** Each round is newest first and holds exactly the `i`-th articles of the groups. */
  lemma RoundSorted(groups: seq<seq<Article>>, i: nat, key: Article -> int)
    ensures Seqs.SortedDesc(Round(groups, i, key), key)
    ensures multiset(Round(groups, i, key)) == multiset(Pick(groups, i))
  {
    Seqs.SortDescSorted(Pick(groups, i), key);
  }

  /** Earlier rounds are a prefix of later ones. */
  lemma {:induction false} RoundsPrefix(groups: seq<seq<Article>>, m: nat, n: nat, key: Article -> int)
    requires m <= n
    ensures Rounds(groups, m, key) <= Rounds(groups, n, key)
    decreases n
  {
    if m < n {
      RoundsPrefix(groups, m, n - 1, key);
      RoundsStep(groups, n - 1, key);
    }
  }

  /** Round `i` comes right after rounds `0` to `i - 1` and before every later round. */
  lemma RoundPlacement(groups: seq<seq<Article>>, i: nat, n: nat, key: Article -> int)
    requires i < n
    ensures Rounds(groups, i, key) + Round(groups, i, key) <= Rounds(groups, n, key)
  {
    RoundsStep(groups, i, key);
    RoundsPrefix(groups, i + 1, n, key);
  }

  /** The `while (hasMoreArticles)` loop: rounds are appended, each sorted newest first, until
      one finds no article; that last round is empty. */
  method RunRounds(groups: seq<seq<Article>>, key: Article -> int)
    returns (result: seq<Article>, ghost roundsRun: nat)
    ensures result == RoundRobin(groups, key)
    ensures roundsRun == MaxLen(groups) + 1
  {
    ghost var maxLen := MaxLen(groups);
    result := [];
    var hasMoreArticles := true;
    var i := 0;
    while hasMoreArticles
      invariant 0 <= i <= maxLen + 1
      invariant hasMoreArticles <==> i <= maxLen
      invariant result == Rounds(groups, i, key)
      decreases maxLen + 1 - i
    {
      var round;
      round, hasMoreArticles := CollectRound(groups, i);
      round := Seqs.SortDesc(round, key);
      RoundsStep(groups, i, key);
      result := result + round;
      i := i + 1;
    }
    roundsRun := i;
  }

  // ---------------------------------------------------------------------------------------
  // Pages

  /** `Math.ceil(count / ARTICLES_PER_PAGE)`. */
  function TotalPages(count: nat): (t: nat)
    ensures t * ArticlesPerPage >= count
    ensures t > 0 ==> (t - 1) * ArticlesPerPage < count
    ensures t == 0 <==> count == 0
  {
    (count + ArticlesPerPage - 1) / ArticlesPerPage
  }

  /** JavaScript's reading of a `slice` bound against a length: negative counts from the
      end, and the result is clamped to `0..length`. */
  function Relative(bound: int, length: nat): (r: nat)
    ensures r <= length
    ensures 0 <= bound <= length ==> r == bound
  {
    if bound < 0 then (if length + bound < 0 then 0 else length + bound)
    else if bound > length then length
    else bound
  }

  /** `Array.prototype.slice(start, end)`. */
  function Slice(s: seq<Article>, start: int, end: int): (r: seq<Article>)
    ensures 0 <= start <= end <= |s| ==> r == s[start..end]
  {
    var from, to := Relative(start, |s|), Relative(end, |s|);
    if to <= from then [] else s[from..to]
  }

  /** The articles of page `page` (counted from 1). */
  function Page(s: seq<Article>, page: int): seq<Article>
  {
    Slice(s, (page - 1) * ArticlesPerPage, (page - 1) * ArticlesPerPage + ArticlesPerPage)
  }

  /** Every page in range holds the next ten articles, or the remaining ones on the last
      page, and is never empty. */
  lemma PageInRange(s: seq<Article>, page: int)
    requires 1 <= page <= TotalPages(|s|)
    ensures var start := (page - 1) * ArticlesPerPage;
            start < |s|
            && Page(s, page) == s[start..if start + ArticlesPerPage <= |s| then start + ArticlesPerPage else |s|]
            && 0 < |Page(s, page)| <= ArticlesPerPage
            && (page < TotalPages(|s|) ==> |Page(s, page)| == ArticlesPerPage)
  {
    var t := TotalPages(|s|);
    assert (page - 1) * ArticlesPerPage <= (t - 1) * ArticlesPerPage;
    if page < t {
      assert page * ArticlesPerPage <= (t - 1) * ArticlesPerPage;
    }
  }

  /** The pages after the last one are empty. */
  lemma PageBeyondLast(s: seq<Article>, page: int)
    requires page > TotalPages(|s|)
    ensures Page(s, page) == []
  {
    var t := TotalPages(|s|);
    assert (page - 1) * ArticlesPerPage >= t * ArticlesPerPage;
  }

  /** The pages, one after the other, are the whole list. */
  lemma {:induction false} PagesCover(s: seq<Article>, n: nat)
    requires n <= TotalPages(|s|)
    ensures PagesUpTo(s, n) == s[..if n * ArticlesPerPage <= |s| then n * ArticlesPerPage else |s|]
  {
    if n > 0 {
      PagesCover(s, n - 1);
      PageInRange(s, n);
    }
  }

  /** Pages 1 to `n`, one after the other. */
  function PagesUpTo(s: seq<Article>, n: nat): seq<Article>
  {
    if n == 0 then [] else PagesUpTo(s, n - 1) + Page(s, n)
  }

  lemma AllPages(s: seq<Article>)
    ensures PagesUpTo(s, TotalPages(|s|)) == s
  {
    PagesCover(s, TotalPages(|s|));
  }

  /** `Math.min(prev + 1, totalPages)`. */
  function NextPage(page: int, totalPages: nat): (r: int)
    ensures r <= totalPages
    ensures 1 <= page < totalPages ==> r == page + 1
    ensures page == totalPages ==> r == page
  {
    if page + 1 < totalPages then page + 1 else totalPages
  }

  /** `Math.max(prev - 1, 1)`. */
  function PrevPage(page: int): (r: int)
    ensures r >= 1
    ensures page > 1 ==> r == page - 1
    ensures page <= 1 ==> r == 1
  {
    if page - 1 > 1 then page - 1 else 1
  }

  /** The render-time reset: a page beyond the last goes back to page 1. */
  function ResetPage(page: int, totalPages: nat): (r: int)
    ensures page > totalPages ==> r == 1
    ensures page <= totalPages ==> r == page
  {
    if page > totalPages then 1 else page
  }

  /** Stepping between pages keeps a valid page valid. */
  lemma PagingStaysInRange(page: int, totalPages: nat)
    requires 1 <= page <= totalPages
    ensures 1 <= NextPage(page, totalPages) <= totalPages
    ensures 1 <= PrevPage(page) <= totalPages
    ensures ResetPage(page, totalPages) == page
  {
  }

  /** After the reset a page is in range whenever there is a page at all. */
  lemma ResetIsInRange(page: int, totalPages: nat)
    requires page >= 1 && totalPages >= 1
    ensures 1 <= ResetPage(page, totalPages) <= totalPages
  {
  }

  /** The page cursor of the component (`currentPage`, starting at 1). */
  class Pager {
    var currentPage: int

    constructor ()
      ensures currentPage == 1
    {
      currentPage := 1;
    }

    method GoToNextPage(totalPages: nat)
      modifies this
      ensures currentPage == NextPage(old(currentPage), totalPages)
    {
      currentPage := if currentPage + 1 < totalPages then currentPage + 1 else totalPages;
    }

    method GoToPrevPage()
      modifies this
      ensures currentPage == PrevPage(old(currentPage))
    {
      currentPage := if currentPage - 1 > 1 then currentPage - 1 else 1;
    }

    /** The check made on every render. */
    method ResetIfOutOfRange(totalPages: nat)
      modifies this
      ensures currentPage == ResetPage(old(currentPage), totalPages)
    {
      if currentPage > totalPages {
        currentPage := 1;
      }
    }
  }
}
