/** The farmer dashboard's news section: category filters built from the
    articles and the published articles the active filter selects. */
module Dashboard {
  import opened Wrappers
  import opened Domain
  import opened Sequences

  /** The label of the filter that selects every category. */
  const AllFilter: string := "ทั้งหมด"

  /** The distinct elements of `xs` in order of first appearance
      (`[...new Set(xs)]`). */
  function Dedup(xs: seq<string>): (r: seq<string>)
    ensures forall x :: x in r <==> x in xs
    ensures forall i, j :: 0 <= i < j < |r| ==> r[i] != r[j]
    decreases |xs|
  {
    if |xs| == 0 then []
    else
      var front := Dedup(xs[..|xs| - 1]);
      assert forall x :: x in xs <==> x in xs[..|xs| - 1] || x == xs[|xs| - 1];
      if xs[|xs| - 1] in front then front else front + [xs[|xs| - 1]]
  }

  /** The position of the first occurrence of `x` in `xs`. */
  function FirstIndex(xs: seq<string>, x: string): (k: nat)
    requires x in xs
    ensures k < |xs| && xs[k] == x && x !in xs[..k]
  {
    if xs[0] == x then 0 else 1 + FirstIndex(xs[1..], x)
  }

  /** The first occurrence is the one with no earlier occurrence. */
  lemma {:induction false} FirstIndexUnique(xs: seq<string>, x: string, k: nat)
    requires k < |xs| && xs[k] == x && x !in xs[..k]
    ensures FirstIndex(xs, x) == k
  {
    if k > 0 {
      assert xs[0] in xs[..k];
      assert xs[1..][k - 1] == x && xs[1..][..k - 1] == xs[1..k];
      assert forall y :: y in xs[1..k] ==> y in xs[..k];
      FirstIndexUnique(xs[1..], x, k - 1);
    }
  }

  lemma FirstIndexPrefix(xs: seq<string>, n: nat, x: string)
    requires n <= |xs| && x in xs[..n]
    ensures FirstIndex(xs, x) == FirstIndex(xs[..n], x)
  {
    var k := FirstIndex(xs[..n], x);
    assert xs[..k] == xs[..n][..k];
    FirstIndexUnique(xs, x, k);
  }

  /** The distinct elements keep the order of their first appearances. */
  lemma {:induction false} DedupOrder(xs: seq<string>)
    ensures forall i, j :: 0 <= i < j < |Dedup(xs)| ==>
      FirstIndex(xs, Dedup(xs)[i]) < FirstIndex(xs, Dedup(xs)[j])
    decreases |xs|
  {
    if |xs| > 0 {
      var n := |xs| - 1;
      var pre := xs[..n];
      var front := Dedup(pre);
      var r := Dedup(xs);
      DedupOrder(pre);
      forall i, j | 0 <= i < j < |r|
        ensures FirstIndex(xs, r[i]) < FirstIndex(xs, r[j])
      {
        assert r[i] == front[i] && r[i] in pre;
        FirstIndexPrefix(xs, n, r[i]);
        if j < |front| {
          assert r[j] == front[j] && r[j] in pre;
          FirstIndexPrefix(xs, n, r[j]);
        } else {
          assert r[j] == xs[n] && xs[n] !in pre;
          FirstIndexUnique(xs, xs[n], n);
        }
      }
    }
  }

  /** `categories`: every article's category once, in first-appearance order. */
  function Categories(articles: seq<Article>): seq<string> {
    Dedup(seq(|articles|, i requires 0 <= i < |articles| => articles[i].category))
  }

  /** `filters`: the all-categories filter, then the categories. */
  function Filters(articles: seq<Article>): (fs: seq<string>)
    ensures |fs| >= 1 && fs[0] == AllFilter
    ensures forall c :: c in fs[1..] <==> exists a :: a in articles && a.category == c
  {
    var cats := seq(|articles|, i requires 0 <= i < |articles| => articles[i].category);
    assert forall c :: c in cats <==> exists a :: a in articles && a.category == c by {
      forall c | c in cats
        ensures exists a :: a in articles && a.category == c
      {
        var i :| 0 <= i < |cats| && cats[i] == c;
        assert articles[i] in articles;
      }
      forall c | exists a :: a in articles && a.category == c
        ensures c in cats
      {
        var a :| a in articles && a.category == c;
        var i :| 0 <= i < |articles| && articles[i] == a;
        assert cats[i] == c;
      }
    }
    [AllFilter] + Categories(articles)
  }

  /** The filter active when the dashboard opens: the first of the bar,
      showing every published article. */
  function InitialFilter(articles: seq<Article>): (f: string)
    ensures f == Filters(articles)[0]
    ensures forall a :: a in FilteredArticles(articles, f) <==> a in articles && a.status == Published
  {
    AllFilter
  }

  predicate Selected(a: Article, active: string) {
    a.status == Published && (active == AllFilter || a.category == active)
  }

  /** `filteredArticles`: the published articles in the active category
      (every category for the all filter), in their original order. */
  function FilteredArticles(articles: seq<Article>, active: string): (r: seq<Article>)
    ensures |r| <= |articles|
    ensures forall a :: a in r <==> a in articles && Selected(a, active)
  {
    if |articles| == 0 then []
    else
      var rest := FilteredArticles(articles[1..], active);
      assert forall a :: a in articles <==> a == articles[0] || a in articles[1..];
      (if Selected(articles[0], active) then [articles[0]] else []) + rest
  }

  /** Filtering keeps relative order: it distributes over concatenation. */
  lemma {:induction false} FilterAppend(a: seq<Article>, b: seq<Article>, active: string)
    ensures FilteredArticles(a + b, active) == FilteredArticles(a, active) + FilteredArticles(b, active)
  {
    if |a| == 0 {
      assert a + b == b;
    } else {
      assert (a + b)[0] == a[0] && (a + b)[1..] == a[1..] + b;
      FilterAppend(a[1..], b, active);
    }
  }

  /** The filtered articles are the input with the unselected ones deleted:
      an order-preserving subsequence. */
  lemma {:induction false} FilteredSubsequence(articles: seq<Article>, active: string)
    ensures Subsequence(FilteredArticles(articles, active), articles)
  {
    if |articles| > 0 {
      var rest := FilteredArticles(articles[1..], active);
      FilteredSubsequence(articles[1..], active);
      if Selected(articles[0], active) {
        assert FilteredArticles(articles, active) == [articles[0]] + rest;
        assert ([articles[0]] + rest)[1..] == rest;
      } else {
        assert FilteredArticles(articles, active) == rest;
        assert |rest| > 0 ==> rest[0] in rest && rest[0] != articles[0];
      }
    }
  }

  /** A category filter selects a part of what the all filter selects, and
      the category filters of the filter bar together select exactly it. */
  lemma CategoryWithinAll(articles: seq<Article>, c: string)
    ensures forall a :: a in FilteredArticles(articles, c) ==> a in FilteredArticles(articles, AllFilter)
    ensures forall a :: a in FilteredArticles(articles, AllFilter) ==>
      a.category in Filters(articles)[1..] && a in FilteredArticles(articles, a.category)
  {
    var fs := Filters(articles);
    forall a | a in FilteredArticles(articles, AllFilter)
      ensures a.category in fs[1..]
    {
      assert a in articles && a.category == a.category;
    }
  }

  /** A filter naming no category of any article selects nothing. */
  lemma UnknownFilterEmpty(articles: seq<Article>, active: string)
    requires active != AllFilter && active !in Filters(articles)
    ensures FilteredArticles(articles, active) == []
  {
    var r := FilteredArticles(articles, active);
    forall a | a in articles && Selected(a, active)
      ensures active in Filters(articles)[1..]
    {
    }
    assert forall a :: a !in r;
  }

  /** What a news card shows: the picture (only when there is one), the
      title, the content as summary and the posting date. */
  datatype Card = Card(id: string, picture: Option<string>, title: string, summary: string, postDate: string)

  /** `NewsCard`: the picture is left out when the image address is empty. */
  function CardFor(a: Article): Card {
    var hasImage := |a.imageUrl| > 0;
    Card(a.id, if hasImage then Some(a.imageUrl) else None, a.title, a.content, a.postDate)
  }

  /** The news grid: one card per shown article, in the filter's order. */
  function NewsGrid(articles: seq<Article>, active: string): (cards: seq<Card>)
    ensures |cards| == |FilteredArticles(articles, active)|
    ensures forall i :: 0 <= i < |cards| ==>
      var a := FilteredArticles(articles, active)[i];
      && cards[i].id == a.id && cards[i].title == a.title
      && cards[i].summary == a.content && cards[i].postDate == a.postDate
      && (cards[i].picture.Some? <==> |a.imageUrl| > 0)
      && (cards[i].picture.Some? ==> cards[i].picture.value == a.imageUrl)
  {
    var shown := FilteredArticles(articles, active);
    seq(|shown|, i requires 0 <= i < |shown| => CardFor(shown[i]))
  }

  /** A picture appears in the grid exactly for the shown articles that
      have an image address: each such article gets a card with its
      picture, and every picture belongs to a published article of the
      active category. */
  lemma GridPictures(articles: seq<Article>, active: string)
    ensures forall a :: a in articles && Selected(a, active) && a.imageUrl != "" ==>
      exists c :: c in NewsGrid(articles, active) && c.id == a.id && c.picture == Some(a.imageUrl)
    ensures forall c :: c in NewsGrid(articles, active) && c.picture.Some? ==>
      exists a :: a in articles && Selected(a, active) && a.id == c.id && a.imageUrl == c.picture.value && a.imageUrl != ""
  {
    var shown := FilteredArticles(articles, active);
    var cards := NewsGrid(articles, active);
    forall a | a in articles && Selected(a, active) && a.imageUrl != ""
      ensures exists c :: c in cards && c.id == a.id && c.picture == Some(a.imageUrl)
    {
      var i :| 0 <= i < |shown| && shown[i] == a;
      assert cards[i] in cards;
    }
    forall c | c in cards && c.picture.Some?
      ensures exists a :: a in articles && Selected(a, active) && a.id == c.id && a.imageUrl == c.picture.value && a.imageUrl != ""
    {
      var i :| 0 <= i < |cards| && cards[i] == c;
      assert shown[i] in shown;
    }
  }
}
