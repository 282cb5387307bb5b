/**
 * The blog listing: the eight articles read from the translations, and
 * the list shown for the chosen category and search text.
 */
module Blog {
  import opened Wrappers
  import opened Text

  /** The article keys, in listing order. */
  const ArticleKeys: seq<string> := ["a1", "a2", "a3", "a4", "a5", "a6", "a7", "a8"]

  /** No key appears twice. */
  lemma ArticleKeysDistinct()
    ensures forall i, j :: 0 <= i < j < |ArticleKeys| ==> ArticleKeys[i] != ArticleKeys[j]
  {
  }

  /** What the listing knows of an article; the texts come from the translation function. */
  datatype Article = Article(
    key: string, title: string, summary: string, category: string,
    categoryLabel: string, date: string, readTime: string)

  /** The article with key `key`, its texts looked up with `t`. */
  function ArticleOf(key: string, t: string -> string): (a: Article)
    ensures a.key == key
  {
    var base := "blog.articles." + key + ".";
    Article(key, t(base + "title"), t(base + "summary"), t(base + "category"),
            t("blog.categories." + t(base + "category")), t(base + "date"), t(base + "readTime"))
  }

  /** `articles`: one entry per key, in key order. */
  function Articles(t: string -> string): (arts: seq<Article>)
    ensures |arts| == |ArticleKeys|
    ensures forall i :: 0 <= i < |arts| ==> arts[i] == ArticleOf(ArticleKeys[i], t)
  {
    seq(|ArticleKeys|, i requires 0 <= i < |ArticleKeys| => ArticleOf(ArticleKeys[i], t))
  }

  /** Every key has exactly one article in the list. */
  lemma OneArticlePerKey(t: string -> string, key: string)
    requires key in ArticleKeys
    ensures |Articles(t)| == 8
    ensures forall i :: 0 <= i < |Articles(t)| ==> Articles(t)[i].key == ArticleKeys[i]
    ensures exists i :: 0 <= i < |Articles(t)| && Articles(t)[i].key == key
    ensures forall i, j :: 0 <= i < j < |Articles(t)| ==> Articles(t)[i].key != Articles(t)[j].key
  {
    ArticleKeysDistinct();
    var i :| 0 <= i < |ArticleKeys| && ArticleKeys[i] == key;
    assert Articles(t)[i].key == key;
  }

  /** `matchesCategory`: every category, or the article's own. */
  predicate MatchesCategory(a: Article, activeCategory: string) {
    activeCategory == "all" || a.category == activeCategory
  }

  /** `matchesSearch`: no search text, or the lower-cased text occurs in the lower-cased title or summary. */
  predicate MatchesSearch(a: Article, search: string) {
    search == "" || Contains(ToLower(a.title), ToLower(search)) || Contains(ToLower(a.summary), ToLower(search))
  }

  /** Whether the article stays in the list. */
  predicate Keep(a: Article, activeCategory: string, search: string) {
    MatchesCategory(a, activeCategory) && MatchesSearch(a, search)
  }

  /** `xs` is `ys` with some elements left out, the rest in their order. */
  predicate SubsequenceOf<T(==)>(xs: seq<T>, ys: seq<T>)
    decreases |ys|
  {
    if xs == [] then true
    else if ys == [] then false
    else (xs[0] == ys[0] && SubsequenceOf(xs[1..], ys[1..])) || SubsequenceOf(xs, ys[1..])
  }

  /** `filtered`: the articles kept, in their order. */
  function Filtered(arts: seq<Article>, activeCategory: string, search: string): (r: seq<Article>)
    ensures SubsequenceOf(r, arts)
    ensures forall k :: 0 <= k < |r| ==> Keep(r[k], activeCategory, search)
    ensures forall i :: 0 <= i < |arts| && Keep(arts[i], activeCategory, search) ==> arts[i] in r
  {
    if arts == [] then []
    else
      var rest := Filtered(arts[1..], activeCategory, search);
      assert forall i :: 1 <= i < |arts| ==> arts[i] == arts[1..][i - 1];
      if Keep(arts[0], activeCategory, search) then
        assert ([arts[0]] + rest)[1..] == rest;
        [arts[0]] + rest
      else rest
  }

  /** What a subsequence holds, the whole list holds. */
  lemma {:induction false} SubsequenceMembers<T>(xs: seq<T>, ys: seq<T>, x: T)
    requires SubsequenceOf(xs, ys) && x in xs
    ensures x in ys
    decreases |ys|
  {
    if xs[0] == ys[0] && SubsequenceOf(xs[1..], ys[1..]) {
      if x != xs[0] {
        assert x in xs[1..];
        SubsequenceMembers(xs[1..], ys[1..], x);
      }
    } else {
      SubsequenceMembers(xs, ys[1..], x);
    }
  }

  /** An article is listed exactly when it is one of the articles and passes both conditions. */
  lemma KeptIff(arts: seq<Article>, activeCategory: string, search: string, a: Article)
    ensures a in Filtered(arts, activeCategory, search) <==> a in arts && Keep(a, activeCategory, search)
  {
    var r := Filtered(arts, activeCategory, search);
    if a in r {
      SubsequenceMembers(r, arts, a);
    }
  }

  /** The empty search matches every article, whatever its texts. */
  lemma EmptySearchMatches(a: Article)
    ensures MatchesSearch(a, "")
  {
  }

  /** A list is a subsequence of itself. */
  lemma {:induction false} SubsequenceOfSelf<T>(xs: seq<T>)
    ensures SubsequenceOf(xs, xs)
  {
    if xs != [] {
      SubsequenceOfSelf(xs[1..]);
    }
  }

  /** With every category and no search text, the list is all the articles. */
  lemma {:induction false} AllAndEmptyKeepsEverything(arts: seq<Article>)
    ensures Filtered(arts, "all", "") == arts
  {
    if arts != [] {
      AllAndEmptyKeepsEverything(arts[1..]);
    }
  }

  /** The search ignores letter case: a search and its lower-cased form keep the same articles. */
  lemma SearchIgnoresCase(a: Article, search: string)
    ensures MatchesSearch(a, search) <==> MatchesSearch(a, ToLower(search))
  {
    ToLowerIdempotent(search);
  }

  /** An article outside the chosen category is never listed. */
  lemma OtherCategoryDropped(arts: seq<Article>, activeCategory: string, search: string, a: Article)
    requires activeCategory != "all" && a.category != activeCategory
    ensures a !in Filtered(arts, activeCategory, search)
  {
  }

  /** What the listing shows: the cards of the kept articles, or the no-results message. */
  datatype Listing = Cards(articles: seq<Article>) | NoResults

  /** The cards when some article is kept, otherwise the no-results message. */
  function Show(filtered: seq<Article>): (v: Listing)
    ensures v.NoResults? <==> filtered == []
    ensures v.Cards? ==> v.articles == filtered
  {
    if |filtered| > 0 then Cards(filtered) else NoResults
  }

  /**
   * The no-results message is shown exactly when no article passes both
   * conditions; otherwise the cards are those of the kept articles.
   */
  lemma NoResultsIffNothingKept(arts: seq<Article>, activeCategory: string, search: string)
    ensures Show(Filtered(arts, activeCategory, search)).NoResults? <==>
      forall a :: a in arts ==> !Keep(a, activeCategory, search)
    ensures Show(Filtered(arts, activeCategory, search)).Cards? ==>
      forall a :: a in Show(Filtered(arts, activeCategory, search)).articles <==> a in arts && Keep(a, activeCategory, search)
  {
    var r := Filtered(arts, activeCategory, search);
    forall a
      ensures a in r <==> a in arts && Keep(a, activeCategory, search)
    {
      KeptIff(arts, activeCategory, search, a);
    }
    if r != [] {
      assert r[0] in r;
    }
  }
}
