/**
 * The blog card: the colour of its category badge, found by looking for
 * a category name inside the translated label, and the link it leads to.
 */
module BlogArticleCard {
  import opened Wrappers
  import opened Text
  import opened Blog
  import opened BlogArticle

  /** A category name and its badge classes. */
  datatype CategoryColor = CategoryColor(name: string, classes: string)

  /** `categoryColors`, in the order its keys are searched. */
  const CategoryColors: seq<CategoryColor> := [
    CategoryColor("financing", "bg-blue-100 text-blue-700 dark:bg-blue-900/30 dark:text-blue-300"),
    CategoryColor("market", "bg-emerald-100 text-emerald-700 dark:bg-emerald-900/30 dark:text-emerald-300"),
    CategoryColor("sme", "bg-amber-100 text-amber-700 dark:bg-amber-900/30 dark:text-amber-300"),
    CategoryColor("tips", "bg-purple-100 text-purple-700 dark:bg-purple-900/30 dark:text-purple-300"),
    CategoryColor("regulation", "bg-rose-100 text-rose-700 dark:bg-rose-900/30 dark:text-rose-300")]

  /** The position of the first entry whose name occurs in `text`. */
  function FirstContained(colors: seq<CategoryColor>, text: string): (r: Option<nat>)
    ensures r.None? <==> forall i :: 0 <= i < |colors| ==> !Contains(text, colors[i].name)
    ensures r.Some? ==> r.value < |colors| && Contains(text, colors[r.value].name)
    ensures r.Some? ==> forall j :: 0 <= j < r.value ==> !Contains(text, colors[j].name)
  {
    if colors == [] then None
    else if Contains(text, colors[0].name) then Some(0)
    else
      var r := FirstContained(colors[1..], text);
      assert forall i :: 1 <= i < |colors| ==> colors[i] == colors[1..][i - 1];
      if r.Some? then Some(r.value + 1) else None
  }

  /**
   * `categoryKey`: the first of financing, market, sme, tips and regulation
   * that occurs in the lower-cased label, if any.
   */
  function CategoryKey(categoryLabel: string): (key: Option<string>)
    ensures key.None? <==> forall i :: 0 <= i < |CategoryColors| ==> !Contains(ToLower(categoryLabel), CategoryColors[i].name)
    ensures key.Some? ==> exists i :: (0 <= i < |CategoryColors| && key.value == CategoryColors[i].name &&
      Contains(ToLower(categoryLabel), CategoryColors[i].name) &&
      forall j :: 0 <= j < i ==> !Contains(ToLower(categoryLabel), CategoryColors[j].name))
  {
    match FirstContained(CategoryColors, ToLower(categoryLabel))
    case None => None
    case Some(i) => Some(CategoryColors[i].name)
  }

  /** The badge classes for a category name, when the table has one. */
  function ClassesOf(colors: seq<CategoryColor>, name: string): (r: Option<string>)
    ensures r.Some? <==> exists i :: 0 <= i < |colors| && colors[i].name == name
    ensures r.Some? ==> exists i :: 0 <= i < |colors| && colors[i].name == name && colors[i].classes == r.value
  {
    if colors == [] then None
    else if colors[0].name == name then Some(colors[0].classes)
    else
      var r := ClassesOf(colors[1..], name);
      assert forall i :: 1 <= i < |colors| ==> colors[i] == colors[1..][i - 1];
      r
  }

  /** The financing classes, the fallback badge. */
  const FinancingClasses: string := CategoryColors[0].classes

  /**
   * `colorClass`: the classes of the found category, or of financing when
   * none is found; the result is always one of the table's entries.
   */
  function ColorClass(categoryLabel: string): (classes: string)
    ensures exists i :: 0 <= i < |CategoryColors| && classes == CategoryColors[i].classes
    ensures CategoryKey(categoryLabel).None? ==> classes == FinancingClasses
  {
    var name := CategoryKey(categoryLabel).GetOr("financing");
    match ClassesOf(CategoryColors, name)
    case Some(c) => c
    case None => FinancingClasses
  }

  /** No category name appears twice in the table. */
  lemma CategoryNamesDistinct()
    ensures forall i, j :: 0 <= i < j < |CategoryColors| ==> CategoryColors[i].name != CategoryColors[j].name
  {
  }

  /** The first contained entry is the one before which nothing is contained. */
  lemma {:induction false} FirstContainedAt(colors: seq<CategoryColor>, text: string, i: nat)
    requires i < |colors| && Contains(text, colors[i].name)
    requires forall j :: 0 <= j < i ==> !Contains(text, colors[j].name)
    ensures FirstContained(colors, text) == Some(i)
  {
    if i > 0 {
      assert forall j :: 0 <= j < i - 1 ==> colors[1..][j] == colors[j + 1];
      FirstContainedAt(colors[1..], text, i - 1);
    }
  }

  /** With distinct names, a name's classes are those of its one entry. */
  lemma {:induction false} ClassesOfAt(colors: seq<CategoryColor>, i: nat)
    requires i < |colors|
    requires forall j, k :: 0 <= j < k < |colors| ==> colors[j].name != colors[k].name
    ensures ClassesOf(colors, colors[i].name) == Some(colors[i].classes)
  {
    if i > 0 {
      assert colors[0].name != colors[i].name;
      assert colors[1..][i - 1] == colors[i];
      ClassesOfAt(colors[1..], i - 1);
    }
  }

  /** A label naming a category gets that category's colour, the first in table order when it names several. */
  lemma ColorOfFoundCategory(categoryLabel: string, i: nat)
    requires i < |CategoryColors| && Contains(ToLower(categoryLabel), CategoryColors[i].name)
    requires forall j :: 0 <= j < i ==> !Contains(ToLower(categoryLabel), CategoryColors[j].name)
    ensures ColorClass(categoryLabel) == CategoryColors[i].classes
  {
    FirstContainedAt(CategoryColors, ToLower(categoryLabel), i);
    CategoryNamesDistinct();
    ClassesOfAt(CategoryColors, i);
  }

  /** The route prefix of an article page. */
  const BlogRoute: string := "/knowledge/blog/"

  /** The card's link: the article route followed by the key. */
  function Href(articleKey: string): (href: string)
    ensures StartsWith(href, BlogRoute) && href[|BlogRoute|..] == articleKey
  {
    BlogRoute + articleKey
  }

  /** The route parameter of an article link: what follows the prefix. */
  function ArticleIdOf(href: string): (articleId: Option<string>)
    ensures articleId.Some? <==> StartsWith(href, BlogRoute)
    ensures articleId.Some? ==> href == BlogRoute + articleId.value
  {
    if StartsWith(href, BlogRoute) then Some(href[|BlogRoute|..]) else None
  }

  /** The link of every listed card opens that article's page. */
  lemma CardLinkOpensArticle(t: string -> string, i: nat)
    requires i < |Articles(t)|
    ensures var page := ArticlePage(ArticleIdOf(Href(Articles(t)[i].key)), t);
      page.Found? && page.article == Articles(t)[i]
  {
    var key := Articles(t)[i].key;
    assert ArticleIdOf(Href(key)) == Some(key);
    ListedArticlesOpen(t, i);
  }
}
