/**
 * The article page: which ids open an article, and the small markdown
 * dialect its body is written in — paragraphs separated by blank lines,
 * classified as headings, bold-labelled lines, bullet lists or plain text.
 */
module BlogArticle {
  import opened Wrappers
  import opened Text
  import opened Blog

  // ---------------------------------------------------------------------
  // The article id
  // ---------------------------------------------------------------------

  /** `isValidArticle`: an id is present, not empty, and one of the article keys. */
  predicate IsValidArticle(articleId: Option<string>) {
    articleId.Some? && articleId.value != "" && articleId.value in ArticleKeys
  }

  /** Exactly the eight keys are valid ids; a missing id is not. */
  lemma ValidIffArticleKey(articleId: Option<string>)
    ensures IsValidArticle(articleId) <==> articleId.Some? && articleId.value in ArticleKeys
  {
  }

  // ---------------------------------------------------------------------
  // Lines of a bold block
  // ---------------------------------------------------------------------

  /** A line of a bold block: a bold caption with its text, a bold line, or a plain line. */
  datatype BoldLine = Labelled(caption: string, rest: string) | Strong(text: string) | Plain(text: string)

  /**
   * A line that starts with `**` and contains `:**` is cut at the first
   * `:**`; the pieces after it are joined back with `:**`, and every `**`
   * is removed from both parts. Any other line starting with `**` loses
   * its `**`; the remaining lines stay as written.
   */
  function RenderLine(line: string): (b: BoldLine)
    ensures b.Labelled? <==> StartsWith(line, "**") && Contains(line, ":**")
    ensures b.Strong? <==> StartsWith(line, "**") && !Contains(line, ":**")
    ensures b.Plain? <==> !StartsWith(line, "**")
    ensures b.Plain? ==> b.text == line
    ensures b.Labelled? ==> !Contains(b.caption, "**") && !Contains(b.rest, "**")
    ensures b.Strong? ==> !Contains(b.text, "**") && b.text == RemoveAll(line, "**")
  {
    if StartsWith(line, "**") && Contains(line, ":**") then
      var parts := Split(line, ":**");
      RemoveAllStarsLeavesNone(parts[0]);
      RemoveAllStarsLeavesNone(Join(parts[1..], ":**"));
      Labelled(RemoveAll(parts[0], "**"), RemoveAll(Join(parts[1..], ":**"), "**"))
    else if StartsWith(line, "**") then
      RemoveAllStarsLeavesNone(line);
      Strong(RemoveAll(line, "**"))
    else Plain(line)
  }

  /**
   * The caption is the text before the first `:**` and the rest is all the
   * text after it, each without its `**`: cutting and re-joining loses no
   * later `:**`.
   */
  lemma LabelledCutsAtFirst(line: string, i: nat)
    requires StartsWith(line, "**") && IndexOf(line, ":**") == Some(i)
    ensures RenderLine(line) == Labelled(RemoveAll(line[..i], "**"), RemoveAll(line[i + 3..], "**"))
  {
    SplitAtFirst(line, ":**", i);
  }

  // ---------------------------------------------------------------------
  // Bullet lists
  // ---------------------------------------------------------------------

  /** The items of a bullet list: the lines starting with `- `, each without that marker, in order. */
  function BulletItems(lines: seq<string>): (items: seq<string>)
    ensures |items| <= |lines|
  {
    if lines == [] then []
    else if StartsWith(lines[0], "- ") then [ReplaceFirst(lines[0], "- ", "")] + BulletItems(lines[1..])
    else BulletItems(lines[1..])
  }

  /**
   * The list of a text made of two runs of lines is the first run's list
   * followed by the second's: items keep their lines' order, one per
   * bullet line.
   */
  lemma {:induction false} BulletItemsAppend(a: seq<string>, b: seq<string>)
    ensures BulletItems(a + b) == BulletItems(a) + BulletItems(b)
  {
    if a != [] {
      assert (a + b)[0] == a[0];
      assert (a + b)[1..] == a[1..] + b;
      BulletItemsAppend(a[1..], b);
    } else {
      assert a + b == b;
    }
  }

  /** A single line gives one item, its text after `- `, when it is a bullet line, and none otherwise. */
  lemma BulletItemsOfLine(line: string)
    ensures BulletItems([line]) == if StartsWith(line, "- ") then [line[2..]] else []
  {
    assert [line][1..] == [];
    if StartsWith(line, "- ") {
      assert BulletItems([line]) == [ReplaceFirst(line, "- ", "")];
      assert BulletItems([line])[0] == line[2..];
    }
  }

  /** Every item is a bullet line without its marker. */
  lemma {:induction false} BulletItemsFromBullets(lines: seq<string>, k: nat)
    requires k < |BulletItems(lines)|
    ensures exists i :: 0 <= i < |lines| && StartsWith(lines[i], "- ") && BulletItems(lines)[k] == lines[i][2..]
  {
    var rest := BulletItems(lines[1..]);
    if StartsWith(lines[0], "- ") {
      assert BulletItems(lines) == [ReplaceFirst(lines[0], "- ", "")] + rest;
      if k == 0 {
        assert BulletItems(lines)[0] == lines[0][2..];
      } else {
        BulletItemsFromBullets(lines[1..], k - 1);
        var i :| 0 <= i < |lines[1..]| && StartsWith(lines[1..][i], "- ") && rest[k - 1] == lines[1..][i][2..];
        assert lines[1..][i] == lines[i + 1];
      }
    } else {
      assert BulletItems(lines) == rest;
      BulletItemsFromBullets(lines[1..], k);
      var i :| 0 <= i < |lines[1..]| && StartsWith(lines[1..][i], "- ") && rest[k] == lines[1..][i][2..];
      assert lines[1..][i] == lines[i + 1];
    }
  }

  /** Every bullet line gives an item. */
  lemma {:induction false} BulletLinesListed(lines: seq<string>, i: nat)
    requires i < |lines| && StartsWith(lines[i], "- ")
    ensures lines[i][2..] in BulletItems(lines)
  {
    var rest := BulletItems(lines[1..]);
    if i > 0 {
      assert lines[1..][i - 1] == lines[i];
      BulletLinesListed(lines[1..], i - 1);
    }
    if StartsWith(lines[0], "- ") {
      assert BulletItems(lines) == [ReplaceFirst(lines[0], "- ", "")] + rest;
      assert BulletItems(lines)[0] == lines[0][2..];
    } else {
      assert BulletItems(lines) == rest;
    }
  }

  /**
   * When a text starts with `pre` and `pre` holds no line break, the first
   * line of the text starts with `pre` too.
   */
  lemma FirstLineStartsLike(s: string, pre: string)
    requires StartsWith(s, pre) && forall j :: 0 <= j < |pre| ==> pre[j] != '\n'
    ensures StartsWith(Split(s, "\n")[0], pre)
  {
    match IndexOf(s, "\n")
    case None =>
      SplitWithout(s, "\n");
    case Some(i) =>
      FirstBreakAfter(s, pre, i);
      SplitAtFirst(s, "\n", i);
      PrefixKept(s, pre, i);
  }

  /** The first line break of a text comes after a prefix that holds none. */
  lemma FirstBreakAfter(s: string, pre: string, i: nat)
    requires StartsWith(s, pre) && forall j :: 0 <= j < |pre| ==> pre[j] != '\n'
    requires IndexOf(s, "\n") == Some(i)
    ensures |pre| <= i
  {
    assert OccursAt(s, "\n", i);
    assert s[i..i + 1][0] == s[i];
    assert forall j :: 0 <= j < |pre| ==> s[j] == s[..|pre|][j];
  }

  /** Cutting a text after its prefix keeps the prefix. */
  lemma PrefixKept(s: string, pre: string, i: nat)
    requires StartsWith(s, pre) && |pre| <= i <= |s|
    ensures StartsWith(s[..i], pre)
  {
    assert s[..i][..|pre|] == s[..|pre|];
  }

  /** A paragraph that starts with `- ` has at least one item: its first line. */
  lemma BulletParagraphHasItems(p: string)
    requires StartsWith(p, "- ")
    ensures |BulletItems(Split(p, "\n"))| >= 1
  {
    var lines := Split(p, "\n");
    FirstLineStartsLike(p, "- ");
    BulletLinesListed(lines, 0);
  }

  // ---------------------------------------------------------------------
  // Blocks
  // ---------------------------------------------------------------------

  /** A block of the rendered body. */
  datatype Block =
    | H2(text: string)
    | H3(text: string)
    | BoldLines(lines: seq<BoldLine>)
    | Bullets(items: seq<string>)
    | Para(text: string)

  /** The lines of a bold block, each classified on its own. */
  function RenderLines(lines: seq<string>): (r: seq<BoldLine>)
    ensures |r| == |lines|
    ensures forall k :: 0 <= k < |r| ==> r[k] == RenderLine(lines[k])
  {
    seq(|lines|, k requires 0 <= k < |lines| => RenderLine(lines[k]))
  }

  /**
   * A paragraph's block, by the first rule that applies: `## ` heading,
   * `### ` heading, a bold block when it holds both `**` and a line break,
   * a bullet list when it starts with `- `, otherwise the text as it is.
   */
  function RenderParagraph(p: string): (b: Block)
    ensures b.H2? <==> StartsWith(p, "## ")
    ensures b.H3? <==> !StartsWith(p, "## ") && StartsWith(p, "### ")
    ensures b.BoldLines? <==>
      !StartsWith(p, "## ") && !StartsWith(p, "### ") && Contains(p, "**") && Contains(p, "\n")
    ensures b.Bullets? <==>
      !StartsWith(p, "## ") && !StartsWith(p, "### ") && !(Contains(p, "**") && Contains(p, "\n")) &&
      StartsWith(p, "- ")
    ensures b.H2? ==> b.text == p[3..]
    ensures b.H3? ==> b.text == p[4..]
    ensures b.BoldLines? ==> |b.lines| >= 2 && b.lines == RenderLines(Split(p, "\n"))
    ensures b.Bullets? ==> b.items == BulletItems(Split(p, "\n"))
    ensures b.Para? ==> b.text == p
  {
    if StartsWith(p, "## ") then H2(ReplaceFirst(p, "## ", ""))
    else if StartsWith(p, "### ") then H3(ReplaceFirst(p, "### ", ""))
    else if Contains(p, "**") && Contains(p, "\n") then
      SplitAtFirst(p, "\n", IndexOf(p, "\n").value);
      BoldLines(RenderLines(Split(p, "\n")))
    else if StartsWith(p, "- ") then Bullets(BulletItems(Split(p, "\n")))
    else Para(p)
  }

  /**
   * A bullet-list block lists at least one item; its items are exactly the
   * paragraph's lines that start with `- `, each without that marker.
   */
  lemma BulletBlockItems(p: string)
    requires RenderParagraph(p).Bullets?
    ensures var items := RenderParagraph(p).items;
      var lines := Split(p, "\n");
      && |items| >= 1
      && (forall k :: 0 <= k < |items| ==>
            exists i :: 0 <= i < |lines| && StartsWith(lines[i], "- ") && items[k] == lines[i][2..])
      && (forall i :: 0 <= i < |lines| && StartsWith(lines[i], "- ") ==> lines[i][2..] in items)
  {
    var lines := Split(p, "\n");
    BulletParagraphHasItems(p);
    forall k | 0 <= k < |BulletItems(lines)|
      ensures exists i :: 0 <= i < |lines| && StartsWith(lines[i], "- ") && BulletItems(lines)[k] == lines[i][2..]
    {
      BulletItemsFromBullets(lines, k);
    }
    forall i | 0 <= i < |lines| && StartsWith(lines[i], "- ")
      ensures lines[i][2..] in BulletItems(lines)
    {
      BulletLinesListed(lines, i);
    }
  }

  /** A `### ` paragraph is never taken for a `## ` heading: third-level headings are reachable. */
  lemma ThirdLevelHeadingsReachable(p: string)
    requires StartsWith(p, "### ")
    ensures RenderParagraph(p) == H3(p[4..])
  {
    assert p[2] == '#';
    assert !StartsWith(p, "## ");
  }

  /**
   * A bullet list with a bold item is rendered as a bold block: its lines
   * keep their `- ` marker and, not starting with `**`, are shown as written.
   */
  lemma BoldBulletsShownAsLines(p: string)
    requires StartsWith(p, "- ") && Contains(p, "**") && Contains(p, "\n")
    ensures var b := RenderParagraph(p);
      b.BoldLines? && b.lines[0] == Plain(Split(p, "\n")[0])
  {
    assert p[0] == '-';
    assert !StartsWith(p, "## ") && !StartsWith(p, "### ");
    FirstLineStartsLike(p, "- ");
    assert Split(p, "\n")[0][0] == '-';
  }

  /** `renderBody`: the body cut at blank lines, one block per paragraph, in order. */
  function RenderBody(text: string): (blocks: seq<Block>)
    ensures |blocks| == |Split(text, "\n\n")| >= 1
  {
    var paragraphs := Split(text, "\n\n");
    seq(|paragraphs|, i requires 0 <= i < |paragraphs| => RenderParagraph(paragraphs[i]))
  }

  /**
   * The body is the paragraphs joined by blank lines, none of them holds a
   * blank line, and each block is its paragraph's.
   */
  lemma BodyFollowsParagraphs(text: string)
    ensures var paragraphs := Split(text, "\n\n");
      && Join(paragraphs, "\n\n") == text
      && (forall i :: 0 <= i < |paragraphs| ==> !Contains(paragraphs[i], "\n\n"))
      && (forall i :: 0 <= i < |paragraphs| ==> RenderBody(text)[i] == RenderParagraph(paragraphs[i]))
  {
    SplitJoin(text, "\n\n");
    SplitPiecesFree(text, "\n\n");
  }

  // ---------------------------------------------------------------------
  // The page
  // ---------------------------------------------------------------------

  /** What the route shows: the not-found page, or the article with its rendered body. */
  datatype Page = NotFound | Found(article: Article, body: seq<Block>)

  /** The article page for `articleId`, its texts looked up with `t`. */
  function ArticlePage(articleId: Option<string>, t: string -> string): (page: Page)
    ensures page.NotFound? <==> !IsValidArticle(articleId)
    ensures page.Found? ==> page.article.key == articleId.value && page.article.key in ArticleKeys
    ensures page.Found? ==> page.body == RenderBody(t("blog.articles." + articleId.value + ".body"))
  {
    if !IsValidArticle(articleId) then NotFound
    else
      var key := articleId.value;
      Found(ArticleOf(key, t), RenderBody(t("blog.articles." + key + ".body")))
  }

  /** Every listed article opens its own page, with the texts the listing shows. */
  lemma ListedArticlesOpen(t: string -> string, i: nat)
    requires i < |Articles(t)|
    ensures var page := ArticlePage(Some(Articles(t)[i].key), t);
      page.Found? && page.article == Articles(t)[i]
  {
    assert Articles(t)[i].key == ArticleKeys[i];
  }
}
