/**
 * The data a card carries: its `data-tags` attribute, one labelled chip per
 * normalised tag, the hero image, the article link, title and excerpt.
 */
module Cards {
  import opened Tags
  import opened DataTags
  import opened Articles

  /** A tag chip on a card: the tag and its display text. */
  datatype TagChip = TagChip(tag: string, text: string)

  datatype Card = Card(
    dataTags: string,
    imageSrc: string,
    chips: seq<TagChip>,
    href: string,
    title: string,
    excerpt: string)

  /** `LABELS[t] || t`: the label when there is a non-empty one, the tag itself otherwise. */
  function Label(t: string): (text: string)
    ensures t in Canonical ==> text == Labels[t] && text != ""
    ensures t !in Canonical ==> text == t
  {
    if t in Labels && Labels[t] != "" then Labels[t] else t
  }

  function HeroSrc(name: string): string {
    "assets/img/" + name + "/hero.png"
  }

  function ArticleHref(name: string): string {
    "texte/" + name + ".html"
  }

  /** Distinct names give distinct hero images. */
  lemma HeroSrcInjective(n1: string, n2: string)
    requires HeroSrc(n1) == HeroSrc(n2)
    ensures n1 == n2
  {
    var s1, s2 := HeroSrc(n1), HeroSrc(n2);
    assert s1[11..|s1| - 9] == n1;
    assert s2[11..|s2| - 9] == n2;
  }

  /** Distinct names give distinct article links. */
  lemma ArticleHrefInjective(n1: string, n2: string)
    requires ArticleHref(n1) == ArticleHref(n2)
    ensures n1 == n2
  {
    var s1, s2 := ArticleHref(n1), ArticleHref(n2);
    assert s1[6..|s1| - 5] == n1;
    assert s2[6..|s2| - 5] == n2;
  }

  lemma CanonicalTagsAreClean()
    ensures forall t :: t in Canonical ==> Clean(t)
  {
  }

  /**
   * The card generator, reduced to the card's data. The filter reads the
   * card's tags back from `data-tags` and gets exactly the normalised list;
   * every chip shows the label of its tag.
   */
  function CreateCard(a: Article): (c: Card)
    ensures c.dataTags == Join(Normalize(a.tags))
    ensures ParseDataTags(c.dataTags) == Normalize(a.tags)
    ensures c.imageSrc == HeroSrc(a.name) && c.href == ArticleHref(a.name)
    ensures c.title == a.title && c.excerpt == a.excerpt
    ensures |c.chips| == |Normalize(a.tags)|
    ensures forall i :: 0 <= i < |c.chips| ==>
      c.chips[i].tag == Normalize(a.tags)[i] && c.chips[i].text == Labels[c.chips[i].tag]
  {
    var tags := Normalize(a.tags);
    CanonicalTagsAreClean();
    ParseJoin(tags);
    Card(
      Join(tags),
      HeroSrc(a.name),
      seq(|tags|, i requires 0 <= i < |tags| => TagChip(tags[i], Label(tags[i]))),
      ArticleHref(a.name),
      a.title,
      a.excerpt)
  }

  /** `renderArticles`: one card per article, in order. */
  function RenderArticles(articles: seq<Article>): seq<Card> {
    seq(|articles|, i requires 0 <= i < |articles| => CreateCard(articles[i]))
  }

  /**
   * For a loaded article the card's `data-tags` reads back as the article's
   * own tag list: normalising again in the card generator changes nothing.
   */
  lemma CardOfLoadedArticle(records: seq<Record>, a: Article)
    requires a in LoadArticles(records)
    ensures ParseDataTags(CreateCard(a).dataTags) == a.tags
  {
    LoadArticlesSpec(records);
  }
}
