/**
 * Article admission in the load pipeline: records without a title or a
 * name are dropped, the tags of the others are normalised, and the result
 * is ordered by date, newest first.
 */
module Articles {
  import opened Wrappers
  import opened Tags

  /** The `date` field of an entry: absent, `null`, or a string. */
  datatype DateField = Undefined | Null | Text(text: string)

  /** One entry of the article feed as parsed, with the fields the grid uses. */
  datatype Record = Record(
    title: Option<string>,
    name: Option<string>,
    tags: TagInput,
    excerpt: string,
    date: DateField)

  /** An admitted article: title and name present, tags normalised. */
  datatype Article = Article(
    title: string,
    name: string,
    tags: seq<string>,
    excerpt: string,
    date: DateField)

  /** A string field is truthy when it is present and not empty. */
  predicate Truthy(f: Option<string>) {
    f.Some? && f.value != ""
  }

  predicate Admissible(r: Record) {
    Truthy(r.title) && Truthy(r.name)
  }

  function Admit(r: Record): Article
    requires Admissible(r)
  {
    Article(r.title.value, r.name.value, NormalizeInput(r.tags), r.excerpt, r.date)
  }

  /** The filter-and-normalise part of the load pipeline. */
  function AdmitAll(records: seq<Record>): (articles: seq<Article>)
    ensures |articles| <= |records|
    ensures forall a :: a in articles <==> exists r :: r in records && Admissible(r) && Admit(r) == a
    ensures forall i :: 0 <= i < |articles| ==>
      articles[i].title != "" && articles[i].name != "" &&
      AllCanonical(articles[i].tags) && NoDup(articles[i].tags)
  {
    if records == [] then []
    else
      var rest := AdmitAll(records[1..]);
      assert forall r :: r in records <==> r == records[0] || r in records[1..];
      if Admissible(records[0]) then [Admit(records[0])] + rest else rest
  }

  /** `filter` then `map` over a concatenation: each part contributes its own articles, in order. */
  lemma {:induction false} AdmitAllAppend(xs: seq<Record>, ys: seq<Record>)
    ensures AdmitAll(xs + ys) == AdmitAll(xs) + AdmitAll(ys)
  {
    if xs != [] {
      assert (xs + ys)[1..] == xs[1..] + ys;
      AdmitAllAppend(xs[1..], ys);
    } else {
      assert xs + ys == ys;
    }
  }

  /** A single record contributes its article iff it is admissible. */
  lemma AdmitAllSingle(r: Record)
    ensures AdmitAll([r]) == if Admissible(r) then [Admit(r)] else []
  {
    assert [r][1..] == [];
  }

  /** The sort key: `String(date)`, which is "undefined" for a missing date and "null" for `null`. */
  function DateKey(a: Article): string {
    match a.date
    case Undefined => "undefined"
    case Null => "null"
    case Text(d) => d
  }

  /** Lexicographic order on strings, character by character. */
  predicate LexLe(a: string, b: string) {
    |a| == 0 || (|b| > 0 && (a[0] < b[0] || (a[0] == b[0] && LexLe(a[1..], b[1..]))))
  }

  lemma {:induction false} LexLeTotal(a: string, b: string)
    ensures LexLe(a, b) || LexLe(b, a)
  {
    if |a| > 0 && |b| > 0 && a[0] == b[0] {
      LexLeTotal(a[1..], b[1..]);
    }
  }

  lemma {:induction false} LexLeTransitive(a: string, b: string, c: string)
    requires LexLe(a, b) && LexLe(b, c)
    ensures LexLe(a, c)
  {
    if |a| > 0 && a[0] == b[0] && b[0] == c[0] {
      LexLeTransitive(a[1..], b[1..], c[1..]);
    }
  }

  /** Newest first: every later article's date key is at most every earlier one's. */
  predicate SortedByDateDesc(s: seq<Article>) {
    forall i, j :: 0 <= i < j < |s| ==> LexLe(DateKey(s[j]), DateKey(s[i]))
  }

  /** Insert `a` before the first article whose date key is not greater than its own. */
  function Insert(a: Article, s: seq<Article>): (r: seq<Article>)
    requires SortedByDateDesc(s)
    ensures SortedByDateDesc(r)
    ensures multiset(r) == multiset(s) + multiset{a}
  {
    if s == [] || LexLe(DateKey(s[0]), DateKey(a)) then
      assert forall j :: 0 < j < |s| ==> LexLe(DateKey(s[j]), DateKey(a)) by {
        forall j | 0 < j < |s| ensures LexLe(DateKey(s[j]), DateKey(a)) {
          LexLeTransitive(DateKey(s[j]), DateKey(s[0]), DateKey(a));
        }
      }
      [a] + s
    else
      LexLeTotal(DateKey(s[0]), DateKey(a));
      var tail := Insert(a, s[1..]);
      InsertHead(s[0], a, s[1..], tail);
      assert s == [s[0]] + s[1..];
      [s[0]] + tail
  }

  /** An article no newer than `head` inserted behind it keeps the order. */
  lemma InsertHead(head: Article, a: Article, s: seq<Article>, tail: seq<Article>)
    requires LexLe(DateKey(a), DateKey(head))
    requires forall j :: 0 <= j < |s| ==> LexLe(DateKey(s[j]), DateKey(head))
    requires SortedByDateDesc(tail) && multiset(tail) == multiset(s) + multiset{a}
    ensures SortedByDateDesc([head] + tail)
  {
    var r := [head] + tail;
    forall i, j | 0 <= i < j < |r|
      ensures LexLe(DateKey(r[j]), DateKey(r[i]))
    {
      if i == 0 {
        var x := tail[j - 1];
        assert x in multiset(tail);
        if x != a {
          assert x in multiset(s);
          assert x in s;
        }
      }
    }
  }

  /** `.sort((a, b) => String(b.date).localeCompare(String(a.date)))`, with plain lexicographic order. */
  function SortByDateDesc(s: seq<Article>): (r: seq<Article>)
    ensures SortedByDateDesc(r)
    ensures multiset(r) == multiset(s)
  {
    if s == [] then []
    else
      assert s == [s[0]] + s[1..];
      Insert(s[0], SortByDateDesc(s[1..]))
  }

  /** The articles the grid renders, in order. */
  function LoadArticles(records: seq<Record>): seq<Article> {
    SortByDateDesc(AdmitAll(records))
  }

  /**
   * The pipeline keeps exactly the admissible records, each once per
   * occurrence, newest first, every one with canonical duplicate-free tags.
   */
  lemma LoadArticlesSpec(records: seq<Record>)
    ensures SortedByDateDesc(LoadArticles(records))
    ensures multiset(LoadArticles(records)) == multiset(AdmitAll(records))
    ensures forall a :: a in LoadArticles(records) <==>
      exists r :: r in records && Admissible(r) && Admit(r) == a
    ensures forall a :: a in LoadArticles(records) ==>
      a.title != "" && a.name != "" && Normalize(a.tags) == a.tags
  {
    var admitted := AdmitAll(records);
    forall a | a in LoadArticles(records)
      ensures a in admitted
    {
      assert a in multiset(LoadArticles(records));
    }
    forall a | a in admitted
      ensures a in LoadArticles(records) && Normalize(a.tags) == a.tags
    {
      assert a in multiset(admitted);
      NormalizeFixesNormalized(a.tags);
    }
  }
}
