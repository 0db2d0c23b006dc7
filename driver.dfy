/**
 * The driver loop: for each of the first ten collected links, join the
 * article's paragraphs into one text and, for every disease in table order,
 * append a row when the disease is named.
 */
module Driver {
  import opened Text
  import opened KnowledgeBase
  import opened DiseaseMatcher

  /** A collected link with the paragraph texts extracted from its page. */
  datatype Article = Article(link: string, paragraphs: seq<string>)

  /** One output row: `[link, disease, "Yes"/"No", "Yes"/"No"]`. */
  datatype Row = Row(articleUrl: string, disease: string, symptomsFound: string, preventionFound: string)

  /** Only this many links are scraped. */
  const ArticleCap: nat := 10

  function TotalLength(ps: seq<string>): nat {
    if |ps| == 0 then 0 else |ps[0]| + TotalLength(ps[1..])
  }

  /** `" ".join(ps)`. */
  function Join(ps: seq<string>): (r: string)
    ensures |r| == TotalLength(ps) + (if |ps| == 0 then 0 else |ps| - 1)
    ensures |ps| == 0 ==> r == ""
    ensures |ps| == 1 ==> r == ps[0]
  {
    if |ps| == 0 then ""
    else if |ps| == 1 then ps[0]
    else ps[0] + " " + Join(ps[1..])
  }

  /**
   * `Join` read from the left: each further paragraph is added after one
   * space. With `Join([]) == ""` and `Join([p]) == p` this fixes the result
   * as the paragraphs in order, separated by single spaces.
   */
  lemma {:induction false} JoinSnoc(ps: seq<string>, q: string)
    requires |ps| > 0
    ensures Join(ps + [q]) == Join(ps) + " " + q
    decreases |ps|
  {
    var qs := ps + [q];
    assert qs[0] == ps[0];
    if |ps| == 1 {
      assert qs[1..] == [q];
    } else {
      assert qs[1..] == ps[1..] + [q];
      JoinSnoc(ps[1..], q);
    }
  }

  /** Joining with spaces never breaks a whole-word match inside one paragraph. */
  lemma {:induction false} OccursInJoin(ps: seq<string>, k: nat, p: string)
    requires k < |ps| && Occurs(ps[k], p)
    ensures Occurs(Join(ps), p)
  {
    if |ps| > 1 {
      if k == 0 {
        OccursBeforeSpace(ps[0], p, Join(ps[1..]));
      } else {
        OccursInJoin(ps[1..], k - 1, p);
        OccursAfterSpace(ps[0], Join(ps[1..]), p);
      }
    }
  }

  function YesNo(b: bool): (s: string)
    ensures s == "Yes" <==> b
    ensures s == "No" <==> !b
  {
    if b then "Yes" else "No"
  }

  /** What decides, for one article text and one entry, the three findings. */
  type Matcher = (string, DiseaseEntry) -> DiseaseCheck

  function RowFor(link: string, e: DiseaseEntry, c: DiseaseCheck): Row {
    Row(link, e.name, YesNo(c.symptomsFound), YesNo(c.preventionFound))
  }

  /**
   * The rows one article contributes from the first `n` entries of `table`,
   * in table order. The driver uses the knowledge base `Diseases` as table
   * and `Check` as matcher; the properties below hold for any of either.
   */
  function ArticleRows(table: seq<DiseaseEntry>, check: Matcher, link: string, text: string, n: nat): seq<Row>
    requires n <= |table|
  {
    if n == 0 then []
    else
      var c := check(text, table[n - 1]);
      ArticleRows(table, check, link, text, n - 1) + (if c.diseaseFound then [RowFor(link, table[n - 1], c)] else [])
  }

  function ArticleText(a: Article): string {
    Join(a.paragraphs)
  }

  /** The rows of a sequence of articles, article by article. */
  function Rows(table: seq<DiseaseEntry>, check: Matcher, articles: seq<Article>): seq<Row> {
    if |articles| == 0 then []
    else
      var a := articles[|articles| - 1];
      Rows(table, check, articles[..|articles| - 1]) + ArticleRows(table, check, a.link, ArticleText(a), |table|)
  }

  /** How many of `n` links are scraped: `len(article_links[:10])`. */
  function Processed(n: nat): (m: nat)
    ensures m <= n && m <= ArticleCap
    ensures m == n || m == ArticleCap
  {
    if n < ArticleCap then n else ArticleCap
  }

  // ---------------------------------------------------------------------
  // What the rows are

  /** Row `r` is the one article `k` produces for entry `d` of the table. */
  ghost predicate RowFrom(table: seq<DiseaseEntry>, check: Matcher, articles: seq<Article>, k: nat, d: nat, r: Row) {
    && k < |articles| && d < |table|
    && var c := check(ArticleText(articles[k]), table[d]);
    && c.diseaseFound
    && r == RowFor(articles[k].link, table[d], c)
  }

  /** An article emits a row for a disease exactly when the article names the disease. */
  lemma {:induction false} ArticleRowsMembership(table: seq<DiseaseEntry>, check: Matcher, link: string, text: string, n: nat, r: Row)
    requires n <= |table|
    ensures r in ArticleRows(table, check, link, text, n) <==>
      exists d :: 0 <= d < n && check(text, table[d]).diseaseFound && r == RowFor(link, table[d], check(text, table[d]))
  {
    if n > 0 {
      ArticleRowsMembership(table, check, link, text, n - 1, r);
    }
  }

  /**
   * Every row is for `link` and for a disease among the first `n` of the
   * table, and the diseases follow table order, none twice.
   */
  ghost predicate InTableOrder(table: seq<DiseaseEntry>, link: string, n: nat, rows: seq<Row>) {
    && (forall q :: 0 <= q < |rows| ==>
          rows[q].articleUrl == link && IndexIn(table, rows[q].disease).Some? && IndexIn(table, rows[q].disease).value < n)
    && (forall q1, q2 :: 0 <= q1 < q2 < |rows| ==>
          IndexIn(table, rows[q1].disease).Some? && IndexIn(table, rows[q2].disease).Some? &&
          IndexIn(table, rows[q1].disease).value < IndexIn(table, rows[q2].disease).value)
  }

  /** Within one article the rows follow the order of the table, each disease at most once. */
  lemma {:induction false} ArticleRowsInTableOrder(table: seq<DiseaseEntry>, check: Matcher, link: string, text: string, n: nat)
    requires NamesDistinct(table) && n <= |table|
    ensures InTableOrder(table, link, n, ArticleRows(table, check, link, text, n))
  {
    if n > 0 {
      var prev := ArticleRows(table, check, link, text, n - 1);
      ArticleRowsInTableOrder(table, check, link, text, n - 1);
      IndexInEntry(table, n - 1);
      var c := check(text, table[n - 1]);
      if c.diseaseFound {
        var rows := prev + [RowFor(link, table[n - 1], c)];
        assert rows == ArticleRows(table, check, link, text, n);
        assert rows[|prev|].disease == table[n - 1].name;
        forall q | 0 <= q < |rows|
          ensures rows[q].articleUrl == link && IndexIn(table, rows[q].disease).Some? && IndexIn(table, rows[q].disease).value < n
        {
          if q < |prev| {
            assert rows[q] == prev[q];
          }
        }
        forall q1, q2 | 0 <= q1 < q2 < |rows|
          ensures IndexIn(table, rows[q1].disease).Some? && IndexIn(table, rows[q2].disease).Some?
          ensures IndexIn(table, rows[q1].disease).value < IndexIn(table, rows[q2].disease).value
        {
          assert rows[q1] == prev[q1];
          if q2 < |prev| {
            assert rows[q2] == prev[q2];
          }
        }
      }
    }
  }

  /** Rows of earlier articles come first: the rows of a concatenation are the concatenated rows. */
  lemma {:induction false} RowsAppend(table: seq<DiseaseEntry>, check: Matcher, a: seq<Article>, b: seq<Article>)
    ensures Rows(table, check, a + b) == Rows(table, check, a) + Rows(table, check, b)
    decreases |b|
  {
    if |b| == 0 {
      assert a + b == a;
    } else {
      var b', x := b[..|b| - 1], b[|b| - 1];
      var tail := ArticleRows(table, check, x.link, ArticleText(x), |table|);
      assert (a + b)[..|a + b| - 1] == a + b';
      assert (a + b)[|a + b| - 1] == x;
      assert Rows(table, check, a + b) == Rows(table, check, a + b') + tail;
      assert Rows(table, check, b) == Rows(table, check, b') + tail;
      RowsAppend(table, check, a, b');
    }
  }

  /** A row is emitted exactly for each (article, disease) pair where the article names the disease. */
  lemma {:induction false} RowsMembership(table: seq<DiseaseEntry>, check: Matcher, articles: seq<Article>, r: Row)
    ensures r in Rows(table, check, articles) <==> exists k: nat, d: nat :: RowFrom(table, check, articles, k, d, r)
    decreases |articles|
  {
    if |articles| > 0 {
      var m := |articles| - 1;
      var init := articles[..m];
      var a := articles[m];
      var tail := ArticleRows(table, check, a.link, ArticleText(a), |table|);
      assert Rows(table, check, articles) == Rows(table, check, init) + tail;
      RowsMembership(table, check, init, r);
      ArticleRowsMembership(table, check, a.link, ArticleText(a), |table|, r);
      if r in Rows(table, check, init) {
        var k: nat, d: nat :| RowFrom(table, check, init, k, d, r);
        assert articles[k] == init[k];
        assert RowFrom(table, check, articles, k, d, r);
      } else if r in tail {
        var d: nat :| d < |table| && check(ArticleText(a), table[d]).diseaseFound
          && r == RowFor(a.link, table[d], check(ArticleText(a), table[d]));
        assert RowFrom(table, check, articles, m, d, r);
      } else if exists k: nat, d: nat :: RowFrom(table, check, articles, k, d, r) {
        var k: nat, d: nat :| RowFrom(table, check, articles, k, d, r);
        if k < m {
          assert articles[k] == init[k];
          assert RowFrom(table, check, init, k, d, r);
        }
        assert false;
      }
    }
  }

  /** One more article adds its own rows after those of the articles before it. */
  lemma {:induction false} RowsSnoc(table: seq<DiseaseEntry>, check: Matcher, articles: seq<Article>, i: nat)
    requires i < |articles|
    ensures Rows(table, check, articles[..i + 1]) ==
      Rows(table, check, articles[..i]) + ArticleRows(table, check, articles[i].link, ArticleText(articles[i]), |table|)
  {
    assert articles[..i + 1][..i] == articles[..i];
    assert articles[..i + 1][i] == articles[i];
  }

  /** The first `n` articles produce exactly the rows for their (article, disease) pairs. */
  lemma {:induction false} PrefixRowsMembership(table: seq<DiseaseEntry>, check: Matcher, articles: seq<Article>, n: nat, r: Row)
    requires n <= |articles|
    ensures r in Rows(table, check, articles[..n]) <==> exists k: nat, d: nat :: k < n && RowFrom(table, check, articles, k, d, r)
  {
    RowsMembership(table, check, articles[..n], r);
    if exists k: nat, d: nat :: RowFrom(table, check, articles[..n], k, d, r) {
      var k: nat, d: nat :| RowFrom(table, check, articles[..n], k, d, r);
      assert RowFrom(table, check, articles, k, d, r);
    }
    if exists k: nat, d: nat :: k < n && RowFrom(table, check, articles, k, d, r) {
      var k: nat, d: nat :| k < n && RowFrom(table, check, articles, k, d, r);
      assert RowFrom(table, check, articles[..n], k, d, r);
    }
  }

  /** `PrefixRowsMembership` for every row at once. */
  lemma {:induction false} PrefixRowsMembershipAll(table: seq<DiseaseEntry>, check: Matcher, articles: seq<Article>, n: nat)
    requires n <= |articles|
    ensures forall r :: r in Rows(table, check, articles[..n]) <==> exists k: nat, d: nat :: k < n && RowFrom(table, check, articles, k, d, r)
  {
    forall r ensures r in Rows(table, check, articles[..n]) <==> exists k: nat, d: nat :: k < n && RowFrom(table, check, articles, k, d, r) {
      PrefixRowsMembership(table, check, articles, n, r);
    }
  }

  /**
   * End to end: when a paragraph of one of the first ten articles names a
   * disease of the knowledge base, the output holds that article's row for it.
   */
  lemma {:induction false} ParagraphMentionYieldsRow(articles: seq<Article>, k: nat, d: nat, q: nat)
    requires k < Processed(|articles|) && d < |Diseases| && q < |articles[k].paragraphs|
    requires Occurs(articles[k].paragraphs[q], Diseases[d].name)
    ensures var text := ArticleText(articles[k]);
      RowFor(articles[k].link, Diseases[d], Check(text, Diseases[d])) in Rows(Diseases, Check, articles[..Processed(|articles|)])
  {
    var text := ArticleText(articles[k]);
    OccursInJoin(articles[k].paragraphs, q, Diseases[d].name);
    var r := RowFor(articles[k].link, Diseases[d], Check(text, Diseases[d]));
    assert RowFrom(Diseases, Check, articles, k, d, r);
    PrefixRowsMembership(Diseases, Check, articles, Processed(|articles|), r);
  }

  /** The inner loop: one article against every disease, in table order. */
  method ScrapeArticle(link: string, text: string) returns (rows: seq<Row>)
    ensures rows == ArticleRows(Diseases, Check, link, text, |Diseases|)
  {
    rows := [];
    var j := 0;
    while j < |Diseases|
      invariant 0 <= j <= |Diseases|
      invariant rows == ArticleRows(Diseases, Check, link, text, j)
    {
      var disease := Diseases[j];
      var res := CheckDiseaseInfo(text, disease.name);
      CheckDiseaseInfoOfEntry(text, j);
      var found := res.value;
      if found.diseaseFound {
        rows := rows + [RowFor(link, disease, found)];
      }
      j := j + 1;
    }
  }

  /** The main loop over the links. */
  method ScrapeArticles(articles: seq<Article>) returns (data: seq<Row>)
    ensures data == Rows(Diseases, Check, articles[..Processed(|articles|)])
    ensures forall r :: r in data <==> exists k: nat, d: nat :: k < Processed(|articles|) && RowFrom(Diseases, Check, articles, k, d, r)
  {
    data := [];
    var n := Processed(|articles|);
    var i := 0;
    while i < n
      invariant 0 <= i <= n
      invariant data == Rows(Diseases, Check, articles[..i])
    {
      var rows := ScrapeArticle(articles[i].link, ArticleText(articles[i]));
      RowsSnoc(Diseases, Check, articles, i);
      data := data + rows;
      i := i + 1;
    }
    PrefixRowsMembershipAll(Diseases, Check, articles, n);
  }
}
