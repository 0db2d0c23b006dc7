/**
 * The link collector of `get_article_links`: keep the hrefs of the seed page
 * that contain "/articles/", resolve relative ones against the site origin,
 * and collect them in a set, which is handed back as a list in no particular
 * order.
 */
module LinkCollector {
  import opened Text

  const SiteOrigin: string := "https://www.medicalnewstoday.com"
  const ArticleMarker: string := "/articles/"

  predicate IsArticleHref(href: string) {
    Contains(href, ArticleMarker)
  }

  /** Absolute hrefs (those starting with "http") are kept; others are prefixed with the origin. */
  function Normalise(href: string): (u: string)
    ensures StartsWith(u, "http")
  {
    assert SiteOrigin[..4] == "http";
    if StartsWith(href, "http") then href else SiteOrigin + href
  }

  /** The set the loop builds from `hrefs`. */
  ghost function CollectedUrls(hrefs: seq<string>): set<string> {
    set i | 0 <= i < |hrefs| && IsArticleHref(hrefs[i]) :: Normalise(hrefs[i])
  }

  lemma CollectedUrlsSnoc(hrefs: seq<string>, i: nat)
    requires i < |hrefs|
    ensures CollectedUrls(hrefs[..i + 1]) ==
      CollectedUrls(hrefs[..i]) + (if IsArticleHref(hrefs[i]) then {Normalise(hrefs[i])} else {})
  {
    var a, b := hrefs[..i + 1], hrefs[..i];
    forall u ensures u in CollectedUrls(a) <==> u in CollectedUrls(b) + (if IsArticleHref(hrefs[i]) then {Normalise(hrefs[i])} else {}) {
      if u in CollectedUrls(a) {
        var j :| 0 <= j < |a| && IsArticleHref(a[j]) && Normalise(a[j]) == u;
        if j < i {
          assert b[j] == a[j];
        }
      }
      if u in CollectedUrls(b) {
        var j :| 0 <= j < |b| && IsArticleHref(b[j]) && Normalise(b[j]) == u;
        assert a[j] == b[j];
      }
      if IsArticleHref(hrefs[i]) && u == Normalise(hrefs[i]) {
        assert a[i] == hrefs[i];
      }
    }
  }

  /**
   * `get_article_links` on the hrefs of the seed page: every collected URL,
   * each once, in an order the model does not fix.
   */
  method GetArticleLinks(hrefs: seq<string>) returns (links: seq<string>)
    ensures forall u :: u in links <==> u in CollectedUrls(hrefs)
    ensures forall a, b :: 0 <= a < b < |links| ==> links[a] != links[b]
  {
    var articleUrls: set<string> := {};
    for i := 0 to |hrefs|
      invariant articleUrls == CollectedUrls(hrefs[..i])
    {
      CollectedUrlsSnoc(hrefs, i);
      var href := hrefs[i];
      if Contains(href, ArticleMarker) {
        if StartsWith(href, "http") {
          articleUrls := articleUrls + {href};
        } else {
          articleUrls := articleUrls + {SiteOrigin + href};
        }
      }
    }
    assert hrefs[..|hrefs|] == hrefs;
    // list(article_urls)
    links := [];
    var rest := articleUrls;
    while rest != {}
      invariant rest <= articleUrls
      invariant forall u :: u in links <==> u in articleUrls && u !in rest
      invariant forall a, b :: 0 <= a < b < |links| ==> links[a] != links[b]
      decreases |rest|
    {
      var u :| u in rest;
      links := links + [u];
      rest := rest - {u};
    }
  }

  // ---------------------------------------------------------------------
  // Properties of the collected URLs

  /** What a collected URL is made from: an article href, kept or prefixed. */
  lemma {:induction false} CollectedUrlOrigin(hrefs: seq<string>, u: string)
    requires u in CollectedUrls(hrefs)
    ensures exists i :: && 0 <= i < |hrefs| && IsArticleHref(hrefs[i])
                        && (StartsWith(hrefs[i], "http") ==> u == hrefs[i])
                        && (!StartsWith(hrefs[i], "http") ==> u == SiteOrigin + hrefs[i])
  {
    var i :| 0 <= i < |hrefs| && IsArticleHref(hrefs[i]) && Normalise(hrefs[i]) == u;
  }

  /** Every article href is collected: unchanged when it starts with "http", prefixed otherwise. */
  lemma {:induction false} ArticleHrefCollected(hrefs: seq<string>, i: nat)
    requires i < |hrefs| && IsArticleHref(hrefs[i])
    ensures StartsWith(hrefs[i], "http") ==> hrefs[i] in CollectedUrls(hrefs)
    ensures !StartsWith(hrefs[i], "http") ==> SiteOrigin + hrefs[i] in CollectedUrls(hrefs)
  {
    assert Normalise(hrefs[i]) in CollectedUrls(hrefs);
  }

  /** Prefixing the origin keeps the "/articles/" marker. */
  lemma {:induction false} NormaliseKeepsMarker(href: string)
    requires IsArticleHref(href)
    ensures IsArticleHref(Normalise(href))
  {
    if !StartsWith(href, "http") {
      var i: nat :| i <= |href| && FactorAt(href, ArticleMarker, i);
      var u := SiteOrigin + href;
      var j := |SiteOrigin| + i;
      assert u[j..j + |ArticleMarker|] == href[i..i + |ArticleMarker|];
      assert FactorAt(u, ArticleMarker, j);
    }
  }

  /** Every collected URL contains "/articles/" and is absolute. */
  lemma {:induction false} CollectedUrlsAreArticleUrls(hrefs: seq<string>, u: string)
    requires u in CollectedUrls(hrefs)
    ensures IsArticleHref(u) && StartsWith(u, "http")
  {
    var i :| 0 <= i < |hrefs| && IsArticleHref(hrefs[i]) && Normalise(hrefs[i]) == u;
    NormaliseKeepsMarker(hrefs[i]);
  }

  /** Normalising twice is normalising once: collected URLs are already in normal form. */
  lemma {:induction false} NormaliseIdempotent(href: string)
    ensures Normalise(Normalise(href)) == Normalise(href)
  {
  }

  /** Duplicates collapse: there are no more links than article hrefs. */
  lemma {:induction false} CollectedUrlsBound(hrefs: seq<string>)
    ensures |CollectedUrls(hrefs)| <= |hrefs|
    decreases |hrefs|
  {
    if |hrefs| > 0 {
      var m := |hrefs| - 1;
      CollectedUrlsSnoc(hrefs, m);
      assert hrefs[..m + 1] == hrefs;
      CollectedUrlsBound(hrefs[..m]);
    } else {
      assert CollectedUrls(hrefs) == {};
    }
  }
}
