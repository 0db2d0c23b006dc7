# Disease-mention scraper (AgenixAI `nlp_ner.py`), modelled in Dafny

`nlp_ner.py` collects article links from a health news site. For each of the
first ten articles it joins the article's paragraphs into one text. It then asks,
for every disease in a fixed knowledge base of 19 diseases, three questions:

- is the disease's name mentioned?
- is any of its symptoms mentioned?
- is any of its preventive measures mentioned?

A mention is a case-insensitive match of the phrase, taken literally and bounded
by `\b` on both sides. A row `[link, disease, Yes/No, Yes/No]` is recorded when
the name is found.

This project models that core and proves what it computes:

- `wrappers.dfy`: the `Option` and `Result` types.
- `text.dfy` (`Text`): the matching rule.
  - Word characters, ASCII case folding and the `\b` boundary test.
  - A declarative definition of a match (`MatchAt` / `Occurs`).
  - `Search`, the leftmost scan that `re.search` performs, proved equivalent to `Occurs`.
  - Lemmas about the rule: case does not matter; non-letters match literally; a phrase that ends
    in punctuation needs a word character after it; a delimited or space-separated word is found;
    nothing occurs in an empty text.
- `knowledge_base.dfy` (`KnowledgeBase`): the `diseases_info` table.
  - All 19 entries are reproduced verbatim, in insertion order.
  - The ordered sequence stands for the ordered dictionary.
  - Key lookup is modelled with `None` for a missing key.
- `matcher.dfy` (`DiseaseMatcher`): `check_disease_info`.
  - It is a pure function that returns `Failure(KeyError(name))` for a name that is not a key.
  - Otherwise it returns the three flags, each stated as an if-and-only-if against `Occurs`.
- `matcher_examples.dfy` (`MatcherExamples`): worked instances of the rule.
  - "fatigue" is not found in "fatigued".
  - The prevention phrase "pre-exposure prophylaxis (PrEP)" is not found even in a text
    consisting of exactly that phrase. The closing parenthesis is followed by the end of the text,
    which is not a `\b` position. It is found when a word character follows.
  - A short complete article gives its full `check_disease_info` result.
- `driver.dfy` (`Driver`): the main loop.
  - `Join` is `" ".join`.
  - The rows are specified by the recursive functions `ArticleRows` and `Rows`.
  - Two methods with `while` loops are proved equal to those functions: `ScrapeArticle`, the loop
    over the table, and `ScrapeArticles`, the loop over at most ten links.
  - Lemmas state:
    - which rows appear;
    - that one article's rows follow table order;
    - that the row list of a concatenation of article lists is the concatenation of their row lists;
    - that a disease named in any paragraph yields a row.
- `links.dfy` (`LinkCollector`): the href filter and normaliser of `get_article_links`.
  - The method builds a set of URLs in a `for` loop and then lists it.
  - It is proved to list exactly the normalised article hrefs, without duplicates.

The code's `\b` rule is modelled as written. A phrase that begins or ends with a
non-word character can only match next to a word character. The model and its
lemmas keep that behaviour rather than the "not adjacent to a word character"
reading of a whole-word match.

## Model

| member | source | states |
|---|---|---|
| Text.IsWordChar | nlp_ner.py:133 | definition: the `\w` class, taken as ASCII letters, digits and underscore |
| Text.IsBoundary | nlp_ner.py:133 | definition: `\b` at position j holds when exactly one of the characters before and after j is a word character, a position outside the text counting as non-word |
| Text.MatchAt | nlp_ner.py:133 | definition: the pattern `\b` + escaped phrase + `\b` matches at position i when the text from i equals the phrase up to case and both ends of that stretch are `\b` positions |
| Text.FoldEqual | nlp_ner.py:133 | definition: the IGNORECASE comparison of the escaped literal, two strings of equal length whose characters agree after case folding |
| Text.Occurs | nlp_ner.py:133 | definition: the phrase occurs when the pattern matches at some position of the text |
| Text.StartsWith | nlp_ner.py:106 | definition: `s.startswith(prefix)`, s begins with prefix |
| Text.Contains | nlp_ner.py:105 | definition: `sub in s`, sub stands exactly at some position of s |
| Text.Lower | nlp_ner.py:133 | case folding sends each capital letter to its own lower-case letter ('A' to 'a', and so on), leaves every other character alone and preserves being a word character |
| Text.SearchFrom | nlp_ner.py:133 | the scan from a position returns the first match position at or after it, and None only when no later position matches |
| Text.Search | nlp_ner.py:133 | `re.search` with `\b`-bounded escaped phrase and IGNORECASE finds something iff the phrase occurs, and returns the leftmost match |
| Text.OccursFolded | nlp_ner.py:133 | searching the lower-cased phrase in the lower-cased text, or the phrase in the text with every lower-case letter made upper-case, finds exactly what the original search finds |
| Text.BoundaryIgnoresCase | nlp_ner.py:133 | a `\b` position stays one when the text's case changes |
| Text.MatchAtIgnoresCase | nlp_ner.py:133 | a match at a position is unaffected by changing the case of the text or of the phrase |
| Text.OccursIgnoresCase | nlp_ner.py:133 | whether a phrase occurs is unaffected by the case of text and phrase (IGNORECASE) |
| Text.MatchedNonLettersAreLiteral | nlp_ner.py:133 | `re.escape` makes every non-letter of a phrase match only itself |
| Text.MatchedLettersAgreeUpToCase | nlp_ner.py:133 | a letter of a phrase matches only the same letter in either case |
| Text.NoMatchAfterWordChar | nlp_ner.py:133 | a phrase starting with a word character does not match right after a word character (no match inside a word) |
| Text.NoMatchBeforeWordChar | nlp_ner.py:133 | a phrase ending in a word character does not match right before a word character |
| Text.TrailingPunctuationNeedsWordAfter | nlp_ner.py:133 | a match of a phrase ending in a non-word character, such as the ")" of the HIV measure at line 55, must be followed by a word character |
| Text.LeadingPunctuationNeedsWordBefore | nlp_ner.py:133 | a match of a phrase starting with a non-word character must be preceded by a word character |
| Text.OccursWhenDelimited | nlp_ner.py:133 | a phrase that begins and ends with word characters occurs when placed between non-word characters or text ends |
| Text.NothingOccursInEmptyText | nlp_ner.py:133 | no phrase occurs in the empty text |
| Text.MissingCharBlocks | nlp_ner.py:133 | a phrase cannot occur in a text lacking (in either case) one of its characters |
| Text.OccursBeforeSpace | nlp_ner.py:153 | a phrase occurring in a text still occurs when a space and more text are appended, as the join does |
| Text.OccursAfterSpace | nlp_ner.py:153 | a phrase occurring in a text still occurs when text and a space are prepended, as the join does |
| KnowledgeBase.TableShape | nlp_ner.py:16-93 | the knowledge base `Diseases`, which lists the 19 entries of `diseases_info` verbatim and in insertion order, has 19 entries with pairwise distinct names |
| KnowledgeBase.PhrasesNonEmpty | nlp_ner.py:16-93 | every name, symptom and preventive measure in the table is non-empty |
| KnowledgeBase.IndexFrom | nlp_ner.py:129-130 | the scan from a position returns the first entry at or after it with the name, and None only when no later entry has it |
| KnowledgeBase.IndexIn | nlp_ner.py:129-130 | key lookup finds the first entry with the name, and None iff no entry has it |
| KnowledgeBase.IndexInEntry | nlp_ner.py:129-130 | with distinct names, looking up entry j's name finds entry j |
| KnowledgeBase.Lookup | nlp_ner.py:129-130 | `diseases_info[name]` yields the entry with that name, and None (KeyError) iff the name is not a key |
| DiseaseMatcher.AnyMatch | nlp_ner.py:137-140 | `any(re.search(...) for phrase in phrases)` is true iff some phrase of the list occurs |
| DiseaseMatcher.Check | nlp_ner.py:133-142 | the three flags are true iff the name, some symptom, some preventive measure occur respectively |
| DiseaseMatcher.CheckDiseaseInfo | nlp_ner.py:128-142 | KeyError(name) iff the name is not a key; otherwise the three flags of that entry, each an iff against occurrence |
| DiseaseMatcher.CheckDiseaseInfoOfEntry | nlp_ner.py:128-142 | for every table entry the result is Success with that entry's check |
| DiseaseMatcher.CheckIgnoresCase | nlp_ner.py:133-140 | the flags of an entry do not depend on the case of the article text |
| DiseaseMatcher.CheckDiseaseInfoIgnoresCase | nlp_ner.py:128-142 | the whole result, error included, does not depend on the case of the article text |
| DiseaseMatcher.KeyLookupIsCaseSensitive | nlp_ner.py:129 | the key lookup is case-sensitive: "asthma" raises KeyError while "Asthma" succeeds |
| DiseaseMatcher.EmptyTextFindsNothing | nlp_ner.py:128-142 | for every disease of the table an empty article yields three false flags |
| MatcherExamples.FatigueNotInFatigued | nlp_ner.py:34 | the Diabetes symptom "fatigue" does not occur in "fatigued" |
| MatcherExamples.AlzheimersNotInLongerWord | nlp_ner.py:133 | "Alzheimer's" does not occur in "Alzheimer'sXYZ", where word characters follow it |
| MatcherExamples.PrEPDoesNotMatchItself | nlp_ner.py:55 | the HIV measure "pre-exposure prophylaxis (PrEP)" is in the table and does not occur in a text equal to itself |
| MatcherExamples.PrEPMatchesBeforeWordChar | nlp_ner.py:55 | the HIV measure "pre-exposure prophylaxis (PrEP)" does occur when a word character follows its closing parenthesis |
| MatcherExamples.PrEPArticleFindsNothing | nlp_ner.py:128-142 | an article consisting of the HIV measure "pre-exposure prophylaxis (PrEP)" yields no disease, symptom or prevention mention for "HIV & AIDS" |
| MatcherExamples.AsthmaNoteNamesAllergens | nlp_ner.py:27 | "avoiding allergens" occurs in "Asthma: avoiding allergens." |
| MatcherExamples.AsthmaNoteNoSymptom | nlp_ner.py:26 | no Asthma symptom occurs in "Asthma: avoiding allergens." |
| MatcherExamples.AsthmaNoteFindings | nlp_ner.py:128-142 | for the text "Asthma: avoiding allergens." and "Asthma" the result is (found, no symptoms, prevention found) |
| Driver.Join | nlp_ner.py:153 | `" ".join` is empty for no paragraphs, is the paragraph itself for one, and has the total length plus one separator between paragraphs |
| Driver.JoinSnoc | nlp_ner.py:153 | adding a paragraph at the end adds one space and that paragraph, so the joined text is the paragraphs in order separated by single spaces |
| Driver.OccursInJoin | nlp_ner.py:153 | a phrase occurring in any one paragraph occurs in the space-joined article text |
| Driver.ArticleText | nlp_ner.py:153 | definition: `article_text = " ".join(paragraphs)`, the join of the article's paragraphs |
| Driver.RowFor | nlp_ner.py:159 | definition: the row [link, disease name, Yes/No of the symptom flag, Yes/No of the prevention flag] |
| Driver.ArticleRows | nlp_ner.py:156-159 | definition: the rows of one article from the first n table entries, in table order, one `[link, name, Yes/No, Yes/No]` row for each entry whose name is found |
| Driver.Rows | nlp_ner.py:151-159 | definition: the rows of a sequence of articles, the rows of each article after those of the articles before it |
| Driver.YesNo | nlp_ner.py:159 | the cell is "Yes" iff the flag is true and "No" iff it is false |
| Driver.Processed | nlp_ner.py:151 | `[:10]` keeps min(n, 10) links |
| Driver.ArticleRowsMembership | nlp_ner.py:156-159 | a row is produced for an article iff it is built from a table entry whose name occurs, with the Yes/No cells of its flags |
| Driver.ArticleRowsInTableOrder | nlp_ner.py:156-159 | one article's rows all carry its link and follow the table's order, one per disease at most |
| Driver.RowsAppend | nlp_ner.py:151-159 | the rows of two article lists in sequence are the rows of the first followed by the rows of the second |
| Driver.RowsMembership | nlp_ner.py:151-159 | a row is in the output iff it comes from some article and some table entry |
| Driver.RowsSnoc | nlp_ner.py:151-159 | one more article adds its own rows, in table order, after the rows of the articles before it, as each outer iteration appends |
| Driver.PrefixRowsMembership | nlp_ner.py:151-159 | for the first n articles, a row is in the output iff it comes from one of them |
| Driver.PrefixRowsMembershipAll | nlp_ner.py:151-159 | for the first n articles, every row is in the output exactly when it comes from one of them |
| Driver.ParagraphMentionYieldsRow | nlp_ner.py:151-159 | a disease name occurring in one paragraph of an article yields that article's row for the disease |
| Driver.ScrapeArticle | nlp_ner.py:156-159 | the loop over the table produces exactly the rows of the row specification for that article |
| Driver.ScrapeArticles | nlp_ner.py:151-159 | the main loop's data equals the rows of the first min(n, 10) articles, and a row is in it iff it comes from one of them |
| LinkCollector.IsArticleHref | nlp_ner.py:105 | definition: the href contains "/articles/" |
| LinkCollector.CollectedUrls | nlp_ner.py:104-109 | definition: the set of the normalised forms of the hrefs that contain "/articles/" |
| LinkCollector.Normalise | nlp_ner.py:106-109 | a kept href becomes a URL starting with "http" |
| LinkCollector.CollectedUrlsSnoc | nlp_ner.py:104-109 | one more href adds its normalised URL to the collected set exactly when it contains "/articles/" |
| LinkCollector.GetArticleLinks | nlp_ner.py:96-110 | the returned list holds exactly the normalised article hrefs, each once |
| LinkCollector.CollectedUrlOrigin | nlp_ner.py:105-109 | every collected URL is the normalisation of some href containing "/articles/" |
| LinkCollector.ArticleHrefCollected | nlp_ner.py:105-109 | an href containing "/articles/" is collected as is when it starts with "http", with the site origin prefixed otherwise |
| LinkCollector.NormaliseKeepsMarker | nlp_ner.py:105-109 | normalising an article href keeps "/articles/" in it |
| LinkCollector.CollectedUrlsAreArticleUrls | nlp_ner.py:105-109 | every collected URL contains "/articles/" and starts with "http" |
| LinkCollector.NormaliseIdempotent | nlp_ner.py:106-109 | normalising twice is normalising once |
| LinkCollector.CollectedUrlsBound | nlp_ner.py:104-110 | there are no more collected URLs than hrefs |

## Left out

- Fetching pages (`requests.get`) and HTML parsing (BeautifulSoup `find_all`, `get_text().strip()`, the filter that drops empty paragraphs) are not modelled. The hrefs of the listing page and each article's paragraphs are inputs.
- `process_text` and the spaCy model are not modelled. The code never calls `process_text`.
- Building the pandas DataFrame, writing the CSV file and the progress `print` are not modelled. The model stops at the list of rows.
- `article_urls` is a module-level set in the code. Here it is a local set that starts empty, since `get_article_links` is called once.
- The order of `list(article_urls)` depends on string hashing. `GetArticleLinks` lists the set in an unspecified order, so which ten links are scraped is not determined by the model.
- Text.Lower: folds only ASCII letters, and `Text.IsWordChar` accepts only ASCII `[A-Za-z0-9_]`. Python's `re` on `str` uses Unicode word characters and Unicode case folding. On text containing non-ASCII characters the model can disagree with Python: it finds "caf" in "café", where Python counts "é" as a word character, and it does not let "s" match "ſ" (U+017F) or "k" match the Kelvin sign (U+212A). Its results are Python's only for ASCII text and phrases.
- Network errors and timeouts are not modelled.
- The freedom of `check_disease_info` from side effects is not stated as a lemma. It holds because the Dafny model is a function.
- The worked examples use short article texts. Longer literal texts make each proof much costlier without showing anything new about the rule.
