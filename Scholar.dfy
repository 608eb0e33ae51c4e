/** `GoogleScholarService`: the string logic around a scraped search result
    (title clean-up, the author and year parse, the choice of a PDF link),
    the fuzzy title comparison, and the search for a paper's PDF. The HTTP
    request and the HTML parse are not part of this model: the text and
    links the parser finds in one result are inputs here, and so are the
    results of the search that `find_pdf_for_paper` runs. */
module Scholar {
  import opened Strings
  import GraphBuild

  // ---------------------------------------------------------------------
  // Splitting
  // ---------------------------------------------------------------------

  /** Length of the leading run of non-whitespace characters. */
  function WordLength(t: string): (n: nat)
    ensures n <= |t|
    ensures forall i :: 0 <= i < n ==> !IsSpace(t[i])
    ensures n == |t| || IsSpace(t[n])
  {
    if t == [] || IsSpace(t[0]) then 0
    else
      var n := 1 + WordLength(t[1..]);
      assert forall i :: 1 <= i < n ==> t[i] == t[1..][i - 1];
      n
  }

  /** `s.split()`: the maximal runs of non-whitespace characters. */
  function Words(s: string): (ws: seq<string>)
    ensures forall i :: 0 <= i < |ws| ==> ws[i] != [] && forall k :: 0 <= k < |ws[i]| ==> !IsSpace(ws[i][k])
    decreases |s|
  {
    var t := s[LeadingSpaces(s)..];
    if t == [] then []
    else
      var n := WordLength(t);
      [t[..n]] + Words(t[n..])
  }

  /** The whitespace runs of `s` around its words: the leading run, then
      the run after each word (the last one is the trailing whitespace). */
  function Gaps(s: string): (gs: seq<string>)
    ensures |gs| == |Words(s)| + 1
    decreases |s|
  {
    var m := LeadingSpaces(s);
    var t := s[m..];
    if t == [] then [s[..m]]
    else [s[..m]] + Gaps(t[WordLength(t)..])
  }

  /** `gs[0] + ws[0] + gs[1] + ... + ws[n-1] + gs[n]` */
  function Weave(gs: seq<string>, ws: seq<string>): string
    requires |gs| == |ws| + 1
  {
    if ws == [] then gs[0] else gs[0] + ws[0] + Weave(gs[1..], ws[1..])
  }

  /** `s.split()` is the maximal runs: `s` is its words woven with
      whitespace runs, of which every inner one is non-empty, so no two
      words are adjacent, and the words themselves hold no whitespace. */
  lemma WordsWeave(s: string)
    ensures Weave(Gaps(s), Words(s)) == s
    ensures forall i, k :: 0 <= i < |Gaps(s)| && 0 <= k < |Gaps(s)[i]| ==> IsSpace(Gaps(s)[i][k])
    ensures forall i :: 0 < i < |Words(s)| ==> Gaps(s)[i] != []
  {
    WeaveGaps(s);
    GapsAreSpaces(s);
    InnerGapsNonEmpty(s);
  }

  lemma {:induction false} WeaveGaps(s: string)
    ensures Weave(Gaps(s), Words(s)) == s
    decreases |s|
  {
    var m := LeadingSpaces(s);
    var t := s[m..];
    if t == [] {
      assert Words(s) == [] && Gaps(s) == [s[..m]];
      assert s[..m] == s;
    } else {
      var n := WordLength(t);
      var u := t[n..];
      assert s[..m] + t[..n] + u == s by {
        assert t[..n] + u == t;
        assert s[..m] + t == s;
      }
      var w := Weave(Gaps(u), Words(u));
      assert w == u by {
        WeaveGaps(u);
      }
      WeaveStep(s);
    }
  }

  /** One step of the weave: the leading run, the first word, then the
      weave of what follows that word. */
  lemma WeaveStep(s: string)
    requires s[LeadingSpaces(s)..] != []
    ensures var m := LeadingSpaces(s);
            var t := s[m..];
            var u := t[WordLength(t)..];
            Weave(Gaps(s), Words(s)) == s[..m] + t[..WordLength(t)] + Weave(Gaps(u), Words(u))
  {
    var m := LeadingSpaces(s);
    var t := s[m..];
    var n := WordLength(t);
    var u := t[n..];
    var gs, ws := Gaps(s), Words(s);
    assert gs == [s[..m]] + Gaps(u);
    assert ws == [t[..n]] + Words(u);
    assert gs[0] == s[..m] && gs[1..] == Gaps(u);
    assert ws[0] == t[..n] && ws[1..] == Words(u);
  }

  lemma {:induction false} GapsAreSpaces(s: string)
    ensures forall i, k :: 0 <= i < |Gaps(s)| && 0 <= k < |Gaps(s)[i]| ==> IsSpace(Gaps(s)[i][k])
    decreases |s|
  {
    var m := LeadingSpaces(s);
    LeadingSpacesAreSpaces(s);
    var t := s[m..];
    if t != [] {
      var u := t[WordLength(t)..];
      GapsAreSpaces(u);
      var gs := Gaps(s);
      forall i, k | 0 < i < |gs| && 0 <= k < |gs[i]| ensures IsSpace(gs[i][k]) {
        assert gs[i] == Gaps(u)[i - 1];
      }
    }
  }

  lemma {:induction false} InnerGapsNonEmpty(s: string)
    ensures forall i :: 0 < i < |Words(s)| ==> Gaps(s)[i] != []
    decreases |s|
  {
    var t := s[LeadingSpaces(s)..];
    if t != [] {
      var u := t[WordLength(t)..];
      InnerGapsNonEmpty(u);
      if |Words(s)| > 1 {
        SecondGapNonEmpty(s);
      }
      forall i | 1 < i < |Words(s)| ensures Gaps(s)[i] != [] {
        assert Gaps(s)[i] == Gaps(u)[i - 1];
      }
    }
  }

  /** A whitespace run that separates two words is not empty. */
  lemma SecondGapNonEmpty(s: string)
    requires |Words(s)| > 1
    ensures Gaps(s)[1] != []
  {
    var t := s[LeadingSpaces(s)..];
    var n := WordLength(t);
    var u := t[n..];
    assert Words(s) == [t[..n]] + Words(u);
    assert Words([]) == [];
    assert u != [];
    assert u[0] == t[n];
    assert LeadingSpaces(u) == 1 + LeadingSpaces(u[1..]);
    assert Gaps(s)[1] == Gaps(u)[0] == u[..LeadingSpaces(u)];
  }

  /** `sep` occurs in `s` at position `k`. */
  predicate At(s: string, sep: string, k: nat) {
    k + |sep| <= |s| && s[k..k + |sep|] == sep
  }

  /** Position of the first occurrence of `sep` at or after `from`, or `|s|`. */
  function FindFrom(s: string, sep: string, from: nat): (i: nat)
    requires from <= |s|
    ensures from <= i <= |s|
    ensures forall k :: from <= k < i ==> !At(s, sep, k)
    ensures i < |s| ==> At(s, sep, i)
    decreases |s| - from
  {
    if from == |s| then |s|
    else if At(s, sep, from) then from
    else FindFrom(s, sep, from + 1)
  }

  /** `s.split(sep)[0]`: the text before the first `sep`, or all of `s`. */
  function BeforeFirst(s: string, sep: string): (r: string)
    ensures r <= s
    ensures forall k :: 0 <= k < |r| ==> !At(s, sep, k)
    ensures |r| < |s| ==> At(s, sep, |r|)
  {
    s[..FindFrom(s, sep, 0)]
  }

  // ---------------------------------------------------------------------
  // One search result
  // ---------------------------------------------------------------------

  /** The three badges `re.sub` removes from a title. */
  const Tags: seq<string> := ["[PDF]", "[HTML]", "[BOOK]"]

  /** The badge that starts `s`, if any. */
  function TagAt(s: string): (r: Option<string>)
    ensures r.Some? ==> r.value in Tags && StartsWith(s, r.value)
    ensures r.None? ==> forall t :: t in Tags ==> !StartsWith(s, t)
  {
    if StartsWith(s, "[PDF]") then Some("[PDF]")
    else if StartsWith(s, "[HTML]") then Some("[HTML]")
    else if StartsWith(s, "[BOOK]") then Some("[BOOK]")
    else None
  }

  /** `re.sub(r'\[PDF\]|\[HTML\]|\[BOOK\]', '', s)`: badges are removed left
      to right, without looking again at the text the removal joins. */
  function RemoveTags(s: string): (r: string)
    ensures |r| <= |s|
    decreases |s|
  {
    if s == [] then []
    else
      var tag := TagAt(s);
      if tag.Some? then RemoveTags(s[|tag.value|..]) else [s[0]] + RemoveTags(s[1..])
  }

  /** Text without a `[` is left as it is, and a leading badge is dropped. */
  lemma {:induction false} RemoveTagsFacts(s: string)
    ensures '[' !in s ==> RemoveTags(s) == s
    ensures forall t :: t in Tags ==> RemoveTags(t + s) == RemoveTags(s)
    decreases |s|
  {
    if s != [] && '[' !in s {
      assert s[0] != '[';
      assert TagAt(s).None?;
      assert '[' !in s[1..] by {
        forall k | 0 <= k < |s[1..]| ensures s[1..][k] != '[' { assert s[1..][k] == s[k + 1]; }
      }
      RemoveTagsFacts(s[1..]);
      assert s == [s[0]] + s[1..];
    }
    forall t | t in Tags ensures RemoveTags(t + s) == RemoveTags(s) {
      var ts := t + s;
      assert ts[..|t|] == t && ts[|t|..] == s;
      assert ts[0] == '[' && ts[1] == t[1];
      assert TagAt(ts) == Some(t);
    }
  }

  /** The title as the result shows it: the link text (or the heading text
      without a link) and the link, if any. */
  datatype Heading = Heading(text: string, url: Option<string>)

  /** What the HTML parser finds in one result block. */
  datatype ResultBlock = ResultBlock(
    heading: Option<Heading>,
    authorsText: string,
    abstractText: string,
    badgeLink: Option<string>,
    sidebarLink: Option<string>)

  datatype ScholarPaper = ScholarPaper(
    title: string,
    authors: seq<string>,
    year: Option<int>,
    abstractText: string,
    url: Option<string>,
    pdfUrl: Option<string>)

  /** A Python value that is neither `None` nor empty. */
  predicate Truthy(o: Option<string>) {
    o.Some? && o.value != ""
  }

  /** The title with its badges removed, stripped. */
  function CleanTitle(title: string): string {
    Strip(RemoveTags(title))
  }

  /** A clean title neither starts nor ends with whitespace, is no longer
      than the raw title, and a title without badges is only stripped. */
  lemma CleanTitleFacts(title: string)
    ensures var c := CleanTitle(title);
      (c == [] || (!IsSpace(c[0]) && !IsSpace(c[|c| - 1]))) && |c| <= |title|
    ensures '[' !in title ==> CleanTitle(title) == Strip(title)
    ensures forall t :: t in Tags ==> CleanTitle(t + title) == CleanTitle(title)
  {
    StripFacts(RemoveTags(title));
    RemoveTagsFacts(title);
  }

  /** At most five authors: the text before the first " - ", split at
      commas, each stripped; none without author text. */
  function Authors(authorsText: string): (r: seq<string>)
    ensures |r| <= 5
  {
    if authorsText == "" then []
    else
      var pieces := Take(SplitChar(Strip(BeforeFirst(authorsText, " - ")), ','), 5);
      seq(|pieces|, i requires 0 <= i < |pieces| => Strip(pieces[i]))
  }

  /** The author list is the first five comma-separated pieces of the
      author part, stripped; with at most five pieces the pieces joined
      back give the author part. */
  lemma AuthorsFacts(authorsText: string)
    ensures authorsText == "" ==> Authors(authorsText) == []
    ensures authorsText != "" ==>
      var part := Strip(BeforeFirst(authorsText, " - "));
      var pieces := SplitChar(part, ',');
      && |Authors(authorsText)| == (if |pieces| < 5 then |pieces| else 5)
      && (forall i :: 0 <= i < |Authors(authorsText)| ==> Authors(authorsText)[i] == Strip(pieces[i]))
      && (|pieces| <= 5 ==> Join(",", pieces) == part)
  {
    if authorsText != "" {
      SplitCharJoin(Strip(BeforeFirst(authorsText, " - ")), ',');
    }
  }

  /** `\b(19|20)\d{2}\b` matches at position `i`. */
  predicate YearAt(s: string, i: nat) {
    && i + 4 <= |s|
    && (i == 0 || !IsWord(s[i - 1]))
    && ((s[i] == '1' && s[i + 1] == '9') || (s[i] == '2' && s[i + 1] == '0'))
    && IsDigit(s[i + 2]) && IsDigit(s[i + 3])
    && (i + 4 == |s| || !IsWord(s[i + 4]))
  }

  function Digit(c: char): int { (c as int) - ('0' as int) }

  function YearValue(s: string, i: nat): int
    requires i + 4 <= |s|
  {
    1000 * Digit(s[i]) + 100 * Digit(s[i + 1]) + 10 * Digit(s[i + 2]) + Digit(s[i + 3])
  }

  /** The first match at or after `from`. */
  function FirstYearFrom(s: string, from: nat): (r: Option<nat>)
    ensures r.Some? ==> from <= r.value && YearAt(s, r.value) && forall k :: from <= k < r.value ==> !YearAt(s, k)
    ensures r.None? ==> forall k :: from <= k ==> !YearAt(s, k)
    decreases |s| - from
  {
    if from + 4 > |s| then None
    else if YearAt(s, from) then Some(from)
    else FirstYearFrom(s, from + 1)
  }

  /** `int(re.search(...).group(0))`, searched in the whole author text;
      nothing without author text. */
  function Year(authorsText: string): (r: Option<int>)
  {
    if authorsText == "" then None
    else
      var i := FirstYearFrom(authorsText, 0);
      if i.Some? then Some(YearValue(authorsText, i.value)) else None
  }

  /** The year is that of the first year-shaped token, between 1900 and 2099;
      there is none exactly when no token is year-shaped. */
  lemma YearFacts(s: string)
    ensures Year(s).Some? ==>
      exists i: nat :: YearAt(s, i) && Year(s).value == YearValue(s, i) && (forall k :: 0 <= k < i ==> !YearAt(s, k))
    ensures Year(s).Some? ==> 1900 <= Year(s).value <= 2099
    ensures Year(s).None? <==> forall k :: !YearAt(s, k)
  {
    var i := FirstYearFrom(s, 0);
    if s == "" {
      forall k ensures !YearAt(s, k) { }
    }
  }

  /** The PDF link: the `[PDF]` badge's link, else the sidebar link, else
      the title link when it ends in ".pdf" in any case. When none of these
      is non-empty, the value left is the sidebar's when there is a sidebar
      link and the badge's otherwise. */
  function PdfLink(badge: Option<string>, sidebar: Option<string>, url: Option<string>): (r: Option<string>)
  {
    if Truthy(badge) then badge
    else if Truthy(sidebar) then sidebar
    else if Truthy(url) && EndsWith(Lower(url.value), ".pdf") then url
    else if sidebar.Some? then sidebar
    else badge
  }

  /** The first non-empty link wins, and the title link is used only when no
      badge or sidebar link is non-empty and it names a PDF file. */
  lemma PdfLinkFacts(badge: Option<string>, sidebar: Option<string>, url: Option<string>)
    ensures Truthy(badge) ==> PdfLink(badge, sidebar, url) == badge
    ensures !Truthy(badge) && Truthy(sidebar) ==> PdfLink(badge, sidebar, url) == sidebar
    ensures !Truthy(badge) && !Truthy(sidebar) ==>
      (Truthy(PdfLink(badge, sidebar, url)) <==> Truthy(url) && EndsWith(Lower(url.value), ".pdf"))
    ensures Truthy(PdfLink(badge, sidebar, url)) ==>
      PdfLink(badge, sidebar, url) in {badge, sidebar, url}
  {
  }

  /** `_extract_paper_info`: nothing without a title heading. */
  function ExtractPaperInfo(block: ResultBlock): (r: Option<ScholarPaper>)
    ensures r.None? <==> block.heading.None?
    ensures r.Some? ==>
      && r.value.title == CleanTitle(block.heading.value.text)
      && r.value.url == block.heading.value.url
      && |r.value.authors| <= 5
      && (r.value.year.Some? ==> 1900 <= r.value.year.value <= 2099)
  {
    if block.heading.None? then None
    else
      var h := block.heading.value;
      YearFacts(block.authorsText);
      Some(ScholarPaper(CleanTitle(h.text), Authors(block.authorsText), Year(block.authorsText),
                        block.abstractText, h.url, PdfLink(block.badgeLink, block.sidebarLink, h.url)))
  }

  /** The papers of the result blocks that have a title heading, in order. */
  function Parsed(blocks: seq<ResultBlock>): (r: seq<ScholarPaper>)
    ensures |r| <= |blocks|
    ensures forall p :: p in r ==> exists b :: b in blocks && ExtractPaperInfo(b) == Some(p)
    ensures (forall b :: b in blocks ==> b.heading.Some?) ==> |r| == |blocks|
  {
    if blocks == [] then []
    else
      var rest := Parsed(blocks[1..]);
      assert forall b :: b in blocks[1..] ==> b in blocks;
      match ExtractPaperInfo(blocks[0])
      case Some(p) => [p] + rest
      case None => rest
  }

  /** `_parse_search_results`: the first `maxResults` blocks, parsed. */
  function SearchResults(blocks: seq<ResultBlock>, maxResults: int): (r: seq<ScholarPaper>)
    ensures maxResults >= 0 ==> |r| <= maxResults
    ensures |r| <= |blocks|
  {
    Parsed(GraphBuild.Slice(blocks, maxResults))
  }

  /** The parse is an in-order filter: blocks parse one at a time, a block
      with a heading giving its paper and one without giving nothing. */
  lemma {:induction false} ParsedAppend(a: seq<ResultBlock>, b: seq<ResultBlock>)
    ensures Parsed(a + b) == Parsed(a) + Parsed(b)
    ensures |a| == 1 ==>
      Parsed(a) == (if ExtractPaperInfo(a[0]).Some? then [ExtractPaperInfo(a[0]).value] else [])
  {
    if a == [] {
      assert a + b == b;
    } else {
      assert (a + b)[1..] == a[1..] + b;
      ParsedAppend(a[1..], b);
      if |a| == 1 {
        assert Parsed(a[1..]) == [];
      }
    }
  }

  /** Parsing a prefix and the rest gives the whole parse. */
  lemma ParsedSplit(blocks: seq<ResultBlock>, k: nat)
    requires k <= |blocks|
    ensures Parsed(blocks[..k]) + Parsed(blocks[k..]) == Parsed(blocks)
  {
    assert blocks[..k] + blocks[k..] == blocks;
    ParsedAppend(blocks[..k], blocks[k..]);
  }

  /** The results are the papers of the first `maxResults` blocks (of all
      but the last `-maxResults` when negative, as a Python slice); the
      blocks after them give the rest of the full parse. */
  lemma SearchResultsPrefix(blocks: seq<ResultBlock>, maxResults: int)
    ensures var k := if maxResults < 0 then (if |blocks| + maxResults <= 0 then 0 else |blocks| + maxResults)
                     else if maxResults < |blocks| then maxResults else |blocks|;
      && SearchResults(blocks, maxResults) == Parsed(blocks[..k])
      && SearchResults(blocks, maxResults) + Parsed(blocks[k..]) == Parsed(blocks)
  {
    var sliced := GraphBuild.Slice(blocks, maxResults);
    ParsedSplit(blocks, |sliced|);
  }

  // ---------------------------------------------------------------------
  // Title matching
  // ---------------------------------------------------------------------

  /** `re.sub(r'[^\w\s]', '', s)` */
  function KeepWordsAndSpaces(s: string): (r: string)
    ensures forall i :: 0 <= i < |r| ==> IsWord(r[i]) || IsSpace(r[i])
  {
    if s == [] then []
    else
      var rest := KeepWordsAndSpaces(s[1..]);
      if IsWord(s[0]) || IsSpace(s[0]) then [s[0]] + rest else rest
  }

  /** The set of words of a title after lower-casing and punctuation removal. */
  function WordSet(title: string): set<string> {
    var ws := Words(Strip(KeepWordsAndSpaces(Lower(title))));
    set w | w in ws
  }

  /** `_titles_match` */
  predicate TitlesMatch(title1: string, title2: string) {
    var w1, w2 := WordSet(title1), WordSet(title2);
    if w1 == {} || w2 == {} then false
    else
      var overlap := |w1 * w2|;
      var minWords := if |w1| < |w2| then |w1| else |w2|;
      overlap as real / minWords as real >= 0.7
  }

  /** Two titles match exactly when both have words and the shared words
      number at least seven tenths of the smaller word set. */
  lemma TitlesMatchIff(title1: string, title2: string)
    ensures var w1, w2 := WordSet(title1), WordSet(title2);
      TitlesMatch(title1, title2) <==>
        w1 != {} && w2 != {} && 10 * |w1 * w2| >= 7 * (if |w1| < |w2| then |w1| else |w2|)
  {
    var w1, w2 := WordSet(title1), WordSet(title2);
    if w1 != {} && w2 != {} {
      RatioBound(|w1 * w2|, if |w1| < |w2| then |w1| else |w2|);
    }
  }

  /** The threshold on the ratio, stated on whole numbers. */
  lemma RatioBound(overlap: nat, minWords: nat)
    requires minWords > 0
    ensures overlap as real / minWords as real >= 0.7 <==> 10 * overlap >= 7 * minWords
  {
    var o, m := overlap as real, minWords as real;
    var r := o / m;
    assert r * m == o;
    if r >= 0.7 {
      assert r * m >= 0.7 * m;
    } else {
      assert r * m < 0.7 * m;
    }
    assert o >= 0.7 * m <==> 10.0 * o >= 7.0 * m;
    assert 10.0 * o == (10 * overlap) as real && 7.0 * m == (7 * minWords) as real;
  }

  /** The comparison does not depend on the order of the titles. */
  lemma TitlesMatchSymmetric(title1: string, title2: string)
    ensures TitlesMatch(title1, title2) <==> TitlesMatch(title2, title1)
  {
    assert WordSet(title1) * WordSet(title2) == WordSet(title2) * WordSet(title1);
  }

  /** A title with at least one word matches itself; one without matches
      nothing. */
  lemma TitlesMatchReflexive(title: string, other: string)
    ensures WordSet(title) != {} ==> TitlesMatch(title, title)
    ensures WordSet(title) == {} ==> !TitlesMatch(title, other) && !TitlesMatch(other, title)
  {
    var w := WordSet(title);
    assert w * w == w;
  }

  // ---------------------------------------------------------------------
  // Finding a PDF
  // ---------------------------------------------------------------------

  /** The search query: the quoted title, then the first author if any. */
  function PdfQuery(title: string, authors: Option<seq<string>>): (q: string)
    ensures authors.None? || authors.value == [] ==> q == "\"" + title + "\""
    ensures authors.Some? && authors.value != [] ==> q == "\"" + title + "\" " + authors.value[0]
  {
    var q := "\"" + title + "\"";
    if authors.Some? && |authors.value| > 0 then q + " " + authors.value[0] else q
  }

  /** A result that matches the title and has a PDF link. */
  predicate Usable(title: string, p: ScholarPaper) {
    TitlesMatch(Lower(title), Lower(p.title)) && Truthy(p.pdfUrl)
  }

  /** No result before position `k` is usable. */
  predicate NoneUsable(title: string, results: seq<ScholarPaper>, k: nat)
    requires k <= |results|
  {
    forall j :: 0 <= j < k ==> !Usable(title, results[j])
  }

  /** Result `i` is the first usable one. */
  predicate FirstUsable(title: string, results: seq<ScholarPaper>, i: nat) {
    i < |results| && Usable(title, results[i]) && NoneUsable(title, results, i)
  }

  /** One result examined: it is the first usable one, or none up to it is. */
  lemma UsableStep(title: string, results: seq<ScholarPaper>, k: nat)
    requires k < |results| && NoneUsable(title, results, k)
    ensures Usable(title, results[k]) ==> FirstUsable(title, results, k) && !NoneUsable(title, results, |results|)
    ensures !Usable(title, results[k]) ==> NoneUsable(title, results, k + 1)
  {
  }

  /** `find_pdf_for_paper`, given the result blocks the search for
      `PdfQuery(title, authors)` returns: among the first three results, the
      PDF link of the first that matches the title and has one. */
  method FindPdfForPaper(title: string, authors: Option<seq<string>>, blocks: seq<ResultBlock>)
    returns (query: string, pdf: Option<string>)
    ensures query == PdfQuery(title, authors)
    ensures var papers := SearchResults(blocks, 3);
      pdf.Some? ==> exists i: nat :: FirstUsable(title, papers, i) && pdf == papers[i].pdfUrl
    ensures pdf.None? <==> NoneUsable(title, SearchResults(blocks, 3), |SearchResults(blocks, 3)|)
    ensures pdf.None? || Truthy(pdf)
  {
    query := PdfQuery(title, authors);
    var papers := SearchResults(blocks, 3);
    var k := 0;
    while k < |papers|
      invariant 0 <= k <= |papers|
      invariant NoneUsable(title, papers, k)
    {
      if Usable(title, papers[k]) {
        UsableStep(title, papers, k);
        return query, papers[k].pdfUrl;
      }
      UsableStep(title, papers, k);
      k := k + 1;
    }
    return query, None;
  }
}
