/** Biomedical named-entity post-processing (`NERService`): which spans the
    tagger returns are accepted, how entity names are normalised, counted per
    sentence, filtered by frequency and collapsed into unique records. The
    tagger itself (spaCy) is an oracle: its spans are inputs. */
module Ner {
  import opened Strings
  import opened Dicts

  /** One span of the tagger's output: text, tag and character offsets. */
  datatype Span = Span(text: string, tag: string, startChar: int, endChar: int)

  datatype Entity = Entity(text: string, entityType: string, start: int, end: int)

  datatype SentenceEntities = SentenceEntities(sentenceId: int, sentence: string, entities: seq<Entity>)

  datatype EntityInfo = EntityInfo(originalName: string, entityType: string, count: int)

  /** Tagger tag to entity type. */
  const EntityTypeMap: map<string, string> := map[
    "ENTITY" := "ENTITY",
    "GENE" := "GENE_OR_GENE_PRODUCT",
    "GENE_OR_GENE_PRODUCT" := "GENE_OR_GENE_PRODUCT",
    "GENE_OR_GENE" := "GENE_OR_GENE_PRODUCT",
    "PROTEIN" := "GENE_OR_GENE_PRODUCT",
    "GENE_OR_GENE_PRODUCT_BIO" := "GENE_OR_GENE_PRODUCT",
    "CHEMICAL" := "CHEMICAL",
    "SIMPLE_CHEMICAL" := "CHEMICAL",
    "AMINO_ACID" := "CHEMICAL",
    "ION" := "CHEMICAL",
    "DISEASE" := "DISEASE",
    "CANCER" := "DISEASE",
    "PATHOLOGICAL_FORMATION" := "DISEASE",
    "ORGANISM" := "ORGANISM",
    "TISSUE" := "TISSUE",
    "CELL" := "CELL_TYPE",
    "CELL_TYPE" := "CELL_TYPE",
    "CELL_LINE" := "CELL_TYPE",
    "ORGAN" := "ORGAN",
    "BIOLOGICAL_PROCESS" := "ENTITY",
    "REGULATOR" := "ENTITY"
  ]

  /** Default of `min_entity_occurrences`. */
  const DefaultMinOccurrences: int := 4

  /** Exact words that are never entities (a Python set, listed here). */
  const SkipWords: seq<string> := [
    "citation", "figure", "table", "references", "et al", "doi",
    "abstract", "introduction", "methods", "results", "discussion",
    "conclusion", "supplementary", "materials", "acknowledgments",
    "university", "department", "institute", "laboratory", "center",
    "journal", "review", "article", "study",
    "copyright", "license", "published", "publisher", "corresponding",
    "author", "authors", "correspondence", "affiliation", "affiliations",
    "international journal", "and", "or", "the", "of", "in", "on", "at"
  ]

  /** Whole-text section headers excluded by `^(...)$`. */
  const SectionHeaders: seq<string> := [
    "abstract", "introduction", "methods", "materials and methods", "results",
    "discussion", "conclusion", "acknowledgments"
  ]

  // ---------------------------------------------------------------------
  // Normalisation: collapse whitespace runs, strip, lower-case
  // ---------------------------------------------------------------------

  /** `re.sub(r'\s+', ' ', s)` */
  function CollapseSpaces(s: string): (r: string)
    ensures |r| <= |s|
    decreases |s|
  {
    if s == [] then []
    else if IsSpace(s[0]) then [' '] + CollapseSpaces(s[LeadingSpaces(s)..])
    else [s[0]] + CollapseSpaces(s[1..])
  }

  /** Every whitespace character is a single space followed by a non-space. */
  predicate SingleSpaced(s: string) {
    s == [] ||
    ((IsSpace(s[0]) ==> s[0] == ' ' && (|s| == 1 || !IsSpace(s[1]))) && SingleSpaced(s[1..]))
  }

  /** `re.sub(r'\s+', ' ', s).lower()` in one pass. */
  function LowerCollapse(s: string): (r: string)
    decreases |s|
  {
    if s == [] then []
    else if IsSpace(s[0]) then [' '] + LowerCollapse(s[LeadingSpaces(s)..])
    else [LowerChar(s[0])] + LowerCollapse(s[1..])
  }

  lemma {:induction false} LowerCollapseIsLowerOfCollapse(s: string)
    ensures LowerCollapse(s) == Lower(CollapseSpaces(s))
    decreases |s|
  {
    if s != [] {
      if IsSpace(s[0]) {
        LowerCollapseIsLowerOfCollapse(s[LeadingSpaces(s)..]);
        LowerConcat([' '], CollapseSpaces(s[LeadingSpaces(s)..]));
      } else {
        LowerCollapseIsLowerOfCollapse(s[1..]);
        LowerConcat([s[0]], CollapseSpaces(s[1..]));
      }
    }
  }

  /** `_normalize_entity`: strip, collapse whitespace runs, lower-case. */
  function Normalize(text: string): (r: string)
  {
    LowerCollapse(Strip(text))
  }

  /** Collapsing leaves single spaces only, and keeps a non-space first character. */
  lemma {:induction false} CollapseSingleSpaced(s: string)
    ensures SingleSpaced(CollapseSpaces(s))
    ensures s != [] && !IsSpace(s[0]) ==> CollapseSpaces(s) != [] && CollapseSpaces(s)[0] == s[0]
    decreases |s|
  {
    if s != [] {
      var r := CollapseSpaces(s);
      if IsSpace(s[0]) {
        var t := s[LeadingSpaces(s)..];
        CollapseSingleSpaced(t);
        assert r == [' '] + CollapseSpaces(t);
        assert r[1..] == CollapseSpaces(t);
      } else {
        CollapseSingleSpaced(s[1..]);
        assert r == [s[0]] + CollapseSpaces(s[1..]);
        assert r[1..] == CollapseSpaces(s[1..]);
      }
    }
  }

  /** Collapsing keeps a non-space last character. */
  lemma {:induction false} CollapseLast(s: string)
    requires s != [] && !IsSpace(s[|s| - 1])
    ensures CollapseSpaces(s) != [] && !IsSpace(CollapseSpaces(s)[|CollapseSpaces(s)| - 1])
    decreases |s|
  {
    if IsSpace(s[0]) {
      LeadingSpacesAreSpaces(s);
      var t := s[LeadingSpaces(s)..];
      assert t != [] && t[|t| - 1] == s[|s| - 1];
      CollapseLast(t);
    } else if |s| > 1 {
      assert s[1..][|s[1..]| - 1] == s[|s| - 1];
      CollapseLast(s[1..]);
    }
  }

  lemma {:induction false} CollapseFixpoint(s: string)
    requires SingleSpaced(s)
    ensures CollapseSpaces(s) == s
    decreases |s|
  {
    if s != [] {
      if IsSpace(s[0]) {
        assert LeadingSpaces(s) == 1 by {
          if |s| > 1 { assert LeadingSpaces(s) == 1 + LeadingSpaces(s[1..]); }
        }
      }
      CollapseFixpoint(s[1..]);
    }
  }

  lemma {:induction false} LowerSingleSpaced(s: string)
    requires SingleSpaced(s)
    ensures SingleSpaced(Lower(s))
  {
    if s != [] {
      LowerAt(s);
      assert Lower(s)[1..] == Lower(s[1..]);
      LowerSingleSpaced(s[1..]);
    }
  }

  /** A normalised name has no surrounding whitespace and no whitespace run;
      normalising it again changes nothing. */
  lemma NormalizeIdempotent(text: string)
    ensures SingleSpaced(Normalize(text))
    ensures Normalize(text) == [] || (!IsSpace(Normalize(text)[0]) && !IsSpace(Normalize(text)[|Normalize(text)| - 1]))
    ensures Normalize(Normalize(text)) == Normalize(text)
  {
    var st := Strip(text);
    var c := CollapseSpaces(st);
    var n := Lower(c);
    LowerCollapseIsLowerOfCollapse(st);
    CollapseSingleSpaced(st);
    if st != [] { CollapseLast(st); }
    LowerSingleSpaced(c);
    LowerAt(c);
    assert c == [] || (!IsSpace(c[0]) && !IsSpace(c[|c| - 1]));
    // n has no leading or trailing whitespace, so stripping it is the identity
    assert n == [] || (!IsSpace(n[0]) && !IsSpace(n[|n| - 1]));
    assert LeadingSpaces(n) == 0;
    assert RightEnd(n) == |n|;
    assert Strip(n) == n;
    CollapseFixpoint(n);
    LowerIdempotent(c);
    LowerCollapseIsLowerOfCollapse(n);
  }

  // ---------------------------------------------------------------------
  // Validity filter
  // ---------------------------------------------------------------------

  /** Prefixes searched with `^(...)` in the exclusion patterns. */
  const ExcludedPrefixes: seq<string> :=
    ["international journal", "figure", "fig.", "table", "supplementary", "appendix"]

  /** Substrings searched anywhere by the exclusion patterns. */
  const ExcludedInfixes: seq<string> := [
    "journal of", "review of", "university", "institute", "department of",
    "citation:", "reference:", "doi:", "pmid:", "issn:",
    "copyright", "license agreement", "published by", "et al."
  ]

  predicate StartsWithAny(s: string, prefixes: seq<string>) {
    prefixes != [] && (StartsWith(s, prefixes[0]) || StartsWithAny(s, prefixes[1..]))
  }

  predicate ContainsAny(s: string, needles: seq<string>) {
    needles != [] && (Contains(s, needles[0]) || ContainsAny(s, needles[1..]))
  }

  /** Digits in the longest prefix made of digits, commas and whitespace. */
  function PrefixDigits(s: string): nat
  {
    if s == [] || !(IsDigit(s[0]) || s[0] == ',' || IsSpace(s[0])) then 0
    else (if IsDigit(s[0]) then 1 else 0) + PrefixDigits(s[1..])
  }

  /** `^\d+[,\s]*\d+[,\s]*\d+`: a leading run of at least three digits
      separated only by commas and whitespace. */
  predicate LeadingNumberList(s: string) {
    s != [] && IsDigit(s[0]) && PrefixDigits(s) >= 3
  }

  predicate IsControl(c: char) {
    c <= '\U{1f}' || ('\U{7f}' <= c <= '\U{9f}')
  }

  /** `[\x00-\x1f\x7f-\x9f]` found somewhere. */
  predicate HasControlChar(s: string) {
    s != [] && (IsControl(s[0]) || HasControlChar(s[1..]))
  }

  predicate NoLowerOrDigit(s: string) {
    s == [] || (!IsLower(s[0]) && !IsDigit(s[0]) && NoLowerOrDigit(s[1..]))
  }

  /** `^[^a-z0-9]+$` */
  predicate OnlySpecialChars(s: string) {
    s != [] && NoLowerOrDigit(s)
  }

  /** The exclusion patterns, searched in the lower-cased stripped text. */
  predicate MatchesExclusion(tl: string) {
    StartsWithAny(tl, ExcludedPrefixes) ||
    ContainsAny(tl, ExcludedInfixes) ||
    LeadingNumberList(tl) ||
    InList(tl, SectionHeaders) ||
    HasControlChar(tl) ||
    OnlySpecialChars(tl)
  }

  function AlphaCount(s: string): (n: nat)
    ensures n <= |s|
  {
    if s == [] then 0 else (if IsAlpha(s[0]) then 1 else 0) + AlphaCount(s[1..])
  }

  /** `re.search(r'[a-zA-Z]', s)` */
  predicate HasLetter(s: string) {
    s != [] && (IsAlpha(s[0]) || HasLetter(s[1..]))
  }

  /** `^(?:[A-Z]\.?){1,3}$`: one to three capitals, each optionally followed by a dot. */
  predicate Initials(s: string, groups: nat) {
    s != [] && groups >= 1 && IsUpper(s[0]) &&
    var rest := if |s| >= 2 && s[1] == '.' then s[2..] else s[1..];
    rest == [] || Initials(rest, groups - 1)
  }

  predicate AllAlpha(s: string) {
    s == [] || (IsAlpha(s[0]) && AllAlpha(s[1..]))
  }

  /** `^[A-Za-z]{1,2}$` */
  predicate ShortToken(s: string) {
    1 <= |s| <= 2 && AllAlpha(s)
  }

  /** `_is_valid_biomedical_entity`: the alphabetic share `sum(isalpha)/len < 0.4`
      is compared exactly as `5 * alpha < 2 * len` (see AlphaRatio). */
  predicate IsValidEntity(text: string, tag: string) {
    3 <= |text| <= 80 &&
    !InList(Strip(Lower(text)), SkipWords) &&
    !MatchesExclusion(Strip(Lower(text))) &&
    HasLetter(text) &&
    5 * AlphaCount(text) >= 2 * |text| &&
    !Initials(Strip(text), 3) && !ShortToken(Strip(text)) &&
    tag in EntityTypeMap
  }

  /** The integer comparison is the source's ratio test: for a positive
      length, `alpha / len >= 0.4` exactly when `5 * alpha >= 2 * len`. */
  lemma AlphaRatio(alpha: nat, len: nat)
    requires len > 0
    ensures (alpha as real / len as real >= 0.4) <==> 5 * alpha >= 2 * len
  {
    RealRatio(alpha as real, len as real);
    assert (5 * alpha) as real == 5.0 * (alpha as real);
    assert (2 * len) as real == 2.0 * (len as real);
  }

  lemma RealRatio(a: real, n: real)
    requires n > 0.0
    ensures (a / n >= 0.4) <==> (5.0 * a >= 2.0 * n)
  {
    var q := a / n;
    assert q * n == a;
    if q >= 0.4 {
      ScaleMonotone(q, 0.4, n);
    } else {
      ScaleMonotone(0.4, q, n);
      if q * n == 0.4 * n { ScaleCancel(q, 0.4, n); }
    }
  }

  lemma ScaleMonotone(x: real, y: real, n: real)
    requires x >= y && n > 0.0
    ensures x * n >= y * n
  {
  }

  lemma ScaleCancel(x: real, y: real, n: real)
    requires n > 0.0 && x * n == y * n
    ensures x == y
  {
  }

  lemma {:induction false} HasLetterAt(s: string)
    requires HasLetter(s)
    ensures exists i :: 0 <= i < |s| && IsAlpha(s[i])
  {
    if !IsAlpha(s[0]) {
      HasLetterAt(s[1..]);
      var i :| 0 <= i < |s[1..]| && IsAlpha(s[1..][i]);
      assert IsAlpha(s[i + 1]);
    }
  }

  /** The letter and ratio tests as the source states them: a letter occurs,
      and the alphabetic share of the characters is at least 0.4. */
  lemma LetterAndRatio(text: string)
    requires HasLetter(text) && 5 * AlphaCount(text) >= 2 * |text|
    ensures |text| > 0
    ensures exists i :: 0 <= i < |text| && IsAlpha(text[i])
    ensures AlphaCount(text) as real / |text| as real >= 0.4
  {
    HasLetterAt(text);
    AlphaRatio(AlphaCount(text), |text|);
  }

  // ---------------------------------------------------------------------
  // Extraction over the tagger's spans
  // ---------------------------------------------------------------------

  /** A span `extract_entities` keeps: its stripped text passes the filter. */
  predicate Keeps(sp: Span) {
    IsValidEntity(Strip(sp.text), sp.tag)
  }

  /** The entity record made from a kept span. */
  function ToEntity(sp: Span): (e: Entity)
    requires Keeps(sp)
  {
    Entity(Strip(sp.text), EntityTypeMap[sp.tag], sp.startChar, sp.endChar)
  }

  /** The entity a span yields, if it is kept. */
  function Accept(sp: Span): Option<Entity> {
    if Keeps(sp) then Some(ToEntity(sp)) else None
  }

  /** The entities `extract_entities` keeps from the tagger's spans, in order. */
  function Accepted(spans: seq<Span>): (es: seq<Entity>)
    ensures |es| <= |spans|
  {
    FilterMap(spans, Accept)
  }

  /** `extract_entities`: the text of each span is stripped, checked and
      mapped to its entity type. */
  method ExtractEntities(spans: seq<Span>) returns (entities: seq<Entity>)
    ensures entities == Accepted(spans)
  {
    entities := [];
    var i := 0;
    while i < |spans|
      invariant 0 <= i <= |spans|
      invariant entities == Accepted(spans[..i])
    {
      var found := AcceptSpan(spans[i]);
      ghost var before := entities;
      if found.Some? {
        entities := entities + [found.value];
      }
      AcceptedStep(spans, i, before, found, entities);
      i := i + 1;
    }
    PrefixAll(spans);
  }

  /** The body of the span loop: strip the text, check it, map the tag. */
  method AcceptSpan(sp: Span) returns (found: Option<Entity>)
    ensures found == Accept(sp)
  {
    var entityText := Strip(sp.text);
    if IsValidEntity(entityText, sp.tag) {
      var entityType := EntityTypeMap[sp.tag];
      found := Some(Entity(entityText, entityType, sp.startChar, sp.endChar));
    } else {
      found := None;
    }
  }

  /** One more span of the loop, given what it yields. */
  lemma AcceptedStep(spans: seq<Span>, i: nat, entities: seq<Entity>, found: Option<Entity>, entities': seq<Entity>)
    requires i < |spans| && entities == Accepted(spans[..i]) && found == Accept(spans[i])
    requires entities' == if found.Some? then entities + [found.value] else entities
    ensures entities' == Accepted(spans[..i + 1])
  {
    FilterMapStep(spans, Accept, i);
  }

  /** Every extracted entity comes from a kept span: its text is the span's
      stripped text, its type the map's entry for the span's tag, and its
      offsets the span's. */
  lemma AcceptedFromSpans(spans: seq<Span>, e: Entity)
    requires e in Accepted(spans)
    ensures exists sp :: sp in spans && Keeps(sp) && e == ToEntity(sp)
  {
    FilterMapFrom(spans, Accept, e);
    var sp :| sp in spans && Accept(sp) == Some(e);
    assert Keeps(sp);
  }

  /** Every kept span yields an entity. */
  lemma SpansToAccepted(spans: seq<Span>, k: nat)
    requires k < |spans| && Keeps(spans[k])
    ensures ToEntity(spans[k]) in Accepted(spans)
  {
    FilterMapHas(spans, Accept, k);
  }

  /** The tagger's accepted entities, sentence by sentence. */
  function AcceptedEach(spansOf: seq<seq<Span>>): (found: seq<seq<Entity>>)
    ensures |found| == |spansOf|
  {
    seq(|spansOf|, i requires 0 <= i < |spansOf| => Accepted(spansOf[i]))
  }

  /** The records built from the first `n` sentences, given the entities
      found in each: one per sentence with entities, numbered by position. */
  function Numbered(sentences: seq<string>, found: seq<seq<Entity>>, n: nat): (rs: seq<SentenceEntities>)
    requires n <= |sentences| == |found|
  {
    if n == 0 then []
    else
      var rest := Numbered(sentences, found, n - 1);
      if found[n - 1] != [] then rest + [SentenceEntities(n - 1, sentences[n - 1], found[n - 1])] else rest
  }

  /** `extract_entities_from_sentences`, with the tagger's spans for sentence
      `i` in `spansOf[i]`. */
  method ExtractFromSentences(sentences: seq<string>, spansOf: seq<seq<Span>>)
    returns (results: seq<SentenceEntities>)
    requires |spansOf| == |sentences|
    ensures results == Numbered(sentences, AcceptedEach(spansOf), |sentences|)
  {
    ghost var found := AcceptedEach(spansOf);
    results := [];
    for idx := 0 to |sentences|
      invariant results == Numbered(sentences, found, idx)
    {
      var entities := ExtractEntities(spansOf[idx]);
      assert entities == found[idx];
      NumberedStep(sentences, found, idx);
      if entities != [] {
        results := results + [SentenceEntities(idx, sentences[idx], entities)];
      }
    }
  }

  lemma NumberedStep(sentences: seq<string>, found: seq<seq<Entity>>, n: nat)
    requires n < |sentences| == |found|
    ensures Numbered(sentences, found, n + 1) ==
      if found[n] != [] then Numbered(sentences, found, n) + [SentenceEntities(n, sentences[n], found[n])]
      else Numbered(sentences, found, n)
  {
  }

  lemma NumberedSnoc(sentences: seq<string>, found: seq<seq<Entity>>, n: nat, k: nat)
    requires 0 < n <= |sentences| == |found|
    requires k < |Numbered(sentences, found, n - 1)|
    ensures k < |Numbered(sentences, found, n)|
    ensures Numbered(sentences, found, n)[k] == Numbered(sentences, found, n - 1)[k]
  {
  }

  /** Each record is numbered by the position of its sentence and carries
      that sentence and its non-empty entities. */
  lemma {:induction false} NumberedRecords(sentences: seq<string>, found: seq<seq<Entity>>, n: nat, k: nat)
    requires n <= |sentences| == |found|
    requires k < |Numbered(sentences, found, n)|
    ensures 0 <= Numbered(sentences, found, n)[k].sentenceId < n
    ensures Numbered(sentences, found, n)[k].sentence == sentences[Numbered(sentences, found, n)[k].sentenceId]
    ensures Numbered(sentences, found, n)[k].entities == found[Numbered(sentences, found, n)[k].sentenceId]
    ensures Numbered(sentences, found, n)[k].entities != []
  {
    if k < |Numbered(sentences, found, n - 1)| {
      NumberedRecords(sentences, found, n - 1, k);
      NumberedSnoc(sentences, found, n, k);
    }
  }

  /** Record numbers increase strictly. */
  lemma {:induction false} NumberedIncreasing(sentences: seq<string>, found: seq<seq<Entity>>, n: nat, k: nat, l: nat)
    requires n <= |sentences| == |found|
    requires k < l < |Numbered(sentences, found, n)|
    ensures Numbered(sentences, found, n)[k].sentenceId < Numbered(sentences, found, n)[l].sentenceId
  {
    var rest := Numbered(sentences, found, n - 1);
    NumberedSnoc(sentences, found, n, k);
    if l < |rest| {
      NumberedSnoc(sentences, found, n, l);
      NumberedIncreasing(sentences, found, n - 1, k, l);
    } else {
      NumberedRecords(sentences, found, n - 1, k);
    }
  }

  /** Every sentence with entities gets a record. */
  lemma {:induction false} NumberedComplete(sentences: seq<string>, found: seq<seq<Entity>>, n: nat, i: nat)
    requires n <= |sentences| == |found|
    requires i < n && found[i] != []
    ensures exists k :: 0 <= k < |Numbered(sentences, found, n)| && Numbered(sentences, found, n)[k].sentenceId == i
  {
    var rest := Numbered(sentences, found, n - 1);
    if i < n - 1 {
      NumberedComplete(sentences, found, n - 1, i);
      var k :| 0 <= k < |rest| && rest[k].sentenceId == i;
      NumberedSnoc(sentences, found, n, k);
    } else {
      assert Numbered(sentences, found, n)[|rest|].sentenceId == i;
    }
  }

  // ---------------------------------------------------------------------
  // Counting and filtering
  // ---------------------------------------------------------------------

  /** The normalised names mentioned in one sentence record. */
  function NamesIn(s: SentenceEntities): set<string>
  {
    set e | e in s.entities :: Normalize(e.text)
  }

  /** Number of sentence records that mention `name`. */
  function SentenceCount(sents: seq<SentenceEntities>, name: string): (n: nat)
    ensures n <= |sents|
  {
    if sents == [] then 0
    else SentenceCount(sents[..|sents| - 1], name) + (if name in NamesIn(sents[|sents| - 1]) then 1 else 0)
  }

  lemma SentenceCountStep(sents: seq<SentenceEntities>, i: nat, name: string)
    requires i < |sents|
    ensures SentenceCount(sents[..i + 1], name) ==
      SentenceCount(sents[..i], name) + (if name in NamesIn(sents[i]) then 1 else 0)
  {
    PrefixStep(sents, i);
  }

  function Get(counts: map<string, int>, name: string): int {
    if name in counts then counts[name] else 0
  }

  /** The set of names a sentence mentions, built mention by mention. */
  method SentenceNames(s: SentenceEntities) returns (seen: set<string>)
    ensures seen == NamesIn(s)
  {
    seen := {};
    var j := 0;
    var ents := s.entities;
    while j < |ents|
      invariant 0 <= j <= |ents|
      invariant seen == set e | e in ents[..j] :: Normalize(e.text)
    {
      PrefixStep(ents, j);
      seen := seen + {Normalize(ents[j].text)};
      j := j + 1;
    }
    PrefixAll(ents);
  }

  /** Adds one to the count of every name in `seen`, in any order. */
  method CountNames(counts: map<string, int>, seen: set<string>) returns (counts': map<string, int>)
    requires forall name :: name in counts ==> counts[name] >= 1
    ensures forall name :: Get(counts', name) == Get(counts, name) + (if name in seen then 1 else 0)
    ensures forall name :: name in counts' ==> counts'[name] >= 1
  {
    counts' := counts;
    var todo := seen;
    while todo != {}
      invariant todo <= seen
      invariant forall name :: Get(counts', name) == Get(counts, name) + (if name in seen - todo then 1 else 0)
      invariant forall name :: name in counts' ==> counts'[name] >= 1
      decreases todo
    {
      var name :| name in todo;
      counts' := counts'[name := Get(counts', name) + 1];
      todo := todo - {name};
    }
  }

  /** `get_entity_counts`: a name counts once per sentence that mentions it,
      however often it is mentioned there. Only mentioned names are keys. */
  method EntityCounts(sents: seq<SentenceEntities>) returns (counts: map<string, int>)
    ensures forall name :: Get(counts, name) == SentenceCount(sents, name)
    ensures forall name :: name in counts ==> 1 <= counts[name] <= |sents|
  {
    counts := map[];
    var i := 0;
    while i < |sents|
      invariant 0 <= i <= |sents|
      invariant forall name :: Get(counts, name) == SentenceCount(sents[..i], name)
      invariant forall name :: name in counts ==> counts[name] >= 1
    {
      var seen := SentenceNames(sents[i]);
      counts := CountNames(counts, seen);
      forall name ensures Get(counts, name) == SentenceCount(sents[..i + 1], name) {
        SentenceCountStep(sents, i, name);
      }
      i := i + 1;
    }
    PrefixAll(sents);
    forall name | name in counts ensures counts[name] <= |sents| {
      assert Get(counts, name) == SentenceCount(sents, name);
    }
  }

  /** The entities of one record whose name reaches the threshold. */
  function Frequent(ents: seq<Entity>, counts: map<string, int>, minOcc: int): (r: seq<Entity>)
    ensures |r| <= |ents|
  {
    if ents == [] then []
    else
      var rest := Frequent(ents[..|ents| - 1], counts, minOcc);
      var e := ents[|ents| - 1];
      if Get(counts, Normalize(e.text)) >= minOcc then rest + [e] else rest
  }

  /** The kept entities are exactly those whose name reaches the threshold. */
  lemma {:induction false} FrequentMembers(ents: seq<Entity>, counts: map<string, int>, minOcc: int)
    ensures forall e :: e in Frequent(ents, counts, minOcc) <==> e in ents && Get(counts, Normalize(e.text)) >= minOcc
  {
    if ents != [] {
      var pre := ents[..|ents| - 1];
      FrequentMembers(pre, counts, minOcc);
      assert ents == pre + [ents[|ents| - 1]];
    }
  }

  lemma FrequentStep(ents: seq<Entity>, j: nat, counts: map<string, int>, minOcc: int)
    requires j < |ents|
    ensures Frequent(ents[..j + 1], counts, minOcc) ==
      if Get(counts, Normalize(ents[j].text)) >= minOcc then Frequent(ents[..j], counts, minOcc) + [ents[j]]
      else Frequent(ents[..j], counts, minOcc)
  {
    PrefixStep(ents, j);
  }

  /** The records `filter_entities` returns for the given counts. */
  function FilterWith(sents: seq<SentenceEntities>, counts: map<string, int>, minOcc: int): (r: seq<SentenceEntities>)
    ensures |r| <= |sents|
  {
    if sents == [] then []
    else
      var rest := FilterWith(sents[..|sents| - 1], counts, minOcc);
      var s := sents[|sents| - 1];
      var kept := Frequent(s.entities, counts, minOcc);
      if kept != [] then rest + [SentenceEntities(s.sentenceId, s.sentence, kept)] else rest
  }

  lemma FilterWithStep(sents: seq<SentenceEntities>, i: nat, counts: map<string, int>, minOcc: int)
    requires i < |sents|
    ensures FilterWith(sents[..i + 1], counts, minOcc) ==
      var kept := Frequent(sents[i].entities, counts, minOcc);
      if kept != [] then FilterWith(sents[..i], counts, minOcc) + [SentenceEntities(sents[i].sentenceId, sents[i].sentence, kept)]
      else FilterWith(sents[..i], counts, minOcc)
  {
    PrefixStep(sents, i);
  }

  /** `filter_entities`, with counts taken from the same records. */
  function Filtered(sents: seq<SentenceEntities>, minOcc: int): seq<SentenceEntities>
  {
    FilterWith(sents, map name | name in AllNames(sents) :: SentenceCount(sents, name), minOcc)
  }

  function AllNames(sents: seq<SentenceEntities>): set<string>
  {
    if sents == [] then {} else AllNames(sents[..|sents| - 1]) + NamesIn(sents[|sents| - 1])
  }

  lemma {:induction false} AllNamesCount(sents: seq<SentenceEntities>, name: string)
    ensures name in AllNames(sents) <==> SentenceCount(sents, name) > 0
  {
    if sents != [] { AllNamesCount(sents[..|sents| - 1], name); }
  }

  /** `filter_entities`: keeps, in order, the entities whose name is mentioned
      in at least `minOcc` sentences, and the records left non-empty. */
  method FilterEntities(sents: seq<SentenceEntities>, minOcc: int) returns (filtered: seq<SentenceEntities>)
    ensures filtered == Filtered(sents, minOcc)
  {
    var counts := EntityCounts(sents);
    assert counts == map name | name in AllNames(sents) :: SentenceCount(sents, name) by {
      forall name ensures name in counts <==> name in AllNames(sents) {
        AllNamesCount(sents, name);
      }
    }
    filtered := [];
    var i := 0;
    while i < |sents|
      invariant 0 <= i <= |sents|
      invariant filtered == FilterWith(sents[..i], counts, minOcc)
    {
      var s := sents[i];
      var kept := [];
      var j := 0;
      while j < |s.entities|
        invariant 0 <= j <= |s.entities|
        invariant kept == Frequent(s.entities[..j], counts, minOcc)
      {
        FrequentStep(s.entities, j, counts, minOcc);
        if Get(counts, Normalize(s.entities[j].text)) >= minOcc {
          kept := kept + [s.entities[j]];
        }
        j := j + 1;
      }
      PrefixAll(s.entities);
      FilterWithStep(sents, i, counts, minOcc);
      if kept != [] {
        filtered := filtered + [SentenceEntities(s.sentenceId, s.sentence, kept)];
      }
      i := i + 1;
    }
    PrefixAll(sents);
  }

  /** Each kept record is an input record with the same id and sentence and a
      non-empty subset of its entities, every one of them frequent enough. */
  lemma {:induction false} FilterWithShape(sents: seq<SentenceEntities>, counts: map<string, int>, minOcc: int)
    ensures forall r :: r in FilterWith(sents, counts, minOcc) ==>
      r.entities != [] &&
      (forall e :: e in r.entities ==> Get(counts, Normalize(e.text)) >= minOcc) &&
      exists s :: s in sents && s.sentenceId == r.sentenceId && s.sentence == r.sentence &&
                  r.entities == Frequent(s.entities, counts, minOcc)
  {
    if sents != [] {
      var pre := sents[..|sents| - 1];
      FilterWithShape(pre, counts, minOcc);
      FrequentMembers(sents[|sents| - 1].entities, counts, minOcc);
      forall r | r in FilterWith(sents, counts, minOcc)
        ensures exists s :: s in sents && s.sentenceId == r.sentenceId && s.sentence == r.sentence &&
                  r.entities == Frequent(s.entities, counts, minOcc)
      {
        if r in FilterWith(pre, counts, minOcc) {
          var s :| s in pre && s.sentenceId == r.sentenceId && s.sentence == r.sentence &&
                  r.entities == Frequent(s.entities, counts, minOcc);
          assert s in sents;
        } else {
          assert sents[|sents| - 1] in sents;
        }
      }
    }
  }

  /** A record's names after filtering: its frequent names. */
  lemma FrequentNames(s: SentenceEntities, counts: map<string, int>, minOcc: int, name: string)
    ensures name in NamesIn(SentenceEntities(s.sentenceId, s.sentence, Frequent(s.entities, counts, minOcc)))
        <==> name in NamesIn(s) && Get(counts, name) >= minOcc
  {
    var kept := Frequent(s.entities, counts, minOcc);
    FrequentMembers(s.entities, counts, minOcc);
    if name in NamesIn(s) && Get(counts, name) >= minOcc {
      var e :| e in s.entities && Normalize(e.text) == name;
      assert e in kept;
    }
  }

  /** Filtering keeps every mention of a frequent name, so each frequent
      name is counted in as many sentences as before; rare names vanish. */
  lemma {:induction false} FilterKeepsCounts(sents: seq<SentenceEntities>, counts: map<string, int>, minOcc: int, name: string)
    ensures SentenceCount(FilterWith(sents, counts, minOcc), name) ==
      if Get(counts, name) >= minOcc then SentenceCount(sents, name) else 0
  {
    if sents != [] {
      var pre := sents[..|sents| - 1];
      var s := sents[|sents| - 1];
      FilterKeepsCounts(pre, counts, minOcc, name);
      var kept := Frequent(s.entities, counts, minOcc);
      FrequentNames(s, counts, minOcc, name);
      var rest := FilterWith(pre, counts, minOcc);
      if kept != [] {
      } else {
        assert NamesIn(SentenceEntities(s.sentenceId, s.sentence, kept)) == {};
      }
    }
  }

  /** `filter_entities` is idempotent. */
  lemma FilterIdempotent(sents: seq<SentenceEntities>, minOcc: int)
    ensures Filtered(Filtered(sents, minOcc), minOcc) == Filtered(sents, minOcc)
  {
    var counts := map name | name in AllNames(sents) :: SentenceCount(sents, name);
    var f := Filtered(sents, minOcc);
    var counts2 := map name | name in AllNames(f) :: SentenceCount(f, name);
    forall name ensures Get(counts, name) >= minOcc ==> Get(counts2, name) >= minOcc {
      FilterKeepsCounts(sents, counts, minOcc, name);
      AllNamesCount(sents, name);
      AllNamesCount(f, name);
    }
    FilterWithShape(sents, counts, minOcc);
    forall k, e | 0 <= k < |f| && e in f[k].entities
      ensures Get(counts2, Normalize(e.text)) >= minOcc
    {
      assert f[k] in f;
    }
    forall k | 0 <= k < |f| ensures f[k].entities != [] {
      assert f[k] in f;
    }
    FilterAgain(f, counts2, minOcc);
  }

  /** Every record has entities, and every entity's name reaches the threshold. */
  ghost predicate Settled(f: seq<SentenceEntities>, counts: map<string, int>, minOcc: int) {
    (forall k :: 0 <= k < |f| ==> f[k].entities != []) &&
    (forall k, e :: 0 <= k < |f| && e in f[k].entities ==> Get(counts, Normalize(e.text)) >= minOcc)
  }

  lemma SettledPrefix(f: seq<SentenceEntities>, counts: map<string, int>, minOcc: int)
    requires f != [] && Settled(f, counts, minOcc)
    ensures Settled(f[..|f| - 1], counts, minOcc)
    ensures forall e :: e in f[|f| - 1].entities ==> Get(counts, Normalize(e.text)) >= minOcc
  {
    var pre := f[..|f| - 1];
    forall k | 0 <= k < |pre| ensures pre[k] == f[k] { }
  }

  /** Filtering records whose entities all pass keeps them as they are. */
  lemma {:induction false} FilterAgain(f: seq<SentenceEntities>, counts: map<string, int>, minOcc: int)
    requires Settled(f, counts, minOcc)
    ensures FilterWith(f, counts, minOcc) == f
  {
    if f != [] {
      var pre := f[..|f| - 1];
      var s := f[|f| - 1];
      SettledPrefix(f, counts, minOcc);
      FilterAgain(pre, counts, minOcc);
      FrequentAll(s.entities, counts, minOcc);
      assert SentenceEntities(s.sentenceId, s.sentence, s.entities) == s;
      assert f == pre + [s];
    }
  }

  lemma {:induction false} FrequentAll(ents: seq<Entity>, counts: map<string, int>, minOcc: int)
    requires forall e :: e in ents ==> Get(counts, Normalize(e.text)) >= minOcc
    ensures Frequent(ents, counts, minOcc) == ents
  {
    if ents != [] {
      var pre := ents[..|ents| - 1];
      assert ents == pre + [ents[|ents| - 1]];
      FrequentAll(pre, counts, minOcc);
    }
  }

  // ---------------------------------------------------------------------
  // Unique entities
  // ---------------------------------------------------------------------

  /** All mentions, record by record, in order. */
  function Mentions(sents: seq<SentenceEntities>): seq<Entity>
  {
    if sents == [] then [] else Mentions(sents[..|sents| - 1]) + sents[|sents| - 1].entities
  }

  function Names(ms: seq<Entity>): (ns: seq<string>)
    ensures |ns| == |ms|
  {
    if ms == [] then [] else Names(ms[..|ms| - 1]) + [Normalize(ms[|ms| - 1].text)]
  }

  lemma {:induction false} NamesAt(ms: seq<Entity>, i: nat)
    requires i < |ms|
    ensures Names(ms)[i] == Normalize(ms[i].text)
  {
    if i < |ms| - 1 { NamesAt(ms[..|ms| - 1], i); }
  }

  lemma NamesSnoc(ms: seq<Entity>, e: Entity)
    ensures Names(ms + [e]) == Names(ms) + [Normalize(e.text)]
  {
    assert (ms + [e])[..|ms|] == ms;
  }

  /** One step of `get_unique_entities`: mention `e`, whose name normalises
      to `key`, opens a record or adds one to its count. */
  function AddMention(d: Dict<string, EntityInfo>, key: string, e: Entity): (r: Dict<string, EntityInfo>)
    requires d.Valid()
    ensures r.Valid()
  {
    if key in d.m then d.Put(key, d.m[key].(count := d.m[key].count + 1))
    else d.Put(key, EntityInfo(e.text, e.entityType, 1))
  }

  /** The records built from mentions `ms` whose normalised names are `ks`. */
  function Collect(ks: seq<string>, ms: seq<Entity>): (d: Dict<string, EntityInfo>)
    requires |ks| == |ms|
    ensures d.Valid()
  {
    if ms == [] then Empty()
    else AddMention(Collect(ks[..|ks| - 1], ms[..|ms| - 1]), ks[|ks| - 1], ms[|ms| - 1])
  }

  /** What `get_unique_entities` returns for the mentions `ms`, in order. */
  function UniqueOf(ms: seq<Entity>): Dict<string, EntityInfo>
  {
    Collect(Names(ms), ms)
  }

  lemma UniqueOfSnoc(ms: seq<Entity>, e: Entity)
    ensures UniqueOf(ms + [e]) == AddMention(UniqueOf(ms), Normalize(e.text), e)
  {
    NamesSnoc(ms, e);
    var ks := Names(ms + [e]);
    assert ks[..|ms|] == Names(ms);
    assert (ms + [e])[..|ms|] == ms;
  }

  /** The mentions of one record, added in order to `d`. */
  function AddAll(d: Dict<string, EntityInfo>, ents: seq<Entity>): (r: Dict<string, EntityInfo>)
    requires d.Valid()
    ensures r.Valid()
  {
    if ents == [] then d
    else AddMention(AddAll(d, ents[..|ents| - 1]), Normalize(ents[|ents| - 1].text), ents[|ents| - 1])
  }

  /** The records, sentence by sentence, as `get_unique_entities` walks them. */
  function UniqueOfSentences(sents: seq<SentenceEntities>): (d: Dict<string, EntityInfo>)
    ensures d.Valid()
  {
    if sents == [] then Empty() else AddAll(UniqueOfSentences(sents[..|sents| - 1]), sents[|sents| - 1].entities)
  }

  lemma {:induction false} AddAllIsUniqueOf(ms: seq<Entity>, ents: seq<Entity>)
    ensures AddAll(UniqueOf(ms), ents) == UniqueOf(ms + ents)
  {
    if ents != [] {
      var pre := ents[..|ents| - 1];
      var e := ents[|ents| - 1];
      AddAllIsUniqueOf(ms, pre);
      UniqueOfSnoc(ms + pre, e);
      ConcatSnoc(ms, ents);
    } else {
      ConcatSnoc(ms, ents);
    }
  }

  /** Walking sentence by sentence is folding over all mentions. */
  lemma {:induction false} UniqueOfSentencesMentions(sents: seq<SentenceEntities>)
    ensures UniqueOfSentences(sents) == UniqueOf(Mentions(sents))
  {
    if sents == [] {
      assert Names([]) == [];
    } else {
      UniqueOfSentencesMentions(sents[..|sents| - 1]);
      AddAllIsUniqueOf(Mentions(sents[..|sents| - 1]), sents[|sents| - 1].entities);
    }
  }

  /** `get_unique_entities`: one record per normalised name. */
  method UniqueEntities(sents: seq<SentenceEntities>) returns (entities: Dict<string, EntityInfo>)
    ensures entities == UniqueOf(Mentions(sents))
  {
    entities := Empty();
    var i := 0;
    while i < |sents|
      invariant 0 <= i <= |sents|
      invariant entities == UniqueOfSentences(sents[..i])
    {
      var ents := sents[i].entities;
      ghost var start := entities;
      var j := 0;
      while j < |ents|
        invariant 0 <= j <= |ents|
        invariant entities == AddAll(start, ents[..j])
      {
        PrefixStep(ents, j);
        entities := AddMention(entities, Normalize(ents[j].text), ents[j]);
        j := j + 1;
      }
      PrefixAll(ents);
      PrefixStep(sents, i);
      i := i + 1;
    }
    PrefixAll(sents);
    UniqueOfSentencesMentions(sents);
  }

  /** The keys are the distinct names, in order of first mention. */
  lemma {:induction false} CollectKeys(ks: seq<string>, ms: seq<Entity>)
    requires |ks| == |ms|
    ensures Collect(ks, ms).keys == Dedup(ks)
  {
    if ms != [] {
      CollectKeys(ks[..|ks| - 1], ms[..|ms| - 1]);
    }
  }

  /** A record's count is the number of mentions of its name. */
  lemma {:induction false} CollectCount(ks: seq<string>, ms: seq<Entity>, key: string)
    requires |ks| == |ms|
    ensures key in Collect(ks, ms).m <==> key in ks
    ensures key in Collect(ks, ms).m ==> Collect(ks, ms).m[key].count == Count(ks, key)
  {
    if ms != [] {
      var pre := ks[..|ks| - 1];
      CollectCount(pre, ms[..|ms| - 1], key);
      assert ks == pre + [ks[|ks| - 1]];
    }
  }

  /** A record keeps the original text and type of the first mention of its name. */
  lemma {:induction false} CollectFirst(ks: seq<string>, ms: seq<Entity>, key: string)
    requires |ks| == |ms| && key in ks
    ensures key in Collect(ks, ms).m
    ensures Collect(ks, ms).m[key].originalName == ms[FirstIndex(ks, key)].text
    ensures Collect(ks, ms).m[key].entityType == ms[FirstIndex(ks, key)].entityType
  {
    var n := |ks| - 1;
    var pre := ks[..n];
    assert ks == pre + [ks[n]];
    CollectCount(pre, ms[..n], key);
    if key in pre {
      CollectFirst(pre, ms[..n], key);
      FirstIndexPrefix(pre, ks[n], key);
    } else {
      FirstIndexLast(pre, key);
    }
  }

  function SumCounts(keys: seq<string>, m: map<string, EntityInfo>): int
    requires forall k :: k in keys ==> k in m
  {
    if keys == [] then 0 else SumCounts(keys[..|keys| - 1], m) + m[keys[|keys| - 1]].count
  }

  lemma {:induction false} SumCountsUpdate(keys: seq<string>, m: map<string, EntityInfo>, k: string, v: EntityInfo)
    requires forall x :: x in keys ==> x in m
    requires Distinct(keys) && k in keys
    ensures SumCounts(keys, m[k := v]) == SumCounts(keys, m) - m[k].count + v.count
  {
    var pre := keys[..|keys| - 1];
    if keys[|keys| - 1] != k {
      assert k in pre;
      SumCountsUpdate(pre, m, k, v);
    } else {
      assert k !in pre;
      SumCountsSame(pre, m, k, v);
    }
  }

  lemma {:induction false} SumCountsSame(keys: seq<string>, m: map<string, EntityInfo>, k: string, v: EntityInfo)
    requires forall x :: x in keys ==> x in m
    requires k !in keys
    ensures SumCounts(keys, m[k := v]) == SumCounts(keys, m)
  {
    if keys != [] {
      SumCountsSame(keys[..|keys| - 1], m, k, v);
    }
  }

  /** The counts add up to the number of mentions. */
  lemma {:induction false} CollectSum(ks: seq<string>, ms: seq<Entity>)
    requires |ks| == |ms|
    ensures SumCounts(Collect(ks, ms).keys, Collect(ks, ms).m) == |ms|
  {
    if ms != [] {
      CollectSum(ks[..|ks| - 1], ms[..|ms| - 1]);
      AddMentionSum(Collect(ks[..|ks| - 1], ms[..|ms| - 1]), ks[|ks| - 1], ms[|ms| - 1]);
    }
  }

  /** One more mention adds one to the total count. */
  lemma AddMentionSum(d: Dict<string, EntityInfo>, key: string, e: Entity)
    requires d.Valid()
    ensures SumCounts(AddMention(d, key, e).keys, AddMention(d, key, e).m) == SumCounts(d.keys, d.m) + 1
  {
    if key in d.m {
      SumCountsUpdate(d.keys, d.m, key, d.m[key].(count := d.m[key].count + 1));
    } else {
      var keys' := d.keys + [key];
      assert keys'[..|keys'| - 1] == d.keys;
      SumCountsSame(d.keys, d.m, key, EntityInfo(e.text, e.entityType, 1));
    }
  }

  /** `get_unique_entities` keys its records by the distinct normalised names
      in order of first mention; each record counts every mention of its
      name, takes text and type from the first, and the counts add up to the
      number of mentions. */
  lemma UniqueOfFacts(ms: seq<Entity>, key: string)
    ensures UniqueOf(ms).keys == Dedup(Names(ms))
    ensures key in UniqueOf(ms).m <==> key in Names(ms)
    ensures key in UniqueOf(ms).m ==>
      UniqueOf(ms).m[key].count == Count(Names(ms), key) &&
      UniqueOf(ms).m[key].originalName == ms[FirstIndex(Names(ms), key)].text &&
      UniqueOf(ms).m[key].entityType == ms[FirstIndex(Names(ms), key)].entityType
    ensures SumCounts(UniqueOf(ms).keys, UniqueOf(ms).m) == |ms|
  {
    var ks := Names(ms);
    CollectKeys(ks, ms);
    CollectCount(ks, ms, key);
    if key in ks { CollectFirst(ks, ms, key); }
    CollectSum(ks, ms);
  }
}
