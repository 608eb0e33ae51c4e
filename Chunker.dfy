/** `DocumentChunker`: sentences packed greedily into chunks of about
    `chunk_size` characters, each new chunk starting with a suffix of the
    previous one at least `overlap` characters long, with page numbers from
    character boundaries and the entities of the page found in the chunk. */
module Chunker {
  import opened Strings
  import Ner

  /** One chunk record. */
  datatype Chunk = Chunk(chunkId: string, text: string, docId: string, page: int,
                         chunkIndex: nat, charCount: nat, entities: seq<string>)

  // ---------------------------------------------------------------------
  // Sentence splitting: the split points are the whitespace runs after
  // '.', '!' or '?' that are followed by a capital letter
  // ---------------------------------------------------------------------

  predicate IsTerminal(c: char) { c == '.' || c == '!' || c == '?' }

  /** The text splits at `p`: `s[p - 1]` ends a sentence and the whitespace
      run starting at `p`, taken whole, is followed by a capital letter. */
  predicate SplitsAt(s: string, p: nat) {
    1 <= p < |s| && IsTerminal(s[p - 1]) && IsSpace(s[p]) &&
    var q := p + LeadingSpaces(s[p..]); q < |s| && IsUpper(s[q])
  }

  /** The whitespace run of a split point lies inside the text and is
      followed by a capital letter. */
  lemma SplitRun(s: string, p: nat)
    requires SplitsAt(s, p)
    ensures var q := p + LeadingSpaces(s[p..]);
      1 <= p < q < |s| && IsUpper(s[q]) && forall k :: p <= k < q ==> IsSpace(s[k])
  {
    LeadingSpacesAreSpaces(s[p..]);
    assert forall k :: p <= k < p + LeadingSpaces(s[p..]) ==> s[k] == s[p..][k - p];
  }

  /** The first split point at or after `i`, with the end of its whitespace
      run; `None` exactly when there is none. */
  function NextBoundary(s: string, i: nat): (b: Option<(nat, nat)>)
    ensures b.Some? ==>
      i <= b.value.0 && SplitsAt(s, b.value.0) && b.value.1 == b.value.0 + LeadingSpaces(s[b.value.0..])
    ensures b.Some? ==> forall p :: i <= p < b.value.0 ==> !SplitsAt(s, p)
    ensures b.None? ==> forall p :: i <= p ==> !SplitsAt(s, p)
    decreases |s| - i
  {
    if i >= |s| then None
    else if SplitsAt(s, i) then Some((i, i + LeadingSpaces(s[i..])))
    else NextBoundary(s, i + 1)
  }

  /** `re.split` at every split point. */
  function SplitPieces(s: string): (ps: seq<string>)
    ensures ps != []
    decreases |s|
  {
    var b := NextBoundary(s, 1);
    if b.None? then [s] else [s[..b.value.0]] + SplitPieces(s[b.value.1..])
  }

  /** The whitespace runs the split removes, in order. */
  function Gaps(s: string): (gs: seq<string>)
    ensures |gs| == |SplitPieces(s)| - 1
    decreases |s|
  {
    var b := NextBoundary(s, 1);
    if b.None? then [] else [s[b.value.0..b.value.1]] + Gaps(s[b.value.1..])
  }

  /** `ps[0] + gs[0] + ps[1] + gs[1] + ... + ps[|gs|]` */
  function Interleave(ps: seq<string>, gs: seq<string>): string
    requires |ps| == |gs| + 1
  {
    if gs == [] then ps[0] else ps[0] + gs[0] + Interleave(ps[1..], gs[1..])
  }

  lemma InterleaveCons(p: string, g: string, ps: seq<string>, gs: seq<string>)
    requires |ps| == |gs| + 1
    ensures Interleave([p] + ps, [g] + gs) == p + g + Interleave(ps, gs)
  {
    assert ([p] + ps)[1..] == ps && ([g] + gs)[1..] == gs;
  }

  /** Putting the removed whitespace runs back between the pieces gives the
      text back. */
  lemma {:induction false} SplitPiecesJoin(s: string)
    ensures Interleave(SplitPieces(s), Gaps(s)) == s
    decreases |s|
  {
    var b := NextBoundary(s, 1);
    if b.Some? {
      var p, q := b.value.0, b.value.1;
      var ps, gs := SplitPieces(s[q..]), Gaps(s[q..]);
      SplitPiecesJoin(s[q..]);
      assert SplitPieces(s) == [s[..p]] + ps;
      assert Gaps(s) == [s[p..q]] + gs;
      InterleaveCons(s[..p], s[p..q], ps, gs);
      assert s == s[..p] + s[p..q] + s[q..];
    }
  }

  /** Every run the split removes is non-empty whitespace. */
  lemma {:induction false} GapsSpaces(s: string)
    ensures forall g :: g in Gaps(s) ==> g != [] && forall k :: 0 <= k < |g| ==> IsSpace(g[k])
    decreases |s|
  {
    var b := NextBoundary(s, 1);
    if b.Some? {
      var p, q := b.value.0, b.value.1;
      GapsSpaces(s[q..]);
      SplitRun(s, p);
      assert Gaps(s) == [s[p..q]] + Gaps(s[q..]);
      assert forall k :: 0 <= k < q - p ==> s[p..q][k] == s[p + k];
    }
  }

  /** A string with no split point in it. */
  predicate Unsplit(p: string) { forall m :: 0 <= m < |p| ==> !SplitsAt(p, m) }

  /** A whitespace run that stops inside a prefix is the run of the whole. */
  lemma {:induction false} LeadingSpacesPrefix(t: string, k: nat)
    requires k <= |t| && LeadingSpaces(t[..k]) < k
    ensures LeadingSpaces(t) == LeadingSpaces(t[..k])
  {
    assert t[..k][0] == t[0];
    if IsSpace(t[0]) {
      assert t[..k][1..] == t[1..][..k - 1];
      LeadingSpacesPrefix(t[1..], k - 1);
    }
  }

  /** A split point of a prefix is a split point of the whole text. */
  lemma PrefixSplitsAt(s: string, p: nat, m: nat)
    requires m < p <= |s|
    ensures SplitsAt(s[..p], m) ==> SplitsAt(s, m)
  {
    var t := s[..p];
    if SplitsAt(t, m) {
      assert t[m - 1] == s[m - 1] && t[m] == s[m];
      var n := LeadingSpaces(t[m..]);
      assert t[m..] == s[m..][..p - m];
      LeadingSpacesPrefix(s[m..], p - m);
      assert t[m + n] == s[m + n];
    }
  }

  /** The text before the first split point holds none. */
  lemma FirstPieceUnsplit(s: string)
    requires NextBoundary(s, 1).Some?
    ensures Unsplit(s[..NextBoundary(s, 1).value.0])
  {
    var p := NextBoundary(s, 1).value.0;
    forall m | 0 <= m < p ensures !SplitsAt(s[..p], m) {
      PrefixSplitsAt(s, p, m);
    }
  }

  /** No piece holds a split point. */
  lemma {:induction false} SplitPiecesUnsplit(s: string)
    ensures forall p :: p in SplitPieces(s) ==> Unsplit(p)
    decreases |s|
  {
    var b := NextBoundary(s, 1);
    if b.Some? {
      SplitPiecesUnsplit(s[b.value.1..]);
      FirstPieceUnsplit(s);
    }
  }

  /** The first piece is a prefix of the text, non-empty when the text is. */
  lemma FirstPiece(s: string)
    ensures var f := SplitPieces(s)[0];
      |f| <= |s| && f == s[..|f|] && (s != [] ==> f != [])
  {
  }

  predicate EndsSentence(p: string) { p != [] && IsTerminal(p[|p| - 1]) }

  predicate StartsSentence(p: string) { p != [] && IsUpper(p[0]) }

  /** Every piece but the last ends a sentence, and every piece but the
      first starts with a capital letter. */
  predicate SentenceShaped(ps: seq<string>) {
    (forall k :: 0 <= k < |ps| - 1 ==> EndsSentence(ps[k])) &&
    (forall k :: 0 < k < |ps| ==> StartsSentence(ps[k]))
  }

  lemma SentenceShapedCons(first: string, rest: seq<string>)
    requires EndsSentence(first) && rest != [] && StartsSentence(rest[0]) && SentenceShaped(rest)
    ensures SentenceShaped([first] + rest)
  {
    var ps := [first] + rest;
    assert forall k :: 0 < k < |ps| ==> ps[k] == rest[k - 1];
  }

  lemma {:induction false} SplitPiecesShape(s: string)
    ensures SentenceShaped(SplitPieces(s))
    decreases |s|
  {
    var b := NextBoundary(s, 1);
    if b.Some? {
      var p := b.value.0;
      var q := b.value.1;
      var rest := SplitPieces(s[q..]);
      SplitRun(s, p);
      SplitPiecesShape(s[q..]);
      FirstPiece(s[q..]);
      assert rest[0][0] == s[q];
      assert EndsSentence(s[..p]);
      SentenceShapedCons(s[..p], rest);
    }
  }

  /** `[s.strip() for s in pieces if s.strip()]` */
  function StripNonBlank(ps: seq<string>): (r: seq<string>)
    ensures |r| <= |ps|
  {
    if ps == [] then []
    else StripNonBlank(ps[..|ps| - 1]) + (if Strip(ps[|ps| - 1]) != [] then [Strip(ps[|ps| - 1])] else [])
  }

  /** A non-empty string with no whitespace at either end. */
  predicate Trimmed(p: string) { p != [] && !IsSpace(p[0]) && !IsSpace(p[|p| - 1]) }

  /** The kept sentences are non-empty and carry no surrounding whitespace. */
  lemma {:induction false} StripNonBlankFacts(ps: seq<string>)
    ensures forall p :: p in StripNonBlank(ps) ==> Trimmed(p)
  {
    if ps != [] {
      var last := ps[|ps| - 1];
      StripNonBlankFacts(ps[..|ps| - 1]);
      StripFacts(last);
      assert Strip(last) != [] ==> Trimmed(Strip(last));
    }
  }

  /** `_split_into_sentences` */
  function SplitSentences(text: string): seq<string> {
    StripNonBlank(SplitPieces(text))
  }

  // ---------------------------------------------------------------------
  // Overlap, ids, pages, entities
  // ---------------------------------------------------------------------

  lemma {:induction false} TotalLengthConcat(a: seq<string>, b: seq<string>)
    ensures TotalLength(a + b) == TotalLength(a) + TotalLength(b)
  {
    if a != [] {
      TotalLengthConcat(a[1..], b);
      assert (a + b)[1..] == a[1..] + b;
    } else {
      assert a + b == b;
    }
  }

  /** The sentences taken from the end of `xs` while fewer than `budget`
      characters have been taken. */
  function Overlap(xs: seq<string>, budget: int): seq<string> {
    if budget <= 0 || xs == [] then []
    else Overlap(xs[..|xs| - 1], budget - |xs[|xs| - 1]|) + [xs[|xs| - 1]]
  }

  /** The loop of `_get_overlap_sentences` has taken the sentences from `k`
      on, `chars` characters in all, and the rest of the overlap comes from
      the sentences before `k` with what is left of the budget. */
  ghost predicate OverlapFrom(xs: seq<string>, budget: int, k: nat, taken: seq<string>, chars: int)
    requires k <= |xs|
  {
    taken == xs[k..] && chars == TotalLength(taken) &&
    Overlap(xs, budget) == Overlap(xs[..k], budget - chars) + taken
  }

  lemma OverlapFromStart(xs: seq<string>, budget: int)
    ensures OverlapFrom(xs, budget, |xs|, [], 0)
  {
    assert xs[..|xs|] == xs && xs[|xs|..] == [];
    ConcatAssoc(Overlap(xs, budget), [], []);
  }

  lemma OverlapFromStep(xs: seq<string>, budget: int, k: nat, taken: seq<string>, chars: int, taken': seq<string>, chars': int)
    requires 0 < k <= |xs| && OverlapFrom(xs, budget, k, taken, chars) && chars < budget
    requires taken' == [xs[k - 1]] + taken && chars' == chars + |xs[k - 1]|
    ensures OverlapFrom(xs, budget, k - 1, taken', chars')
  {
    assert xs[..k][..k - 1] == xs[..k - 1];
    assert xs[k - 1..] == [xs[k - 1]] + xs[k..];
    ConcatAssoc(Overlap(xs[..k - 1], budget - chars - |xs[k - 1]|), [xs[k - 1]], taken);
  }

  lemma OverlapFromDone(xs: seq<string>, budget: int, k: nat, taken: seq<string>, chars: int)
    requires k <= |xs| && OverlapFrom(xs, budget, k, taken, chars) && (k == 0 || chars >= budget)
    ensures Overlap(xs, budget) == taken
  {
    assert [] + taken == taken;
  }

  lemma {:induction false} OverlapSuffix(xs: seq<string>, budget: int)
    ensures var r := Overlap(xs, budget);
      |r| <= |xs| && r == xs[|xs| - |r|..]
  {
    if budget > 0 && xs != [] {
      var pre := xs[..|xs| - 1];
      OverlapSuffix(pre, budget - |xs[|xs| - 1]|);
      assert xs == pre + [xs[|xs| - 1]];
    }
  }

  lemma {:induction false} OverlapReaches(xs: seq<string>, budget: int)
    ensures var r := Overlap(xs, budget);
      (TotalLength(r) >= budget || r == xs) && (r != [] ==> TotalLength(r[1..]) < budget)
  {
    if budget > 0 && xs != [] {
      var pre := xs[..|xs| - 1];
      var last := xs[|xs| - 1];
      var r0 := Overlap(pre, budget - |last|);
      OverlapReaches(pre, budget - |last|);
      var r := r0 + [last];
      assert Overlap(xs, budget) == r;
      TotalLengthConcat(r0, [last]);
      assert TotalLength([last]) == |last|;
      if r0 == pre {
        assert xs == pre + [last];
      }
      if r0 != [] {
        assert r[1..] == r0[1..] + [last];
        TotalLengthConcat(r0[1..], [last]);
      } else {
        assert r[1..] == [];
      }
    }
  }

  /** The overlap is the shortest suffix reaching `budget` characters, or all
      of `xs` when no suffix does. */
  lemma OverlapFacts(xs: seq<string>, budget: int)
    ensures var r := Overlap(xs, budget);
      |r| <= |xs| && r == xs[|xs| - |r|..] &&
      (TotalLength(r) >= budget || r == xs) &&
      (r != [] ==> TotalLength(r[1..]) < budget)
  {
    OverlapSuffix(xs, budget);
    OverlapReaches(xs, budget);
  }

  /** `_generate_chunk_id` */
  function ChunkId(docId: string, chunkIdx: nat): string {
    docId + "_chunk_" + NatToString(chunkIdx)
  }

  /** `_get_page_number`: page 1 without boundaries; otherwise the first
      1-based page whose boundary lies after the position, else the last. */
  function PageOf(position: int, boundaries: seq<int>): (page: int)
    ensures boundaries == [] ==> page == 1
    ensures boundaries != [] ==>
      1 <= page <= |boundaries| &&
      (forall k :: 0 <= k < page - 1 ==> position >= boundaries[k]) &&
      (position < boundaries[page - 1] || (page == |boundaries| && position >= boundaries[page - 1]))
  {
    if boundaries == [] then 1 else PageFrom(position, boundaries, 0)
  }

  function PageFrom(position: int, boundaries: seq<int>, k: nat): (page: int)
    requires k < |boundaries|
    requires forall i :: 0 <= i < k ==> position >= boundaries[i]
    ensures k < page <= |boundaries|
    ensures forall i :: 0 <= i < page - 1 ==> position >= boundaries[i]
    ensures position < boundaries[page - 1] || (page == |boundaries| && position >= boundaries[page - 1])
    decreases |boundaries| - k
  {
    if position < boundaries[k] then k + 1
    else if k + 1 == |boundaries| then |boundaries|
    else PageFrom(position, boundaries, k + 1)
  }

  /** `str.find`: the first index where `needle` starts, or -1. */
  function Find(haystack: string, needle: string): (r: int)
    ensures -1 <= r <= |haystack|
    ensures r >= 0 ==> StartsWith(haystack[r..], needle)
    ensures r == -1 <==> !Contains(haystack, needle)
    ensures forall k :: 0 <= k < r ==> !StartsWith(haystack[k..], needle)
  {
    if StartsWith(haystack, needle) then 0
    else if haystack == [] then -1
    else
      var r := Find(haystack[1..], needle);
      assert forall k :: 1 <= k <= |haystack| ==> haystack[k..] == haystack[1..][k - 1..];
      if r < 0 then -1 else r + 1
  }

  /** `_extract_entities_from_chunk`: the entities, in order, whose lowercase
      form occurs in the lowercased chunk. */
  function EntitiesIn(chunkText: string, available: seq<string>): (found: seq<string>)
    ensures |found| <= |available|
    ensures forall e :: e in found <==> e in available && Contains(Lower(chunkText), Lower(e))
  {
    if available == [] then []
    else
      var e := available[|available| - 1];
      assert available == available[..|available| - 1] + [e];
      EntitiesIn(chunkText, available[..|available| - 1]) + (if Contains(Lower(chunkText), Lower(e)) then [e] else [])
  }

  /** `entities_per_page.get(page_num, [])`; a missing mapping behaves as
      an empty one. */
  function PageEntities(entitiesPerPage: map<int, seq<string>>, page: int): seq<string> {
    if page in entitiesPerPage then entitiesPerPage[page] else []
  }

  /** The record of the chunk made of `group`, the `idx`-th chunk. */
  function MakeChunk(text: string, docId: string, boundaries: seq<int>, entitiesPerPage: map<int, seq<string>>,
                     group: seq<string>, idx: nat): Chunk
  {
    var chunkText := Join(" ", group);
    var page := PageOf(Find(text, chunkText), boundaries);
    Chunk(ChunkId(docId, idx), chunkText, docId, page, idx, |chunkText|,
          EntitiesIn(chunkText, PageEntities(entitiesPerPage, page)))
  }

  function ChunksOf(text: string, docId: string, boundaries: seq<int>, entitiesPerPage: map<int, seq<string>>,
                    groups: seq<seq<string>>): (cs: seq<Chunk>)
    ensures |cs| == |groups|
  {
    seq(|groups|, i requires 0 <= i < |groups| => MakeChunk(text, docId, boundaries, entitiesPerPage, groups[i], i))
  }

  lemma ChunksOfSnoc(text: string, docId: string, boundaries: seq<int>, entitiesPerPage: map<int, seq<string>>,
                     groups: seq<seq<string>>, g: seq<string>)
    ensures ChunksOf(text, docId, boundaries, entitiesPerPage, groups + [g]) ==
            ChunksOf(text, docId, boundaries, entitiesPerPage, groups) + [MakeChunk(text, docId, boundaries, entitiesPerPage, g, |groups|)]
  {
  }

  // ---------------------------------------------------------------------
  // Packing sentences into chunks
  // ---------------------------------------------------------------------

  /** The loop state: the sentence groups of the chunks saved so far and
      the sentences of the chunk being filled. */
  datatype Packing = Packing(closed: seq<seq<string>>, current: seq<string>)

  /** One turn of the loop: save the current chunk when it is non-empty and
      the sentence would take it past `chunkSize`, restarting from its
      overlap; then add the sentence. */
  function PackStep(st: Packing, sentence: string, chunkSize: int, overlap: int): Packing {
    if TotalLength(st.current) + |sentence| > chunkSize && st.current != []
    then Packing(st.closed + [st.current], Overlap(st.current, overlap) + [sentence])
    else Packing(st.closed, st.current + [sentence])
  }

  function Pack(sentences: seq<string>, chunkSize: int, overlap: int): Packing {
    if sentences == [] then Packing([], [])
    else PackStep(Pack(sentences[..|sentences| - 1], chunkSize, overlap), sentences[|sentences| - 1], chunkSize, overlap)
  }

  /** After `k` sentences the loop of `chunk_document` holds the packing's
      current group and the chunks of its closed groups. */
  ghost predicate Chunked(text: string, docId: string, boundaries: seq<int>, entitiesPerPage: map<int, seq<string>>,
                          sentences: seq<string>, k: nat, chunkSize: int, overlap: int, chunks: seq<Chunk>, current: seq<string>)
    requires k <= |sentences|
  {
    var st := Pack(sentences[..k], chunkSize, overlap);
    st.current == current && chunks == ChunksOf(text, docId, boundaries, entitiesPerPage, st.closed)
  }

  lemma ChunkedStep(text: string, docId: string, boundaries: seq<int>, entitiesPerPage: map<int, seq<string>>,
                    sentences: seq<string>, k: nat, chunkSize: int, overlap: int,
                    chunks: seq<Chunk>, current: seq<string>, chunks': seq<Chunk>, current': seq<string>)
    requires k < |sentences|
    requires Chunked(text, docId, boundaries, entitiesPerPage, sentences, k, chunkSize, overlap, chunks, current)
    requires TotalLength(current) + |sentences[k]| > chunkSize && current != [] ==>
      chunks' == chunks + [MakeChunk(text, docId, boundaries, entitiesPerPage, current, |chunks|)] &&
      current' == Overlap(current, overlap) + [sentences[k]]
    requires !(TotalLength(current) + |sentences[k]| > chunkSize && current != []) ==>
      chunks' == chunks && current' == current + [sentences[k]]
    ensures Chunked(text, docId, boundaries, entitiesPerPage, sentences, k + 1, chunkSize, overlap, chunks', current')
  {
    var before := Pack(sentences[..k], chunkSize, overlap);
    PrefixStep(sentences, k);
    assert Pack(sentences[..k + 1], chunkSize, overlap) == PackStep(before, sentences[k], chunkSize, overlap);
    ChunksOfSnoc(text, docId, boundaries, entitiesPerPage, before.closed, current);
  }

  /** Once every sentence is packed, the chunks of all groups are the loop's
      chunks and, when non-empty, the chunk of its current group. */
  lemma ChunkedDone(text: string, docId: string, boundaries: seq<int>, entitiesPerPage: map<int, seq<string>>,
                    sentences: seq<string>, chunkSize: int, overlap: int, chunks: seq<Chunk>, current: seq<string>)
    requires Chunked(text, docId, boundaries, entitiesPerPage, sentences, |sentences|, chunkSize, overlap, chunks, current)
    ensures ChunksOf(text, docId, boundaries, entitiesPerPage, Groups(sentences, chunkSize, overlap)) ==
      if current != [] then chunks + [MakeChunk(text, docId, boundaries, entitiesPerPage, current, |chunks|)] else chunks
  {
    PrefixAll(sentences);
    var st := Pack(sentences, chunkSize, overlap);
    ChunksOfSnoc(text, docId, boundaries, entitiesPerPage, st.closed, current);
    assert st.closed + [] == st.closed;
  }

  /** The sentence groups of all chunks `chunk_document` returns. */
  function Groups(sentences: seq<string>, chunkSize: int, overlap: int): seq<seq<string>> {
    GroupsOf(Pack(sentences, chunkSize, overlap))
  }

  /** `h` was started from `g`: it begins with the overlap of `g`, then the
      sentence that did not fit into `g`. */
  predicate Follows(g: seq<string>, h: seq<string>, chunkSize: int, overlap: int) {
    var ov := Overlap(g, overlap);
    |ov| < |h| && h[..|ov|] == ov && TotalLength(g) + |h[|ov|]| > chunkSize
  }

  ghost predicate PackInv(st: Packing, seen: seq<string>, chunkSize: int, overlap: int) {
    (forall i :: 0 <= i < |st.closed| ==> st.closed[i] != []) &&
    (forall i :: 0 <= i < |st.closed| - 1 ==> Follows(st.closed[i], st.closed[i + 1], chunkSize, overlap)) &&
    (st.closed != [] ==> Follows(st.closed[|st.closed| - 1], st.current, chunkSize, overlap)) &&
    (seen != [] <==> st.current != []) &&
    (forall x :: x in seen ==> x in st.current || exists i :: 0 <= i < |st.closed| && x in st.closed[i])
  }

  lemma PackStepInv(st: Packing, seen: seq<string>, x: string, chunkSize: int, overlap: int, st': Packing, seen': seq<string>)
    requires PackInv(st, seen, chunkSize, overlap)
    requires st' == PackStep(st, x, chunkSize, overlap) && seen' == seen + [x]
    ensures PackInv(st', seen', chunkSize, overlap)
  {
    if TotalLength(st.current) + |x| > chunkSize && st.current != [] {
      PackCloseInv(st, seen, x, chunkSize, overlap);
    } else {
      PackAddInv(st, seen, x, chunkSize, overlap);
    }
  }

  /** Saving the current chunk keeps the invariant. */
  lemma PackCloseInv(st: Packing, seen: seq<string>, x: string, chunkSize: int, overlap: int)
    requires PackInv(st, seen, chunkSize, overlap)
    requires TotalLength(st.current) + |x| > chunkSize && st.current != []
    ensures PackInv(Packing(st.closed + [st.current], Overlap(st.current, overlap) + [x]), seen + [x], chunkSize, overlap)
  {
    var ov := Overlap(st.current, overlap);
    var st' := Packing(st.closed + [st.current], ov + [x]);
    assert st'.current[..|ov|] == ov;
    assert st'.closed[|st'.closed| - 1] == st.current;
    PackCloseCover(st, seen, x, overlap);
  }

  /** After saving, every sentence seen lies in a saved or the new group. */
  lemma PackCloseCover(st: Packing, seen: seq<string>, x: string, overlap: int)
    requires forall y :: y in seen ==> y in st.current || exists i :: 0 <= i < |st.closed| && y in st.closed[i]
    ensures var st' := Packing(st.closed + [st.current], Overlap(st.current, overlap) + [x]);
      forall y :: y in seen + [x] ==> y in st'.current || exists i :: 0 <= i < |st'.closed| && y in st'.closed[i]
  {
    var st' := Packing(st.closed + [st.current], Overlap(st.current, overlap) + [x]);
    forall y | y in seen + [x]
      ensures y in st'.current || exists i :: 0 <= i < |st'.closed| && y in st'.closed[i]
    {
      if y != x && y in st.current {
        assert y in st'.closed[|st.closed|];
      } else if y != x {
        var i :| 0 <= i < |st.closed| && y in st.closed[i];
        assert y in st'.closed[i];
      }
    }
  }

  /** Adding a sentence to the current chunk keeps the invariant. */
  lemma PackAddInv(st: Packing, seen: seq<string>, x: string, chunkSize: int, overlap: int)
    requires PackInv(st, seen, chunkSize, overlap)
    ensures PackInv(Packing(st.closed, st.current + [x]), seen + [x], chunkSize, overlap)
  {
    if st.closed != [] {
      var ov := Overlap(st.closed[|st.closed| - 1], overlap);
      assert (st.current + [x])[..|ov|] == st.current[..|ov|];
    }
  }

  /** The part of `h` after the overlap carried over from `g`. */
  function Fresh(g: seq<string>, h: seq<string>, overlap: int): seq<string> {
    var k := |Overlap(g, overlap)|;
    if k <= |h| then h[k..] else []
  }

  /** The sentences the groups brought in: the first group whole, then each
      later group without the overlap it starts with. */
  function Unfolded(gs: seq<seq<string>>, overlap: int): seq<string> {
    if |gs| <= 1 then (if gs == [] then [] else gs[0])
    else Unfolded(gs[..|gs| - 1], overlap) + Fresh(gs[|gs| - 2], gs[|gs| - 1], overlap)
  }

  /** The groups of a packing: the closed ones and the current one if any. */
  function GroupsOf(st: Packing): seq<seq<string>> {
    st.closed + (if st.current != [] then [st.current] else [])
  }

  /** A group appended to a non-empty list adds its fresh part. */
  lemma UnfoldedSnoc(gs: seq<seq<string>>, h: seq<string>, overlap: int)
    requires gs != []
    ensures Unfolded(gs + [h], overlap) == Unfolded(gs, overlap) + Fresh(gs[|gs| - 1], h, overlap)
  {
    assert (gs + [h])[..|gs|] == gs;
  }

  /** Starting a group from the overlap of the last one adds exactly the
      new sentence. */
  lemma UnfoldedClose(gs: seq<seq<string>>, x: string, overlap: int)
    requires gs != []
    ensures Unfolded(gs + [Overlap(gs[|gs| - 1], overlap) + [x]], overlap) == Unfolded(gs, overlap) + [x]
  {
    var ov := Overlap(gs[|gs| - 1], overlap);
    UnfoldedSnoc(gs, ov + [x], overlap);
    assert (ov + [x])[|ov|..] == [x];
  }

  lemma FreshAdd(g: seq<string>, h: seq<string>, x: string, overlap: int)
    requires |Overlap(g, overlap)| <= |h|
    ensures Fresh(g, h + [x], overlap) == Fresh(g, h, overlap) + [x]
  {
    var k := |Overlap(g, overlap)|;
    assert (h + [x])[k..] == h[k..] + [x];
  }

  /** Adding a sentence to the last group adds exactly that sentence. */
  lemma UnfoldedAdd(gs: seq<seq<string>>, h: seq<string>, x: string, overlap: int)
    requires gs != [] && |Overlap(gs[|gs| - 1], overlap)| <= |h|
    ensures Unfolded(gs + [h + [x]], overlap) == Unfolded(gs + [h], overlap) + [x]
  {
    UnfoldedSnoc(gs, h + [x], overlap);
    UnfoldedSnoc(gs, h, overlap);
    FreshAdd(gs[|gs| - 1], h, x, overlap);
  }

  /** Saving the current chunk adds exactly the new sentence. */
  lemma PackCloseUnfolds(st: Packing, seen: seq<string>, x: string, overlap: int)
    requires st.current != [] && Unfolded(GroupsOf(st), overlap) == seen
    ensures Unfolded(GroupsOf(Packing(st.closed + [st.current], Overlap(st.current, overlap) + [x])), overlap) == seen + [x]
  {
    var gs := st.closed + [st.current];
    assert gs[|gs| - 1] == st.current;
    UnfoldedClose(gs, x, overlap);
  }

  /** A current group after a saved one is longer than the overlap it
      starts with. */
  predicate Opens(st: Packing, overlap: int) {
    st.closed != [] ==> |Overlap(st.closed[|st.closed| - 1], overlap)| < |st.current|
  }

  lemma PackOpens(sentences: seq<string>, chunkSize: int, overlap: int)
    ensures Opens(Pack(sentences, chunkSize, overlap), overlap)
  {
    var st := Pack(sentences, chunkSize, overlap);
    PackFacts(sentences, chunkSize, overlap);
    if st.closed != [] {
      assert Follows(st.closed[|st.closed| - 1], st.current, chunkSize, overlap);
    }
  }

  /** Adding a sentence to the current chunk adds exactly that sentence. */
  lemma PackAddUnfolds(st: Packing, seen: seq<string>, x: string, overlap: int)
    requires Opens(st, overlap) && Unfolded(GroupsOf(st), overlap) == seen
    ensures Unfolded(GroupsOf(Packing(st.closed, st.current + [x])), overlap) == seen + [x]
  {
    if st.closed == [] {
      assert GroupsOf(Packing(st.closed, st.current + [x])) == [st.current + [x]];
      assert st.current != [] ==> GroupsOf(st) == [st.current];
    } else {
      UnfoldedAdd(st.closed, st.current, x, overlap);
    }
  }

  /** One turn of the loop adds exactly its sentence to what the groups
      bring in. */
  lemma PackStepUnfolds(st: Packing, seen: seq<string>, x: string, chunkSize: int, overlap: int)
    requires Opens(st, overlap) && Unfolded(GroupsOf(st), overlap) == seen
    ensures Unfolded(GroupsOf(PackStep(st, x, chunkSize, overlap)), overlap) == seen + [x]
  {
    if TotalLength(st.current) + |x| > chunkSize && st.current != [] {
      PackCloseUnfolds(st, seen, x, overlap);
    } else {
      PackAddUnfolds(st, seen, x, overlap);
    }
  }

  /** Dropping from each chunk after the first the overlap it starts with,
      and concatenating, gives back the sentences in order: every sentence
      is packed once, and nothing else is. */
  lemma {:induction false} GroupsRejoin(sentences: seq<string>, chunkSize: int, overlap: int)
    ensures Unfolded(Groups(sentences, chunkSize, overlap), overlap) == sentences
  {
    if sentences != [] {
      var pre := sentences[..|sentences| - 1];
      var x := sentences[|sentences| - 1];
      var st := Pack(pre, chunkSize, overlap);
      GroupsRejoin(pre, chunkSize, overlap);
      PackOpens(pre, chunkSize, overlap);
      PackStepUnfolds(st, pre, x, chunkSize, overlap);
      assert Pack(sentences, chunkSize, overlap) == PackStep(st, x, chunkSize, overlap);
      PrefixStep(sentences, |sentences| - 1);
      PrefixAll(sentences);
    }
  }

  lemma {:induction false} PackFacts(sentences: seq<string>, chunkSize: int, overlap: int)
    ensures PackInv(Pack(sentences, chunkSize, overlap), sentences, chunkSize, overlap)
  {
    if sentences != [] {
      var pre := sentences[..|sentences| - 1];
      PackFacts(pre, chunkSize, overlap);
      assert sentences == pre + [sentences[|sentences| - 1]];
      PackStepInv(Pack(pre, chunkSize, overlap), pre, sentences[|sentences| - 1], chunkSize, overlap,
                  Pack(sentences, chunkSize, overlap), sentences);
    }
  }

  /** Every chunk has sentences; each chunk after the first starts with the
      overlap of the previous one followed by the sentence that would have
      taken the previous one past `chunk_size`; every sentence lands in some
      chunk; and there are no chunks exactly when there are no sentences. */
  lemma GroupsFacts(sentences: seq<string>, chunkSize: int, overlap: int)
    ensures var gs := Groups(sentences, chunkSize, overlap);
      (forall i :: 0 <= i < |gs| ==> gs[i] != []) &&
      (forall i :: 0 <= i < |gs| - 1 ==> Follows(gs[i], gs[i + 1], chunkSize, overlap)) &&
      (forall x :: x in sentences ==> exists i :: 0 <= i < |gs| && x in gs[i]) &&
      (gs == [] <==> sentences == [])
  {
    PackFacts(sentences, chunkSize, overlap);
    GroupsChain(Pack(sentences, chunkSize, overlap), sentences, chunkSize, overlap);
    GroupsCover(Pack(sentences, chunkSize, overlap), sentences, chunkSize, overlap);
  }

  /** The groups of a packing are non-empty, each following the one before. */
  lemma GroupsChain(st: Packing, sentences: seq<string>, chunkSize: int, overlap: int)
    requires PackInv(st, sentences, chunkSize, overlap)
    ensures var gs := st.closed + (if st.current != [] then [st.current] else []);
      (forall i :: 0 <= i < |gs| ==> gs[i] != []) &&
      (forall i :: 0 <= i < |gs| - 1 ==> Follows(gs[i], gs[i + 1], chunkSize, overlap)) &&
      (gs == [] <==> sentences == [])
  {
    var gs := st.closed + (if st.current != [] then [st.current] else []);
    if st.current != [] {
      forall i | 0 <= i < |gs| - 1 ensures Follows(gs[i], gs[i + 1], chunkSize, overlap) {
        if i < |st.closed| - 1 {
          assert gs[i] == st.closed[i] && gs[i + 1] == st.closed[i + 1];
        } else {
          assert gs[i] == st.closed[|st.closed| - 1] && gs[i + 1] == st.current;
        }
      }
    }
  }

  /** Every sentence packed lies in one of the groups. */
  lemma GroupsCover(st: Packing, sentences: seq<string>, chunkSize: int, overlap: int)
    requires PackInv(st, sentences, chunkSize, overlap)
    ensures var gs := st.closed + (if st.current != [] then [st.current] else []);
      forall x :: x in sentences ==> exists i :: 0 <= i < |gs| && x in gs[i]
  {
    var gs := st.closed + (if st.current != [] then [st.current] else []);
    forall x | x in sentences ensures exists i :: 0 <= i < |gs| && x in gs[i] {
      if x in st.current {
        assert x in gs[|st.closed|];
      } else {
        var i :| 0 <= i < |st.closed| && x in st.closed[i];
        assert x in gs[i];
      }
    }
  }

  /** The chunks are numbered 0, 1, 2, ... with ids `<doc_id>_chunk_<i>`; a
      chunk's text is its sentences joined by single spaces, its character
      count that text's length, its page within the boundaries, and its
      entities are among those listed for its page. */
  lemma ChunkFacts(text: string, docId: string, boundaries: seq<int>, entitiesPerPage: map<int, seq<string>>,
                   groups: seq<seq<string>>, i: nat)
    requires i < |groups| && groups[i] != []
    ensures var c := ChunksOf(text, docId, boundaries, entitiesPerPage, groups)[i];
      c.chunkIndex == i && c.chunkId == docId + "_chunk_" + NatToString(i) && c.docId == docId &&
      c.text == Join(" ", groups[i]) &&
      c.charCount == |c.text| == TotalLength(groups[i]) + |groups[i]| - 1 &&
      1 <= c.page <= (if boundaries == [] then 1 else |boundaries|) &&
      forall e :: e in c.entities ==> e in PageEntities(entitiesPerPage, c.page)
  {
    JoinLength(" ", groups[i]);
  }

  /** Whether an entity span meets the chunk span `[start, start + len)`. */
  predicate Overlaps(chunkStart: int, chunkEnd: int, e: Ner.Entity) {
    (chunkStart <= e.start < chunkEnd) || (chunkStart < e.end <= chunkEnd) ||
    (e.start <= chunkStart && e.end >= chunkEnd)
  }

  /** The entity texts `chunk_with_entities` assigns to a chunk. */
  function SpanEntities(text: string, chunkText: string, entities: seq<Ner.Entity>): set<string> {
    SpanTexts(entities, Find(text, chunkText), Find(text, chunkText) + |chunkText|)
  }

  function SpanTexts(entities: seq<Ner.Entity>, chunkStart: int, chunkEnd: int): set<string> {
    set e | e in entities && Overlaps(chunkStart, chunkEnd, e) :: e.text
  }

  /** The chunks of `text` without page boundaries or page entities. */
  function PlainChunks(text: string, docId: string, chunkSize: int, overlap: int): seq<Chunk> {
    ChunksOf(text, docId, [], map[], Groups(SplitSentences(text), chunkSize, overlap))
  }

  /** `c` is chunk `p` with its entities replaced by the distinct texts of
      the entities whose span meets the chunk's span. */
  ghost predicate Tagged(c: Chunk, p: Chunk, text: string, entities: seq<Ner.Entity>) {
    c == p.(entities := c.entities) && Distinct(c.entities) &&
    forall x :: x in c.entities <==> x in SpanEntities(text, p.text, entities)
  }

  /** The configured chunker; its settings never change. */
  class DocumentChunker {
    const chunkSize: int
    const overlap: int

    constructor(chunkSize: int, overlap: int)
      ensures this.chunkSize == chunkSize && this.overlap == overlap
    {
      this.chunkSize := chunkSize;
      this.overlap := overlap;
    }

    /** `_get_overlap_sentences` */
    method OverlapSentences(sentences: seq<string>) returns (overlapSentences: seq<string>)
      ensures overlapSentences == Overlap(sentences, overlap)
    {
      var overlapChars := 0;
      overlapSentences := [];
      var k := |sentences|;
      OverlapFromStart(sentences, overlap);
      while k > 0
        invariant 0 <= k <= |sentences|
        invariant OverlapFrom(sentences, overlap, k, overlapSentences, overlapChars)
      {
        if overlapChars >= overlap {
          break;
        }
        var sentence := sentences[k - 1];
        OverlapFromStep(sentences, overlap, k, overlapSentences, overlapChars, [sentence] + overlapSentences, overlapChars + |sentence|);
        overlapSentences := [sentence] + overlapSentences;
        overlapChars := overlapChars + |sentence|;
        k := k - 1;
      }
      OverlapFromDone(sentences, overlap, k, overlapSentences, overlapChars);
    }

    /** `_get_page_number` */
    method PageNumber(charPosition: int, pageBoundaries: seq<int>) returns (page: int)
      ensures page == PageOf(charPosition, pageBoundaries)
    {
      if pageBoundaries == [] {
        return 1;
      }
      var k := 0;
      while k < |pageBoundaries|
        invariant 0 <= k <= |pageBoundaries|
        invariant forall i :: 0 <= i < k ==> charPosition >= pageBoundaries[i]
        invariant k < |pageBoundaries| ==> PageFrom(charPosition, pageBoundaries, k) == PageOf(charPosition, pageBoundaries)
      {
        if charPosition < pageBoundaries[k] {
          return k + 1;
        }
        k := k + 1;
      }
      return |pageBoundaries|;
    }

    /** `_extract_entities_from_chunk` */
    method ExtractEntitiesFromChunk(chunkText: string, availableEntities: seq<string>) returns (foundEntities: seq<string>)
      ensures foundEntities == EntitiesIn(chunkText, availableEntities)
    {
      var chunkLower := Lower(chunkText);
      foundEntities := [];
      var k := 0;
      while k < |availableEntities|
        invariant 0 <= k <= |availableEntities|
        invariant foundEntities == EntitiesIn(chunkText, availableEntities[..k])
      {
        PrefixStep(availableEntities, k);
        if Contains(chunkLower, Lower(availableEntities[k])) {
          foundEntities := foundEntities + [availableEntities[k]];
        }
        k := k + 1;
      }
      PrefixAll(availableEntities);
    }

    method SaveChunk(text: string, docId: string, pageBoundaries: seq<int>, entitiesPerPage: map<int, seq<string>>,
                     group: seq<string>, chunkIdx: nat) returns (chunk: Chunk)
      ensures chunk == MakeChunk(text, docId, pageBoundaries, entitiesPerPage, group, chunkIdx)
    {
      var chunkText := Join(" ", group);
      var chunkId := ChunkId(docId, chunkIdx);
      var pageNum := PageNumber(Find(text, chunkText), pageBoundaries);
      var chunkEntities := ExtractEntitiesFromChunk(chunkText, PageEntities(entitiesPerPage, pageNum));
      chunk := Chunk(chunkId, chunkText, docId, pageNum, chunkIdx, |chunkText|, chunkEntities);
    }

    /** `chunk_document`; absent boundaries or page entities are passed as
        empty ones, which the source treats alike. */
    method ChunkDocument(text: string, docId: string, pageBoundaries: seq<int>, entitiesPerPage: map<int, seq<string>>)
      returns (chunks: seq<Chunk>)
      ensures chunks == ChunksOf(text, docId, pageBoundaries, entitiesPerPage,
                                 Groups(SplitSentences(text), chunkSize, overlap))
    {
      var sentences := SplitSentences(text);
      chunks := [];
      var currentChunk: seq<string> := [];
      var currentLength := 0;
      var chunkIdx := 0;
      var k := 0;
      while k < |sentences|
        invariant 0 <= k <= |sentences|
        invariant Chunked(text, docId, pageBoundaries, entitiesPerPage, sentences, k, chunkSize, overlap, chunks, currentChunk)
        invariant currentLength == TotalLength(currentChunk)
        invariant chunkIdx == |chunks|
      {
        ghost var chunks0, current0 := chunks, currentChunk;
        chunks, currentChunk, currentLength, chunkIdx :=
          AddSentence(text, docId, pageBoundaries, entitiesPerPage, chunks, currentChunk, currentLength, chunkIdx, sentences[k]);
        ChunkedStep(text, docId, pageBoundaries, entitiesPerPage, sentences, k, chunkSize, overlap,
                    chunks0, current0, chunks, currentChunk);
        k := k + 1;
      }
      ChunkedDone(text, docId, pageBoundaries, entitiesPerPage, sentences, chunkSize, overlap, chunks, currentChunk);
      if currentChunk != [] {
        var chunk := SaveChunk(text, docId, pageBoundaries, entitiesPerPage, currentChunk, chunkIdx);
        chunks := chunks + [chunk];
      }
    }

    /** One turn of the loop of `chunk_document`: when the sentence would take
        a non-empty chunk past `chunk_size`, save that chunk and restart from
        its overlap; then add the sentence. */
    method AddSentence(text: string, docId: string, pageBoundaries: seq<int>, entitiesPerPage: map<int, seq<string>>,
                       chunks: seq<Chunk>, currentChunk: seq<string>, currentLength: int, chunkIdx: nat, sentence: string)
      returns (chunks': seq<Chunk>, currentChunk': seq<string>, currentLength': int, chunkIdx': nat)
      requires currentLength == TotalLength(currentChunk) && chunkIdx == |chunks|
      ensures currentLength' == TotalLength(currentChunk') && chunkIdx' == |chunks'|
      ensures currentLength + |sentence| > chunkSize && currentChunk != [] ==>
        chunks' == chunks + [MakeChunk(text, docId, pageBoundaries, entitiesPerPage, currentChunk, |chunks|)] &&
        currentChunk' == Overlap(currentChunk, overlap) + [sentence]
      ensures !(currentLength + |sentence| > chunkSize && currentChunk != []) ==>
        chunks' == chunks && currentChunk' == currentChunk + [sentence]
    {
      chunks', currentChunk', currentLength', chunkIdx' := chunks, currentChunk, currentLength, chunkIdx;
      var sentenceLength := |sentence|;
      if currentLength' + sentenceLength > chunkSize && currentChunk' != [] {
        var chunk := SaveChunk(text, docId, pageBoundaries, entitiesPerPage, currentChunk', chunkIdx');
        chunks' := chunks' + [chunk];
        var overlapSentences := OverlapSentences(currentChunk');
        currentChunk' := overlapSentences;
        currentLength' := TotalLength(currentChunk');
        chunkIdx' := chunkIdx' + 1;
      }
      TotalLengthConcat(currentChunk', [sentence]);
      assert TotalLength([sentence]) == sentenceLength;
      currentChunk' := currentChunk' + [sentence];
      currentLength' := currentLength' + sentenceLength;
    }

    /** `list(s)` of a set: its elements in some order. */
    method ListOf(s: set<string>) returns (r: seq<string>)
      ensures Distinct(r) && forall x :: x in r <==> x in s
    {
      r := [];
      var rest := s;
      while rest != {}
        invariant rest <= s && Distinct(r)
        invariant forall x :: x in r <==> x in s && x !in rest
        decreases |rest|
      {
        var x :| x in rest;
        r := r + [x];
        rest := rest - {x};
      }
    }

    /** The texts of the entities meeting one chunk's span. */
    method OverlappingEntities(chunkStart: int, chunkEnd: int, entities: seq<Ner.Entity>) returns (chunkEntities: set<string>)
      ensures chunkEntities == SpanTexts(entities, chunkStart, chunkEnd)
    {
      chunkEntities := {};
      var j := 0;
      while j < |entities|
        invariant 0 <= j <= |entities|
        invariant chunkEntities == SpanTexts(entities[..j], chunkStart, chunkEnd)
      {
        var entity := entities[j];
        PrefixStep(entities, j);
        if Overlaps(chunkStart, chunkEnd, entity) {
          chunkEntities := chunkEntities + {entity.text};
        }
        j := j + 1;
      }
      PrefixAll(entities);
    }

    /** `chunk_with_entities`: the chunks of the text, each given the texts
        of the entities whose span meets the chunk's span (the chunk's span
        starts where its text is first found). The grouping by start
        position the source computes first is never read. */
    method ChunkWithEntities(text: string, docId: string, entities: seq<Ner.Entity>) returns (chunks: seq<Chunk>)
      ensures |chunks| == |PlainChunks(text, docId, chunkSize, overlap)|
      ensures forall i :: 0 <= i < |chunks| ==> Tagged(chunks[i], PlainChunks(text, docId, chunkSize, overlap)[i], text, entities)
    {
      var plain := ChunkDocument(text, docId, [], map[]);
      chunks := TagAll(text, plain, entities);
    }

    /** The loop of `chunk_with_entities` over the chunks. */
    method TagAll(text: string, plain: seq<Chunk>, entities: seq<Ner.Entity>) returns (chunks: seq<Chunk>)
      ensures |chunks| == |plain|
      ensures forall i :: 0 <= i < |chunks| ==> Tagged(chunks[i], plain[i], text, entities)
    {
      chunks := [];
      var k := 0;
      while k < |plain|
        invariant 0 <= k <= |plain| && |chunks| == k
        invariant forall i :: 0 <= i < k ==> Tagged(chunks[i], plain[i], text, entities)
      {
        var tagged := TagChunk(text, plain[k], entities);
        chunks := chunks + [tagged];
        k := k + 1;
      }
    }

    /** One turn of the loop of `chunk_with_entities`. */
    method TagChunk(text: string, chunk: Chunk, entities: seq<Ner.Entity>) returns (tagged: Chunk)
      ensures Tagged(tagged, chunk, text, entities)
    {
      var chunkStart := Find(text, chunk.text);
      var chunkEnd := chunkStart + |chunk.text|;
      var chunkEntities := OverlappingEntities(chunkStart, chunkEnd, entities);
      var listed := ListOf(chunkEntities);
      tagged := chunk.(entities := listed);
    }
  }
}
