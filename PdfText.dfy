/** `PDFProcessor`: the text of a PDF split into sentences (whitespace
    normalised, missing spaces after full stops restored, split after
    sentence punctuation, pieces of a plausible length kept), and the
    record `process_pdfs` makes for each file. Reading the PDF is not part
    of this model: its text, or the failure to read it, and its metadata
    are inputs. */
module PdfText {
  import opened Strings

  const MinSentenceLength := 10
  const MaxSentenceLength := 1000

  // ---------------------------------------------------------------------
  // Whitespace normalisation: re.sub(r'\s+', ' ', text)
  // ---------------------------------------------------------------------

  /** Every whitespace character is a plain space, and no two are adjacent. */
  predicate SingleSpaced(s: string) {
    forall i :: 0 <= i < |s| && IsSpace(s[i]) ==> s[i] == ' ' && (i + 1 == |s| || !IsSpace(s[i + 1]))
  }

  /** Each maximal run of whitespace replaced by one space. */
  function Normalize(s: string): (r: string)
    ensures SingleSpaced(r)
    ensures s == [] <==> r == []
    ensures s != [] ==> (IsSpace(r[0]) <==> IsSpace(s[0])) && (!IsSpace(s[0]) ==> r[0] == s[0])
    ensures |r| <= |s|
    decreases |s|
  {
    if s == [] then []
    else if IsSpace(s[0]) then
      var t := s[LeadingSpaces(s)..];
      var rest := Normalize(t);
      assert forall i :: 1 <= i < |[' '] + rest| ==> ([' '] + rest)[i] == rest[i - 1];
      [' '] + rest
    else
      var rest := Normalize(s[1..]);
      assert forall i :: 1 <= i < |[s[0]] + rest| ==> ([s[0]] + rest)[i] == rest[i - 1];
      [s[0]] + rest
  }

  /** Text that is already single-spaced is left as it is. */
  lemma {:induction false} NormalizeIdempotent(s: string)
    requires SingleSpaced(s)
    ensures Normalize(s) == s
    decreases |s|
  {
    if s != [] {
      assert SingleSpaced(s[1..]) by {
        forall i | 0 <= i < |s[1..]| && IsSpace(s[1..][i])
          ensures s[1..][i] == ' ' && (i + 1 == |s[1..]| || !IsSpace(s[1..][i + 1]))
        {
          assert s[1..][i] == s[i + 1];
        }
      }
      if IsSpace(s[0]) {
        assert |s| == 1 || !IsSpace(s[1]);
        assert LeadingSpaces(s) == 1 by {
          if |s| > 1 { assert s[1..][0] == s[1]; }
        }
      }
      NormalizeIdempotent(s[1..]);
    }
  }

  // ---------------------------------------------------------------------
  // Missing spaces: re.sub(r'([a-z])\.([A-Z])', r'\1. \2', text)
  // ---------------------------------------------------------------------

  /** A small letter, a full stop and a capital letter start at `i`. */
  predicate GlueAt(s: string, i: nat) {
    i + 3 <= |s| && IsLower(s[i]) && s[i + 1] == '.' && IsUpper(s[i + 2])
  }

  /** The substitution, left to right over non-overlapping matches. */
  function FixPeriods(s: string): (r: string)
    ensures |r| >= |s|
    ensures s != [] ==> r[0] == s[0]
    ensures |s| >= 2 && !GlueAt(s, 0) ==> r[1] == s[1]
    ensures |s| <= 2 ==> r == s
    decreases |s|
  {
    if s == [] then []
    else if GlueAt(s, 0) then s[..2] + " " + [s[2]] + FixPeriods(s[3..])
    else
      var rest := FixPeriods(s[1..]);
      [s[0]] + rest
  }

  /** A match in `r` past a prefix of length `k` is a match in the rest. */
  lemma GlueShift(r: string, rest: string, k: nat, i: nat)
    requires k <= |r| && r[k..] == rest && k <= i
    ensures GlueAt(r, i) <==> GlueAt(rest, i - k)
  {
    if i + 3 <= |r| {
      assert r[i] == rest[i - k] && r[i + 1] == rest[i - k + 1] && r[i + 2] == rest[i - k + 2];
    }
  }

  /** After the substitution no full stop sits between a small and a capital
      letter. */
  lemma {:induction false} FixPeriodsComplete(s: string)
    ensures forall i :: !GlueAt(FixPeriods(s), i)
    decreases |s|
  {
    if s != [] {
      var r := FixPeriods(s);
      if GlueAt(s, 0) {
        var rest := FixPeriods(s[3..]);
        FixPeriodsComplete(s[3..]);
        var head := s[..2] + " " + [s[2]];
        assert r == head + rest;
        forall i: nat ensures !GlueAt(r, i) {
          if i >= 4 {
            GlueShift(r, rest, 4, i);
          } else if i == 3 {
            assert r[3] == s[2];
          } else if i == 2 {
            assert r[3] == s[2] && r[2] == ' ';
          } else if i == 1 {
            assert r[2] == ' ';
          } else {
            assert r[2] == ' ';
          }
        }
      } else {
        var rest := FixPeriods(s[1..]);
        FixPeriodsComplete(s[1..]);
        assert r == [s[0]] + rest;
        forall i: nat ensures !GlueAt(r, i) {
          if i >= 1 {
            GlueShift(r, rest, 1, i);
          } else if |s| <= 2 {
            assert |r| <= 2;
          } else if GlueAt(s[1..], 0) {
            assert r[1] == s[1..][0] == s[1];
          } else {
            assert r[1] == s[1] && r[2] == rest[1] == s[1..][1] == s[2];
          }
        }
      }
    }
  }

  /** Text without such a place is left as it is. */
  lemma {:induction false} FixPeriodsIdentity(s: string)
    requires forall i :: !GlueAt(s, i)
    ensures FixPeriods(s) == s
    decreases |s|
  {
    if s != [] {
      assert !GlueAt(s, 0);
      assert forall i: nat :: !GlueAt(s[1..], i) by {
        forall i: nat | i + 3 <= |s[1..]| ensures !GlueAt(s[1..], i) {
          assert !GlueAt(s, i + 1);
          assert s[1..][i] == s[i + 1] && s[1..][i + 1] == s[i + 2] && s[1..][i + 2] == s[i + 3];
        }
      }
      FixPeriodsIdentity(s[1..]);
    }
  }

  /** The substitution inserts only plain spaces between non-space
      characters, so single-spaced text stays single-spaced. */
  lemma {:induction false} FixPeriodsSingleSpaced(s: string)
    requires SingleSpaced(s)
    ensures SingleSpaced(FixPeriods(s))
    decreases |s|
  {
    if s != [] {
      var r := FixPeriods(s);
      if GlueAt(s, 0) {
        var t := s[3..];
        assert SingleSpaced(t) by {
          forall i | 0 <= i < |t| && IsSpace(t[i]) ensures t[i] == ' ' && (i + 1 == |t| || !IsSpace(t[i + 1])) {
            assert t[i] == s[i + 3];
          }
        }
        FixPeriodsSingleSpaced(t);
        var rest := FixPeriods(t);
        assert r == s[..2] + " " + [s[2]] + rest;
        forall i | 0 <= i < |r| && IsSpace(r[i]) ensures r[i] == ' ' && (i + 1 == |r| || !IsSpace(r[i + 1])) {
          if i >= 4 {
            assert r[i] == rest[i - 4];
            if i + 1 < |r| { assert r[i + 1] == rest[i - 3]; }
          } else {
            assert r[0] == s[0] && r[1] == '.' && r[2] == ' ' && r[3] == s[2];
          }
        }
      } else {
        var t := s[1..];
        assert SingleSpaced(t) by {
          forall i | 0 <= i < |t| && IsSpace(t[i]) ensures t[i] == ' ' && (i + 1 == |t| || !IsSpace(t[i + 1])) {
            assert t[i] == s[i + 1];
          }
        }
        FixPeriodsSingleSpaced(t);
        var rest := FixPeriods(t);
        assert r == [s[0]] + rest;
        forall i | 0 <= i < |r| && IsSpace(r[i]) ensures r[i] == ' ' && (i + 1 == |r| || !IsSpace(r[i + 1])) {
          if i >= 1 {
            assert r[i] == rest[i - 1];
            if i + 1 < |r| { assert r[i + 1] == rest[i]; }
          } else if |r| > 1 {
            assert r[1] == rest[0] == t[0] == s[1];
          }
        }
      }
    }
  }

  // ---------------------------------------------------------------------
  // Splitting: re.split(r'(?<=[.!?])\s+', text)
  // ---------------------------------------------------------------------

  predicate IsTerminal(c: char) { c == '.' || c == '!' || c == '?' }

  /** A non-empty piece ending with sentence punctuation. */
  predicate EndsSentence(p: string) { p != [] && IsTerminal(p[|p| - 1]) }

  /** Whitespace at `k` follows sentence punctuation. */
  predicate SplitsAt(s: string, k: nat) {
    1 <= k < |s| && IsTerminal(s[k - 1]) && IsSpace(s[k])
  }

  /** The first split point at or after `i`: the whitespace run `s[k..j]`. */
  function NextSplit(s: string, i: nat): (b: Option<(nat, nat)>)
    ensures b.Some? ==>
      var k, j := b.value.0, b.value.1;
      i <= k < j <= |s| && SplitsAt(s, k) && (forall m :: k <= m < j ==> IsSpace(s[m])) &&
      (j == |s| || !IsSpace(s[j])) && (forall m :: i <= m < k ==> !SplitsAt(s, m))
    ensures b.None? ==> forall m :: i <= m ==> !SplitsAt(s, m)
    decreases |s| - i
  {
    if i >= |s| then None
    else if SplitsAt(s, i) then
      var j := i + LeadingSpaces(s[i..]);
      LeadingSpacesAreSpaces(s[i..]);
      assert forall m :: i <= m < j ==> s[m] == s[i..][m - i];
      assert j < |s| ==> s[j] == s[i..][j - i];
      assert s[i..][0] == s[i];
      Some((i, j))
    else NextSplit(s, i + 1)
  }

  /** The pieces between split points. */
  function Pieces(s: string): (ps: seq<string>)
    ensures ps != []
    decreases |s|
  {
    var b := NextSplit(s, 0);
    if b.None? then [s] else [s[..b.value.0]] + Pieces(s[b.value.1..])
  }

  /** No piece holds a split point. */
  predicate Unsplit(p: string) { forall m: nat :: m < |p| ==> !SplitsAt(p, m) }

  /** Every piece but the last ends with sentence punctuation. */
  lemma {:induction false} PiecesEndSentences(s: string)
    ensures forall i :: 0 <= i < |Pieces(s)| - 1 ==> EndsSentence(Pieces(s)[i])
    decreases |s|
  {
    var ps := Pieces(s);
    var b := NextSplit(s, 0);
    if b.Some? {
      var k, j := b.value.0, b.value.1;
      var rest := Pieces(s[j..]);
      PiecesEndSentences(s[j..]);
      assert ps == [s[..k]] + rest;
      assert s[..k][k - 1] == s[k - 1];
      forall i | 0 <= i < |ps| - 1 ensures EndsSentence(ps[i]) {
        if i > 0 {
          assert ps[i] == rest[i - 1];
        } else {
          assert ps[0] == s[..k];
        }
      }
    }
  }

  /** The text before the first split point holds none. */
  lemma FirstPieceUnsplit(s: string)
    requires NextSplit(s, 0).Some?
    ensures Unsplit(s[..NextSplit(s, 0).value.0])
  {
    var k := NextSplit(s, 0).value.0;
    forall m: nat | m < k ensures !SplitsAt(s[..k], m) {
      if SplitsAt(s[..k], m) {
        assert s[..k][m - 1] == s[m - 1] && s[..k][m] == s[m];
        assert SplitsAt(s, m);
      }
    }
  }

  /** No piece holds a place where the text splits. */
  lemma {:induction false} PiecesUnsplit(s: string)
    ensures forall p :: p in Pieces(s) ==> Unsplit(p)
    decreases |s|
  {
    var b := NextSplit(s, 0);
    if b.Some? {
      var k, j := b.value.0, b.value.1;
      PiecesUnsplit(s[j..]);
      FirstPieceUnsplit(s);
      assert Pieces(s) == [s[..k]] + Pieces(s[j..]);
    } else {
      assert Unsplit(s);
    }
  }

  /** On single-spaced text, joining the pieces with spaces gives the text
      back. */
  lemma {:induction false} PiecesJoin(s: string)
    requires SingleSpaced(s)
    ensures Join(" ", Pieces(s)) == s
    decreases |s|
  {
    var b := NextSplit(s, 0);
    if b.Some? {
      var k, j := b.value.0, b.value.1;
      assert IsSpace(s[k]);
      assert k + 1 == |s| || !IsSpace(s[k + 1]);
      assert j == k + 1;
      var t := s[j..];
      SliceSingleSpaced(s, j, |s|);
      assert t == s[j..|s|];
      PiecesJoin(t);
      var rest := Pieces(t);
      assert Pieces(s) == [s[..k]] + rest;
      assert Join(" ", Pieces(s)) == s[..k] + " " + Join(" ", rest);
      assert s == s[..k] + [s[k]] + t;
    }
  }

  // ---------------------------------------------------------------------
  // Sentences
  // ---------------------------------------------------------------------

  predicate InRange(p: string) { MinSentenceLength <= |p| <= MaxSentenceLength }

  /** `[s.strip() for s in pieces if 10 <= len(s) <= 1000]` */
  function KeepSentences(ps: seq<string>): (r: seq<string>)
    ensures |r| <= |ps|
    ensures forall x :: x in r ==> exists p :: p in ps && InRange(p) && x == Strip(p)
    ensures forall p :: p in ps && InRange(p) ==> Strip(p) in r
  {
    if ps == [] then []
    else
      var rest := KeepSentences(ps[1..]);
      assert forall p :: p in ps[1..] ==> p in ps;
      assert forall p :: p in ps ==> p == ps[0] || p in ps[1..];
      if InRange(ps[0]) then [Strip(ps[0])] + rest else rest
  }

  /** The kept sentences follow the order of the pieces. */
  lemma {:induction false} KeepSentencesSnoc(ps: seq<string>, p: string)
    ensures KeepSentences(ps + [p]) == KeepSentences(ps) + (if InRange(p) then [Strip(p)] else [])
  {
    if ps != [] {
      assert (ps + [p])[1..] == ps[1..] + [p];
      KeepSentencesSnoc(ps[1..], p);
    } else {
      assert [] + [p] == [p];
    }
  }

  /** The text as it is split: whitespace normalised, then full stops fixed. */
  function Prepared(text: string): string {
    FixPeriods(Normalize(text))
  }

  /** `split_into_sentences` */
  function SplitIntoSentences(text: string): seq<string> {
    KeepSentences(Pieces(Prepared(text)))
  }

  /** A slice of single-spaced text is single-spaced. */
  lemma SliceSingleSpaced(s: string, a: nat, b: nat)
    requires a <= b <= |s| && SingleSpaced(s)
    ensures SingleSpaced(s[a..b])
  {
    var t := s[a..b];
    forall m | 0 <= m < |t| && IsSpace(t[m]) ensures t[m] == ' ' && (m + 1 == |t| || !IsSpace(t[m + 1])) {
      assert t[m] == s[a + m];
      if m + 1 < |t| { assert t[m + 1] == s[a + m + 1]; }
    }
  }

  /** The pieces of single-spaced text are single-spaced. */
  lemma {:induction false} PiecesSingleSpaced(s: string)
    requires SingleSpaced(s)
    ensures forall p :: p in Pieces(s) ==> SingleSpaced(p)
    decreases |s|
  {
    var b := NextSplit(s, 0);
    if b.Some? {
      var k, j := b.value.0, b.value.1;
      SliceSingleSpaced(s, 0, k);
      SliceSingleSpaced(s, j, |s|);
      assert s[j..] == s[j..|s|] && s[..k] == s[0..k];
      PiecesSingleSpaced(s[j..]);
    }
  }

  /** Stripping single-spaced text removes at most one space at each end,
      and keeps it single-spaced. */
  lemma StripSingleSpaced(p: string)
    requires SingleSpaced(p)
    ensures SingleSpaced(Strip(p)) && |p| - 2 <= |Strip(p)| <= |p|
  {
    var e := RightEnd(p);
    RightEndSpaces(p);
    if |p| >= 2 { assert IsSpace(p[|p| - 2]) ==> !IsSpace(p[|p| - 1]); }
    assert e >= |p| - 1;
    SliceSingleSpaced(p, 0, e);
    var q := p[..e];
    assert q == p[0..e];
    var l := LeadingSpaces(q);
    LeadingSpacesAreSpaces(q);
    if |q| >= 2 { assert IsSpace(q[0]) ==> !IsSpace(q[1]); }
    assert l <= 1;
    SliceSingleSpaced(q, l, |q|);
    assert q[l..] == q[l..|q|];
  }

  /** Every sentence is a stripped piece of the prepared text that was 10 to
      1000 characters long, so it is 8 to 1000 characters long and has no
      runs of whitespace and no newlines; every such piece gives a sentence,
      and no sentence holds a split point. */
  lemma SentencesFacts(text: string)
    ensures var ps := Pieces(Prepared(text));
      forall x :: x in SplitIntoSentences(text) ==>
        && SingleSpaced(x) && '\n' !in x
        && MinSentenceLength - 2 <= |x| <= MaxSentenceLength
        && exists p :: p in ps && InRange(p) && x == Strip(p)
    ensures forall p :: p in Pieces(Prepared(text)) && InRange(p) ==> Strip(p) in SplitIntoSentences(text)
  {
    var n := Normalize(text);
    FixPeriodsSingleSpaced(n);
    PiecesSingleSpaced(Prepared(text));
    var ps := Pieces(Prepared(text));
    forall x | x in SplitIntoSentences(text)
      ensures SingleSpaced(x) && '\n' !in x && MinSentenceLength - 2 <= |x| <= MaxSentenceLength
    {
      var p :| p in ps && InRange(p) && x == Strip(p);
      StripSingleSpaced(p);
      if '\n' in x {
        var m :| 0 <= m < |x| && x[m] == '\n';
        assert IsSpace(x[m]);
      }
    }
  }

  // ---------------------------------------------------------------------
  // process_pdfs
  // ---------------------------------------------------------------------

  /** What reading one file gives: its text, or the message of the error. */
  datatype TextOutcome = Text(text: string) | Unreadable(message: string)

  datatype PdfRecord =
    | Processed(filename: string, text: string, sentences: seq<string>,
                metadata: map<string, string>, sentenceCount: nat, charCount: nat)
    | Failed(filename: string, error: string)

  /** `Path(p).name`: the last component, trailing separators ignored. */
  function FileName(path: string): (r: string)
    ensures '/' !in r
    decreases |path|
  {
    if path == [] then []
    else if path[|path| - 1] == '/' then FileName(path[..|path| - 1])
    else AfterLastSlash(path)
  }

  /** The text after the last '/'. */
  function AfterLastSlash(s: string): (r: string)
    ensures |r| <= |s| && '/' !in r && r == s[|s| - |r|..]
    ensures |r| < |s| ==> s[|s| - |r| - 1] == '/'
  {
    if s == [] || s[|s| - 1] == '/' then []
    else AfterLastSlash(s[..|s| - 1]) + [s[|s| - 1]]
  }

  /** The record for one file. */
  function RecordFor(path: string, outcome: TextOutcome, metadata: map<string, string>): PdfRecord {
    match outcome
    case Text(text) =>
      var sentences := SplitIntoSentences(text);
      Processed(FileName(path), text, sentences, metadata, |sentences|, |text|)
    case Unreadable(message) =>
      Failed(FileName(path), "Failed to extract text from PDF: " + message)
  }

  /** A record fails exactly when the file cannot be read; a processed
      record's counts are those of its sentences and text. */
  lemma RecordForFacts(path: string, outcome: TextOutcome, metadata: map<string, string>)
    ensures var r := RecordFor(path, outcome, metadata);
      && r.filename == FileName(path)
      && (r.Failed? <==> outcome.Unreadable?)
      && (r.Processed? ==>
            && r.text == outcome.text && r.sentenceCount == |r.sentences| && r.charCount == |r.text|
            && r.sentences == SplitIntoSentences(outcome.text) && r.metadata == metadata)
      && (r.Failed? ==> StartsWith(r.error, "Failed to extract text from PDF: "))
  {
    var prefix := "Failed to extract text from PDF: ";
    if outcome.Unreadable? {
      assert (prefix + outcome.message)[..|prefix|] == prefix;
    }
  }

  /** The body of the `process_pdfs` loop for one path. */
  method ProcessPdf(path: string, extractText: string -> TextOutcome,
                    extractMetadata: string -> map<string, string>)
    returns (record: PdfRecord)
    ensures record == RecordFor(path, extractText(path), extractMetadata(path))
  {
    var outcome := extractText(path);
    match outcome {
      case Text(text) =>
        var sentences := SplitIntoSentences(text);
        var metadata := extractMetadata(path);
        record := Processed(FileName(path), text, sentences, metadata, |sentences|, |text|);
      case Unreadable(message) =>
        record := Failed(FileName(path), "Failed to extract text from PDF: " + message);
    }
  }

  /** `process_pdfs`: one record per path, in order. Reading the text and
      the metadata of a path are the functions `extractText` and
      `extractMetadata`. */
  method ProcessPdfs(pdfPaths: seq<string>, extractText: string -> TextOutcome,
                     extractMetadata: string -> map<string, string>)
    returns (results: seq<PdfRecord>)
    ensures |results| == |pdfPaths|
    ensures forall i :: 0 <= i < |pdfPaths| ==>
      results[i] == RecordFor(pdfPaths[i], extractText(pdfPaths[i]), extractMetadata(pdfPaths[i]))
  {
    results := [];
    var i := 0;
    while i < |pdfPaths|
      invariant 0 <= i <= |pdfPaths| && |results| == i
      invariant forall k :: 0 <= k < i ==>
        results[k] == RecordFor(pdfPaths[k], extractText(pdfPaths[k]), extractMetadata(pdfPaths[k]))
    {
      var record := ProcessPdf(pdfPaths[i], extractText, extractMetadata);
      results := results + [record];
      i := i + 1;
    }
  }
}
