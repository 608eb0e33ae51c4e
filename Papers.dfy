/** The paper bookkeeping of `AgenticAIService`: the de-duplication of search
    results by PubMed id or title, the per-query search budget, and the caps
    on the papers an autonomous research run and a related-papers search
    keep. The searches themselves and the language-model calls around them
    are not part of this model; their results are inputs here. */
module Papers {
  import opened Strings
  import GraphBuild

  /** A paper record: its `pmid` and `title` ("" when missing) and its
      other fields. */
  datatype Paper = Paper(pmid: string, title: string, details: map<string, string>)

  /** The pmids and title keys recorded so far. */
  datatype Seen = Seen(pmids: set<string>, titles: set<string>)

  /** `paper.get("title", "").lower().strip()` */
  function TitleKey(p: Paper): string {
    Strip(Lower(p.title))
  }

  /** The first branch: a non-empty pmid not seen before. */
  predicate ByPmid(s: Seen, p: Paper) {
    p.pmid != "" && p.pmid !in s.pmids
  }

  /** The second branch: a non-empty title key not seen before. */
  predicate ByTitle(s: Seen, p: Paper) {
    TitleKey(p) != "" && TitleKey(p) !in s.titles
  }

  /** One iteration: the first branch records the pmid, otherwise the
      second records the title key. */
  function Next(s: Seen, p: Paper): Seen {
    if ByPmid(s, p) then s.(pmids := s.pmids + {p.pmid})
    else if ByTitle(s, p) then s.(titles := s.titles + {TitleKey(p)})
    else s
  }

  /** The sets after the papers `ps`. */
  function SeenAfter(ps: seq<Paper>): Seen {
    if ps == [] then Seen({}, {}) else Next(SeenAfter(ps[..|ps| - 1]), ps[|ps| - 1])
  }

  /** The `i`-th paper is appended to the output. */
  predicate Keeps(ps: seq<Paper>, i: nat)
    requires i < |ps|
  {
    ByPmid(SeenAfter(ps[..i]), ps[i]) || ByTitle(SeenAfter(ps[..i]), ps[i])
  }

  /** `_deduplicate_papers` as written. */
  function Deduplicated(ps: seq<Paper>): seq<Paper> {
    if ps == [] then []
    else
      var pre, p := ps[..|ps| - 1], ps[|ps| - 1];
      Deduplicated(pre) + (if ByPmid(SeenAfter(pre), p) || ByTitle(SeenAfter(pre), p) then [p] else [])
  }

  /** `r` is `s` with some elements left out, in order. */
  predicate SubsequenceOf<T(==)>(r: seq<T>, s: seq<T>) {
    if s == [] then r == []
    else SubsequenceOf(r, s[..|s| - 1]) ||
         (r != [] && r[|r| - 1] == s[|s| - 1] && SubsequenceOf(r[..|r| - 1], s[..|s| - 1]))
  }

  lemma DedupStep(ps: seq<Paper>, i: nat)
    requires i < |ps|
    ensures SeenAfter(ps[..i + 1]) == Next(SeenAfter(ps[..i]), ps[i])
    ensures Deduplicated(ps[..i + 1]) == Deduplicated(ps[..i]) + (if Keeps(ps, i) then [ps[i]] else [])
  {
    PrefixStep(ps, i);
  }

  /** The loop of `_deduplicate_papers`, over two sets and the output list. */
  method DeduplicatePapers(papers: seq<Paper>) returns (unique: seq<Paper>)
    ensures unique == Deduplicated(papers)
  {
    var seenPmids: set<string> := {};
    var seenTitles: set<string> := {};
    unique := [];
    var i := 0;
    while i < |papers|
      invariant 0 <= i <= |papers|
      invariant Seen(seenPmids, seenTitles) == SeenAfter(papers[..i])
      invariant unique == Deduplicated(papers[..i])
    {
      DedupStep(papers, i);
      var paper := papers[i];
      var pmid := paper.pmid;
      var title := Strip(Lower(paper.title));
      if pmid != "" && pmid !in seenPmids {
        seenPmids := seenPmids + {pmid};
        unique := unique + [paper];
      } else if title != "" && title !in seenTitles {
        seenTitles := seenTitles + {title};
        unique := unique + [paper];
      }
      i := i + 1;
    }
    PrefixAll(papers);
  }

  /** The output is a subsequence of the input. */
  lemma {:induction false} DeduplicatedSubsequence(ps: seq<Paper>)
    ensures SubsequenceOf(Deduplicated(ps), ps)
  {
    if ps != [] {
      var pre, p := ps[..|ps| - 1], ps[|ps| - 1];
      DeduplicatedSubsequence(pre);
      var r := Deduplicated(ps);
      if ByPmid(SeenAfter(pre), p) || ByTitle(SeenAfter(pre), p) {
        assert r[..|r| - 1] == Deduplicated(pre);
      } else {
        assert r == Deduplicated(pre);
      }
    }
  }

  /** The recorded pmids are exactly the non-empty pmids met so far. */
  lemma {:induction false} SeenPmids(ps: seq<Paper>, x: string)
    ensures x in SeenAfter(ps).pmids <==> x != "" && exists i :: 0 <= i < |ps| && ps[i].pmid == x
  {
    if ps != [] {
      var pre := ps[..|ps| - 1];
      SeenPmids(pre, x);
      if x in SeenAfter(pre).pmids {
        var i :| 0 <= i < |pre| && pre[i].pmid == x;
        assert ps[i].pmid == x;
      }
      if x != "" && x !in SeenAfter(pre).pmids && x != ps[|ps| - 1].pmid {
        forall i | 0 <= i < |ps| ensures ps[i].pmid != x {
          if i < |pre| { assert ps[i] == pre[i]; }
        }
      }
    }
  }

  /** The recorded title keys only grow. */
  lemma {:induction false} TitlesGrow(ps: seq<Paper>, i: nat, j: nat)
    requires i <= j <= |ps|
    ensures SeenAfter(ps[..i]).titles <= SeenAfter(ps[..j]).titles
    decreases j - i
  {
    if i < j {
      TitlesGrow(ps, i, j - 1);
      DedupStep(ps, j - 1);
    }
  }

  /** Which papers are kept: a pmid met for the first time always is; one
      without a pmid is kept exactly when its title key is non-empty and
      not yet recorded; one with neither pmid nor title never is. */
  lemma KeepsFacts(ps: seq<Paper>, i: nat)
    requires i < |ps|
    ensures ps[i].pmid != "" && (forall j :: 0 <= j < i ==> ps[j].pmid != ps[i].pmid) ==> Keeps(ps, i)
    ensures ps[i].pmid == "" ==>
      (Keeps(ps, i) <==> TitleKey(ps[i]) != "" && TitleKey(ps[i]) !in SeenAfter(ps[..i]).titles)
    ensures ps[i].pmid == "" && TitleKey(ps[i]) == "" ==> !Keeps(ps, i)
  {
    SeenPmids(ps[..i], ps[i].pmid);
  }

  /** Papers without a pmid are de-duplicated by title key: two such papers
      that are both kept have different keys. */
  lemma TitleDeduplicated(ps: seq<Paper>, i: nat, j: nat)
    requires i < j < |ps|
    requires ps[i].pmid == "" && ps[j].pmid == "" && Keeps(ps, i) && Keeps(ps, j)
    ensures TitleKey(ps[i]) != TitleKey(ps[j])
  {
    DedupStep(ps, i);
    TitlesGrow(ps, i + 1, j);
  }

  // ---------------------------------------------------------------------
  // The pmid branch does not de-duplicate
  // ---------------------------------------------------------------------

  /** A repeated pmid falls through to the title check, so two records of
      the same paper with different titles are both kept. */
  lemma RepeatedPmidKept()
    ensures var ps := [Paper("1", "A", map[]), Paper("1", "B", map[])];
      Deduplicated(ps) == ps && Deduplicated(ps)[0].pmid == Deduplicated(ps)[1].pmid
  {
    var ps := [Paper("1", "A", map[]), Paper("1", "B", map[])];
    assert ps[..1] == [ps[0]] && [ps[0]][..0] == [];
    assert Lower("B") == "b";
    assert TitleKey(ps[1]) == "b";
  }

  /** A title kept through the pmid branch is never recorded, so a later
      record without a pmid and with the same title is kept too. */
  lemma UnrecordedTitleKept()
    ensures var ps := [Paper("1", "T", map[]), Paper("", "T", map[])];
      Deduplicated(ps) == ps && TitleKey(Deduplicated(ps)[0]) == TitleKey(Deduplicated(ps)[1])
  {
    var ps := [Paper("1", "T", map[]), Paper("", "T", map[])];
    assert ps[..1] == [ps[0]] && [ps[0]][..0] == [];
    assert Lower("T") == "t";
    assert TitleKey(ps[1]) == "t";
  }

  // ---------------------------------------------------------------------
  // De-duplication with the pmid and title checks kept apart
  // ---------------------------------------------------------------------

  /** A paper with a pmid is kept exactly when its pmid is new, and its pmid
      and title key are both recorded; a paper without one is kept when its
      title key is non-empty and new. */
  function KeepFixed(s: Seen, p: Paper): bool {
    if p.pmid != "" then p.pmid !in s.pmids else ByTitle(s, p)
  }

  function NextFixed(s: Seen, p: Paper): Seen {
    if !KeepFixed(s, p) then s
    else if p.pmid != "" then
      Seen(s.pmids + {p.pmid}, if TitleKey(p) != "" then s.titles + {TitleKey(p)} else s.titles)
    else s.(titles := s.titles + {TitleKey(p)})
  }

  /** The recorded sets and the output after the papers `ps`. */
  function RunFixed(ps: seq<Paper>): (Seen, seq<Paper>) {
    if ps == [] then (Seen({}, {}), [])
    else
      var run := RunFixed(ps[..|ps| - 1]);
      var p := ps[|ps| - 1];
      (NextFixed(run.0, p), run.1 + (if KeepFixed(run.0, p) then [p] else []))
  }

  function DeduplicatedFixed(ps: seq<Paper>): seq<Paper> {
    RunFixed(ps).1
  }

  /** No pmid occurs twice among the kept papers, and no kept paper without
      a pmid repeats the title key of an earlier kept paper. */
  ghost predicate Unique(r: seq<Paper>) {
    && (forall i, j :: 0 <= i < j < |r| && r[i].pmid != "" ==> r[i].pmid != r[j].pmid)
    && (forall i, j :: 0 <= i < j < |r| && r[j].pmid == "" ==> TitleKey(r[i]) != TitleKey(r[j]))
  }

  /** Every kept pmid and non-empty kept title key is recorded. */
  ghost predicate RecordedAll(s: Seen, r: seq<Paper>) {
    forall x :: x in r ==> (x.pmid != "" ==> x.pmid in s.pmids) && (TitleKey(x) != "" ==> TitleKey(x) in s.titles)
  }

  lemma {:induction false} RunFixedUnique(ps: seq<Paper>)
    ensures RecordedAll(RunFixed(ps).0, RunFixed(ps).1)
    ensures Unique(RunFixed(ps).1)
    ensures forall x :: x in RunFixed(ps).1 && x.pmid == "" ==> TitleKey(x) != ""
  {
    if ps != [] {
      var pre, p := ps[..|ps| - 1], ps[|ps| - 1];
      RunFixedUnique(pre);
      var (s, r) := RunFixed(pre);
      if KeepFixed(s, p) {
        var r' := r + [p];
        forall i, j | 0 <= i < j < |r'| && r'[i].pmid != "" ensures r'[i].pmid != r'[j].pmid {
          if j == |r| { assert r'[i] in r; }
        }
        forall i, j | 0 <= i < j < |r'| && r'[j].pmid == "" ensures TitleKey(r'[i]) != TitleKey(r'[j]) {
          if j == |r| { assert r'[i] in r; }
        }
        assert Unique(r');
      }
    }
  }

  /** The corrected de-duplication keeps every first occurrence of a pmid,
      drops records with neither pmid nor title, keeps a subsequence, and
      leaves no pmid or pmid-less title repeated. */
  lemma {:induction false} DeduplicatedFixedFacts(ps: seq<Paper>)
    ensures Unique(DeduplicatedFixed(ps))
    ensures SubsequenceOf(DeduplicatedFixed(ps), ps)
    ensures forall x :: x in DeduplicatedFixed(ps) ==> x.pmid != "" || TitleKey(x) != ""
    ensures forall x :: x in ps && x.pmid != "" ==> exists y :: y in DeduplicatedFixed(ps) && y.pmid == x.pmid
  {
    RunFixedUnique(ps);
    if ps != [] {
      var pre, p := ps[..|ps| - 1], ps[|ps| - 1];
      DeduplicatedFixedFacts(pre);
      var (s, r) := RunFixed(pre);
      var r' := DeduplicatedFixed(ps);
      if KeepFixed(s, p) {
        assert r'[..|r'| - 1] == r;
      } else {
        assert r' == r;
      }
      forall x | x in ps && x.pmid != "" ensures exists y :: y in r' && y.pmid == x.pmid {
        if x in pre {
          var y :| y in r && y.pmid == x.pmid;
          assert y in r';
        } else if KeepFixed(s, p) {
          assert p in r';
        } else {
          assert x == p && p.pmid in s.pmids;
          RunFixedPmids(pre, p.pmid);
        }
      }
    }
  }

  /** Each recorded pmid belongs to a kept paper. */
  lemma {:induction false} RunFixedPmids(ps: seq<Paper>, x: string)
    requires x in RunFixed(ps).0.pmids
    ensures exists y :: y in RunFixed(ps).1 && y.pmid == x
  {
    if ps != [] {
      var pre, p := ps[..|ps| - 1], ps[|ps| - 1];
      var (s, r) := RunFixed(pre);
      if x in s.pmids {
        RunFixedPmids(pre, x);
        var y :| y in r && y.pmid == x;
        assert y in RunFixed(ps).1;
      } else {
        assert p in RunFixed(ps).1;
      }
    }
  }

  /** On the inputs above the corrected version keeps only the first
      record: the repeated pmid is dropped ... */
  lemma FixedDropsRepeatedPmid()
    ensures DeduplicatedFixed([Paper("1", "A", map[]), Paper("1", "B", map[])]) == [Paper("1", "A", map[])]
  {
    var ps := [Paper("1", "A", map[]), Paper("1", "B", map[])];
    var first := RunFixed(ps[..1]);
    assert ps[..1] == [ps[0]] && [ps[0]][..0] == [];
    assert first.1 == [ps[0]] && "1" in first.0.pmids;
    assert !KeepFixed(first.0, ps[1]);
    assert RunFixed(ps).1 == first.1;
  }

  /** The title key of the title "T". */
  lemma TitleKeyT(p: Paper)
    requires p.title == "T"
    ensures TitleKey(p) == "t"
  {
    assert Lower("T") == "t";
  }

  /** ... and so is a pmid-less record repeating a recorded title. */
  lemma FixedDropsRepeatedTitle()
    ensures DeduplicatedFixed([Paper("1", "T", map[]), Paper("", "T", map[])]) == [Paper("1", "T", map[])]
  {
    var qs := [Paper("1", "T", map[]), Paper("", "T", map[])];
    TitleKeyT(qs[0]);
    TitleKeyT(qs[1]);
    assert [qs[0]][..0] == [];
    var empty := Seen({}, {});
    assert KeepFixed(empty, qs[0]);
    assert NextFixed(empty, qs[0]) == Seen({"1"}, {"t"});
    assert RunFixed([qs[0]]) == (NextFixed(empty, qs[0]), [] + [qs[0]]);
    var first := RunFixed([qs[0]]);
    assert first.0 == Seen({"1"}, {"t"}) && first.1 == [qs[0]];
    assert qs[..1] == [qs[0]];
    assert !KeepFixed(first.0, qs[1]);
  }

  // ---------------------------------------------------------------------
  // Budgets and caps
  // ---------------------------------------------------------------------

  /** `max_papers // len(search_queries)`, the budget of each query. The
      division sits inside the loop over the queries, so it is only ever
      made with at least one query; the expression on its own fails on a
      zero divisor, which is what `None` stands for. Python's `//` floors,
      as Dafny's `/` does for a positive divisor. */
  function PerQueryBudget(maxPapers: int, queries: nat): (r: Option<int>)
    ensures r.None? <==> queries == 0
    ensures r.Some? ==> r.value * queries <= maxPapers < (r.value + 1) * queries
  {
    if queries == 0 then None else Some(maxPapers / queries)
  }

  /** The papers an autonomous research run analyses: the de-duplicated
      search results cut to `max_papers`. */
  function ResearchPapers(allPapers: seq<Paper>, maxPapers: int): (r: seq<Paper>)
  {
    GraphBuild.Slice(DeduplicatedFixed(allPapers), maxPapers)
  }

  /** The searches of `find_related_papers`: the first five key terms, each
      with an equal share of `max_new_papers`. */
  function RelatedSearches(keyTerms: seq<string>, maxNewPapers: int): (r: seq<(string, int)>)
    ensures |r| <= 5 && |r| <= |keyTerms|
    ensures forall i :: 0 <= i < |r| ==> r[i].0 == keyTerms[i] && r[i].1 * |keyTerms| <= maxNewPapers
  {
    var terms := Take(keyTerms, 5);
    seq(|terms|, i requires 0 <= i < |terms| => (terms[i], maxNewPapers / |keyTerms|))
  }

  /** The papers `find_related_papers` returns. */
  function RelatedPapers(found: seq<Paper>, maxNewPapers: int): (r: seq<Paper>)
  {
    GraphBuild.Slice(DeduplicatedFixed(found), maxNewPapers)
  }

  /** Both caps hold: at most the cap (when it is not negative), a prefix of
      the de-duplicated papers, and free of repeats. */
  lemma CapsFacts(ps: seq<Paper>, cap: int)
    ensures cap >= 0 ==> |ResearchPapers(ps, cap)| <= cap && |RelatedPapers(ps, cap)| <= cap
    ensures ResearchPapers(ps, cap) <= DeduplicatedFixed(ps)
    ensures Unique(ResearchPapers(ps, cap)) && Unique(RelatedPapers(ps, cap))
  {
    DeduplicatedFixedFacts(ps);
    var d := DeduplicatedFixed(ps);
    var r := ResearchPapers(ps, cap);
    assert r == d[..|r|];
  }
}
