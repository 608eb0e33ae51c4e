/** The HTTP layer's own logic: upload validation, the table of processing
    jobs and the states a background run moves a job through, the shape
    check of an imported project, and the conversion of clinical trials into
    a graph. File storage, job ids, scheduling and the analysis services a
    run calls are inputs. */
module Api {
  import opened Strings
  import Dicts
  import Trials
  import PdfText
  import GraphBuild

  /** An `HTTPException`: a status code and its detail text. */
  datatype HttpError = HttpError(status: nat, detail: string)

  /** An endpoint's answer: a value or the exception it raises. */
  datatype Response<T> = Ok(value: T) | Error(error: HttpError)

  // ---------------------------------------------------------------------
  // Upload validation

  const NoFilesDetail := "No files provided"

  function InvalidTypeDetail(filename: string): string {
    "Invalid file type: " + filename + ". Only PDF files are supported."
  }

  /** The only file names accepted; the comparison is case-sensitive. */
  predicate IsPdfName(filename: string) {
    EndsWith(filename, ".pdf")
  }

  /** The checks `process_pdfs` makes before it stores anything: at least
      one file, and the first file whose name does not end in ".pdf" is
      reported. */
  method ValidateUploads(filenames: seq<string>) returns (err: Option<HttpError>)
    ensures err.None? <==> filenames != [] && forall i :: 0 <= i < |filenames| ==> IsPdfName(filenames[i])
    ensures filenames == [] ==> err == Some(HttpError(400, NoFilesDetail))
    ensures filenames != [] && err.Some? ==>
      exists i :: 0 <= i < |filenames| && !IsPdfName(filenames[i])
        && (forall j :: 0 <= j < i ==> IsPdfName(filenames[j]))
        && err.value == HttpError(400, InvalidTypeDetail(filenames[i]))
  {
    if filenames == [] {
      return Some(HttpError(400, NoFilesDetail));
    }
    var i := 0;
    while i < |filenames|
      invariant 0 <= i <= |filenames|
      invariant forall j :: 0 <= j < i ==> IsPdfName(filenames[j])
    {
      if !IsPdfName(filenames[i]) {
        return Some(HttpError(400, InvalidTypeDetail(filenames[i])));
      }
      i := i + 1;
    }
    return None;
  }

  // ---------------------------------------------------------------------
  // Processing jobs

  datatype JobStatus = Pending | Processing | Completed | Failed

  /** The status text a job reports. */
  function StatusName(s: JobStatus): (name: string)
    ensures name in {"pending", "processing", "completed", "failed"}
  {
    match s
    case Pending => "pending"
    case Processing => "processing"
    case Completed => "completed"
    case Failed => "failed"
  }

  /** `ProcessingStatus` */
  datatype Job = Job(jobId: string, status: JobStatus, progress: real, message: string,
                     result: Option<GraphBuild.GraphData>)

  /** A job as it is queued. */
  function NewJob(jobId: string): Job {
    Job(jobId, Pending, 0.0, "Queued for processing", None)
  }

  /** The stage of a run whose service call raised. */
  datatype Stage = FindingEntities | FindingRelationships | BuildingGraph

  /** The progress a job shows while that stage runs. */
  function StageProgress(s: Stage): (p: real)
    ensures 0.4 <= p <= 0.9
  {
    match s
    case FindingEntities => 0.4
    case FindingRelationships => 0.7
    case BuildingGraph => 0.9
  }

  /** What the entity, relationship and graph services make of the
      sentences of a run: the counts the job reports, the finished graph
      (analytics included), or the stage that raised and its message. */
  datatype Analysis = Analysis(entityCount: nat, relationshipCount: nat,
                               graph: GraphBuild.GraphData, failure: Option<(Stage, string)>)

  /** The records `process_pdfs` returns for the uploaded paths. */
  function Records(pdfPaths: seq<string>, extractText: string -> PdfText.TextOutcome,
                   extractMetadata: string -> map<string, string>): (rs: seq<PdfText.PdfRecord>)
    ensures |rs| == |pdfPaths|
    ensures forall i :: 0 <= i < |pdfPaths| ==>
      rs[i] == PdfText.RecordFor(pdfPaths[i], extractText(pdfPaths[i]), extractMetadata(pdfPaths[i]))
  {
    seq(|pdfPaths|, i requires 0 <= i < |pdfPaths| =>
      PdfText.RecordFor(pdfPaths[i], extractText(pdfPaths[i]), extractMetadata(pdfPaths[i])))
  }

  /** A list of records that agrees with `Records` position by position is it. */
  lemma RecordsAgree(records: seq<PdfText.PdfRecord>, pdfPaths: seq<string>,
                     extractText: string -> PdfText.TextOutcome,
                     extractMetadata: string -> map<string, string>)
    requires |records| == |pdfPaths|
    requires forall i :: 0 <= i < |pdfPaths| ==>
      records[i] == PdfText.RecordFor(pdfPaths[i], extractText(pdfPaths[i]), extractMetadata(pdfPaths[i]))
    ensures records == Records(pdfPaths, extractText, extractMetadata)
  {
  }

  /** The sentences of every record that has them, in record order: a
      failed record has none. */
  function AllSentences(records: seq<PdfText.PdfRecord>): seq<string> {
    if records == [] then []
    else
      var last := records[|records| - 1];
      AllSentences(records[..|records| - 1]) + (if last.Processed? then last.sentences else [])
  }

  /** The record is processed and has the sentence. */
  predicate Contributes(record: PdfText.PdfRecord, s: string) {
    record.Processed? && s in record.sentences
  }

  /** Every combined sentence is a sentence of some processed record. */
  lemma {:induction false} AllSentencesFrom(records: seq<PdfText.PdfRecord>, k: nat)
    requires k < |AllSentences(records)|
    ensures exists i :: 0 <= i < |records| && Contributes(records[i], AllSentences(records)[k])
  {
    var n := |records| - 1;
    var front := AllSentences(records[..n]);
    if k < |front| {
      AllSentencesFrom(records[..n], k);
      var i :| 0 <= i < n && Contributes(records[..n][i], front[k]);
      assert records[i] == records[..n][i];
    } else {
      assert AllSentences(records)[k] in records[n].sentences;
    }
  }

  /** Every sentence of every processed record is combined. */
  lemma {:induction false} AllSentencesComplete(records: seq<PdfText.PdfRecord>, i: nat, s: string)
    requires i < |records| && records[i].Processed? && s in records[i].sentences
    ensures s in AllSentences(records)
  {
    var n := |records| - 1;
    if i < n {
      assert records[..n][i] == records[i];
      AllSentencesComplete(records[..n], i, s);
    }
  }

  /** The job after each of the first three updates of a run: text
      extraction starts, `pdfCount` records are back, entity search starts. */
  function Opening(start: Job, pdfCount: nat): (trace: seq<Job>)
    ensures |trace| == 3
  {
    var s1 := start.(status := Processing, progress := 0.1, message := "Extracting text from PDFs...");
    var s2 := s1.(progress := 0.3, message := "Extracted text from " + NatToString(pdfCount) + " PDFs");
    [s1, s2, s2.(progress := 0.4, message := "Extracting biomedical entities...")]
  }

  /** The job after each later update, from the job `s3` the opening leaves,
      for the services' analysis. */
  function Outcome(s3: Job, a: Analysis): (trace: seq<Job>)
    ensures trace != []
  {
    if a.failure.Some? && a.failure.value.0 == FindingEntities then
      [s3.(status := Failed, message := "Error: " + a.failure.value.1)]
    else
      var s4 := s3.(progress := 0.6, message := "Found " + NatToString(a.entityCount) + " unique entities");
      var s5 := s4.(progress := 0.7, message := "Extracting relationships...");
      if a.failure.Some? && a.failure.value.0 == FindingRelationships then
        [s4, s5, s5.(status := Failed, message := "Error: " + a.failure.value.1)]
      else
        var s6 := s5.(progress := 0.8, message := "Found " + NatToString(a.relationshipCount) + " relationships");
        var s7 := s6.(progress := 0.9, message := "Building knowledge graph...");
        if a.failure.Some? then
          [s4, s5, s6, s7, s7.(status := Failed, message := "Error: " + a.failure.value.1)]
        else
          [s4, s5, s6, s7,
           s7.(status := Completed, progress := 1.0, message := "Processing complete!", result := Some(a.graph))]
  }

  /** The job after each update a background run makes, starting from the
      queued job, for `pdfCount` records and the services' analysis. */
  function RunTrace(start: Job, pdfCount: nat, a: Analysis): (trace: seq<Job>)
    ensures trace != []
  {
    var opening := Opening(start, pdfCount);
    opening + Outcome(opening[2], a)
  }

  /** The progress values of successive states. */
  function Progresses(trace: seq<Job>): seq<real> {
    seq(|trace|, i requires 0 <= i < |trace| => trace[i].progress)
  }

  /** A run never moves progress backwards, and the job is "processing"
      until its last update. */
  lemma RunTraceMonotone(start: Job, pdfCount: nat, a: Analysis)
    ensures var trace := RunTrace(start, pdfCount, a);
      (forall i, j :: 0 <= i < j < |trace| ==> trace[i].progress <= trace[j].progress)
      && (forall i :: 0 <= i < |trace| - 1 ==> trace[i].status == Processing)
  {
  }

  /** A run whose services all succeed shows the progress values 0.1, 0.3,
      0.4, 0.6, 0.7, 0.8, 0.9, 1.0 and ends completed with the graph. */
  lemma RunTraceCompleted(start: Job, pdfCount: nat, a: Analysis)
    requires a.failure.None?
    ensures var trace := RunTrace(start, pdfCount, a);
      Progresses(trace) == [0.1, 0.3, 0.4, 0.6, 0.7, 0.8, 0.9, 1.0]
      && trace[|trace| - 1] == start.(status := Completed, progress := 1.0,
                                     message := "Processing complete!", result := Some(a.graph))
  {
    var trace := RunTrace(start, pdfCount, a);
    assert |trace| == 8;
  }

  /** A stage that raises fails the job with "Error: " and its message,
      keeps the progress of that stage and sets no result. */
  lemma RunTraceFailed(start: Job, pdfCount: nat, a: Analysis)
    requires a.failure.Some?
    ensures var trace := RunTrace(start, pdfCount, a);
      trace[|trace| - 1] == start.(status := Failed, progress := StageProgress(a.failure.value.0),
                                  message := "Error: " + a.failure.value.1)
  {
  }

  /** `processing_jobs`: the job table the endpoints share. */
  class JobStore {
    var jobs: map<string, Job>

    constructor()
      ensures jobs == map[]
    {
      jobs := map[];
    }

    /** `get_processing_status` */
    function Status(jobId: string): (r: Response<Job>)
      reads this
      ensures r.Error? <==> jobId !in jobs
      ensures r.Error? ==> r.error == HttpError(404, "Job not found")
      ensures r.Ok? ==> r.value == jobs[jobId]
    {
      if jobId !in jobs then Error(HttpError(404, "Job not found")) else Ok(jobs[jobId])
    }

    /** `process_pdfs`: validate the uploads and queue a job under the
        freshly drawn `jobId`; a rejected upload leaves the table as it was. */
    method Submit(jobId: string, filenames: seq<string>) returns (r: Response<Job>)
      modifies this
      ensures r.Ok? <==> filenames != [] && forall i :: 0 <= i < |filenames| ==> IsPdfName(filenames[i])
      ensures r.Error? ==> r.error.status == 400 && jobs == old(jobs)
      ensures r.Ok? ==> r.value == NewJob(jobId) && jobs == old(jobs)[jobId := NewJob(jobId)]
      ensures r.Ok? ==> Status(jobId) == Ok(NewJob(jobId))
    {
      var err := ValidateUploads(filenames);
      if err.Some? {
        return Error(err.value);
      }
      jobs := jobs[jobId := NewJob(jobId)];
      return Ok(jobs[jobId]);
    }

    /** `process_pdfs_background`: the run updates the job stage by stage.
        The ghost `trace` is `RunTrace`, the sequence of states those
        updates write; only its last state is tied to the store, which the
        job ends in. The run never awaits, so no status request sees the
        states in between. No other job changes. */
    method RunBackground(jobId: string, pdfPaths: seq<string>,
                         extractText: string -> PdfText.TextOutcome,
                         extractMetadata: string -> map<string, string>,
                         analyse: seq<string> -> Analysis)
      returns (ghost trace: seq<Job>)
      requires jobId in jobs
      modifies this
      ensures trace == RunTrace(old(jobs)[jobId], |pdfPaths|,
                                analyse(AllSentences(Records(pdfPaths, extractText, extractMetadata))))
      ensures jobs.Keys == old(jobs).Keys && jobs[jobId] == trace[|trace| - 1]
      ensures forall k :: k in old(jobs) && k != jobId ==> jobs[k] == old(jobs)[k]
    {
      ghost var start := jobs[jobId];
      var sentences := Extract(jobId, pdfPaths, extractText, extractMetadata);
      var a := analyse(sentences);
      Analyse(jobId, a);
      trace := RunTrace(start, |pdfPaths|, a);
    }

    /** The first part of a run: the text of every file is extracted and
        the sentences of the readable ones are gathered. */
    method Extract(jobId: string, pdfPaths: seq<string>,
                   extractText: string -> PdfText.TextOutcome,
                   extractMetadata: string -> map<string, string>)
      returns (sentences: seq<string>)
      requires jobId in jobs
      modifies this
      ensures sentences == AllSentences(Records(pdfPaths, extractText, extractMetadata))
      ensures jobs == old(jobs)[jobId := Opening(old(jobs)[jobId], |pdfPaths|)[2]]
    {
      var job := jobs[jobId].(status := Processing, progress := 0.1,
                              message := "Extracting text from PDFs...");
      jobs := jobs[jobId := job];

      var records := PdfText.ProcessPdfs(pdfPaths, extractText, extractMetadata);
      RecordsAgree(records, pdfPaths, extractText, extractMetadata);
      job := job.(progress := 0.3, message := "Extracted text from " + NatToString(|records|) + " PDFs");
      jobs := jobs[jobId := job];

      sentences := CollectSentences(records);
      job := job.(progress := 0.4, message := "Extracting biomedical entities...");
      jobs := jobs[jobId := job];
    }

    /** The rest of a run: the services' analysis decides whether the job
        fails at a stage or completes with the graph. */
    method Analyse(jobId: string, a: Analysis)
      requires jobId in jobs
      modifies this
      ensures var outcome := Outcome(old(jobs)[jobId], a);
        jobs == old(jobs)[jobId := outcome[|outcome| - 1]]
    {
      var job := jobs[jobId];
      if a.failure.Some? && a.failure.value.0 == FindingEntities {
        job := job.(status := Failed, message := "Error: " + a.failure.value.1);
        jobs := jobs[jobId := job];
        return;
      }
      job := job.(progress := 0.6, message := "Found " + NatToString(a.entityCount) + " unique entities");
      jobs := jobs[jobId := job];
      job := job.(progress := 0.7, message := "Extracting relationships...");
      jobs := jobs[jobId := job];

      if a.failure.Some? && a.failure.value.0 == FindingRelationships {
        job := job.(status := Failed, message := "Error: " + a.failure.value.1);
        jobs := jobs[jobId := job];
        return;
      }
      job := job.(progress := 0.8, message := "Found " + NatToString(a.relationshipCount) + " relationships");
      jobs := jobs[jobId := job];
      job := job.(progress := 0.9, message := "Building knowledge graph...");
      jobs := jobs[jobId := job];

      if a.failure.Some? {
        job := job.(status := Failed, message := "Error: " + a.failure.value.1);
        jobs := jobs[jobId := job];
        return;
      }
      job := job.(status := Completed, progress := 1.0, message := "Processing complete!",
                  result := Some(a.graph));
      jobs := jobs[jobId := job];
    }
  }

  /** The loop that gathers the sentences of the processed records. */
  method CollectSentences(records: seq<PdfText.PdfRecord>) returns (all: seq<string>)
    ensures all == AllSentences(records)
  {
    all := [];
    var i := 0;
    while i < |records|
      invariant 0 <= i <= |records|
      invariant all == AllSentences(records[..i])
    {
      assert records[..i + 1][..i] == records[..i];
      if records[i].Processed? {
        all := all + records[i].sentences;
      }
      i := i + 1;
    }
    assert records[..i] == records;
  }

  // ---------------------------------------------------------------------
  // Project import

  /** The outcome of `import_project`: the graph, or a 500 whose detail is
      one of the two messages of the shape check, or (None) the message of
      an error the interpreter raises itself. */
  datatype ImportReply = Imported(graph: Trials.Json) | ImportFailed(detail: Option<string>)

  const NotDictionaryDetail := "Graph data must be a dictionary"
  const MissingArraysDetail := "Graph must have 'nodes' and 'edges' arrays"

  /** `key in obj` */
  predicate Has(obj: Trials.Json, key: string)
    requires obj.JObj?
  {
    Trials.Lookup(obj.members, key).Some?
  }

  /** A value `len` accepts. */
  predicate Sized(j: Trials.Json) {
    j.JStr? || j.JArr? || j.JObj?
  }

  /** The value the endpoint treats as the graph: the "graph" member of
      the project data when there is one, else the project data itself,
      which is the "project_data" member or the whole request. */
  function SelectedGraph(req: Trials.Json): Trials.Json
    requires req.JObj?
  {
    var projectData := Trials.Member(req, "project_data", req);
    if projectData.JObj? && Has(projectData, "graph") then Trials.Member(projectData, "graph", Trials.JNull)
    else projectData
  }

  /** A graph the endpoint returns: an object with "nodes" and "edges"
      members whose values have a length. */
  predicate Importable(g: Trials.Json) {
    g.JObj? && Has(g, "nodes") && Has(g, "edges")
    && Sized(Trials.Member(g, "nodes", Trials.JNull)) && Sized(Trials.Member(g, "edges", Trials.JNull))
  }

  /** The shape check on the selected graph. */
  function CheckGraph(graphData: Trials.Json): ImportReply {
    if !graphData.JObj? then ImportFailed(Some(NotDictionaryDetail))
    else if !Has(graphData, "nodes") || !Has(graphData, "edges") then ImportFailed(Some(MissingArraysDetail))
    else if !Sized(Trials.Member(graphData, "nodes", Trials.JNull))
         || !Sized(Trials.Member(graphData, "edges", Trials.JNull)) then ImportFailed(None)
    else Imported(graphData)
  }

  /** `import_project`: the selected graph comes back unchanged exactly
      when it is importable; a request whose selected graph is not an
      object fails. */
  function ImportProject(req: Trials.Json): (r: ImportReply)
    requires req.JObj?
    ensures r.Imported? <==> Importable(SelectedGraph(req))
    ensures r.Imported? ==> r.graph == SelectedGraph(req)
    ensures !SelectedGraph(req).JObj? ==> r.ImportFailed?
  {
    var projectData := Trials.Member(req, "project_data", req);
    if projectData.JObj? && Has(projectData, "graph") then
      var graphData := Trials.Member(projectData, "graph", Trials.JNull);
      if !graphData.JObj? then ImportFailed(None)
      else if !Sized(Trials.Member(graphData, "nodes", Trials.JArr([]))) then ImportFailed(None)
      else CheckGraph(graphData)
    else CheckGraph(projectData)
  }

  /** An object lacking "nodes" or "edges" is refused with the shape
      message, whether sent bare or without a "graph" member. */
  lemma ImportMissingArrays(req: Trials.Json)
    requires req.JObj? && !Has(req, "project_data") && !Has(req, "graph")
    requires !Has(req, "nodes") || !Has(req, "edges")
    ensures ImportProject(req) == ImportFailed(Some(MissingArraysDetail))
  {
  }

  /** An importable graph is accepted unchanged sent bare (when it has no
      "project_data" or "graph" member), wrapped as {"graph": g}, or
      wrapped as {"project_data": {"graph": g}}. */
  lemma ImportWrapped(g: Trials.Json)
    requires Importable(g)
    ensures !Has(g, "project_data") && !Has(g, "graph") ==> ImportProject(g) == Imported(g)
    ensures ImportProject(Trials.JObj([("graph", g)])) == Imported(g)
    ensures ImportProject(Trials.JObj([("project_data", Trials.JObj([("graph", g)]))])) == Imported(g)
  {
    var inner := Trials.JObj([("graph", g)]);
    assert Trials.Lookup(inner.members, "graph") == Some(g);
    assert Trials.Lookup(inner.members, "project_data") == None;
    var outer := Trials.JObj([("project_data", inner)]);
    assert Trials.Lookup(outer.members, "project_data") == Some(inner);
  }

  // ---------------------------------------------------------------------
  // Trial discovery

  /** What a node of the trial graph describes. */
  datatype NodeKind =
    | ClinicalTrial(nctId: string, phase: string, status: string, url: string)
    | Disease
    | Intervention

  datatype TrialNode = TrialNode(id: string, group: string, value: int, kind: NodeKind)

  datatype TrialEdge = TrialEdge(source: string, target: string, value: real, title: string,
                                 relationshipType: string, evidence: seq<string>)

  datatype TrialGraph = TrialGraph(nodes: seq<TrialNode>, edges: seq<TrialEdge>, source: string)

  function TrialNodeId(t: Trials.TrialRecord): string {
    "TRIAL:" + t.nctId
  }

  /** The first 200 characters of the summary, the evidence of every edge
      of the trial. */
  function Evidence(t: Trials.TrialRecord): seq<string> {
    [Take(t.briefSummary, 200)]
  }

  function TrialNodeOf(t: Trials.TrialRecord): TrialNode {
    TrialNode(TrialNodeId(t), "ENTITY", |t.interventions| + 1,
              ClinicalTrial(t.nctId, t.phase, t.status, t.url))
  }

  function ConditionNode(condition: string): TrialNode {
    TrialNode(condition, "DISEASE", 1, Disease)
  }

  function InterventionNode(intervention: string): TrialNode {
    TrialNode(intervention, "CHEMICAL", 1, Intervention)
  }

  function StudiesEdge(t: Trials.TrialRecord): TrialEdge {
    TrialEdge(TrialNodeId(t), t.condition, 1.0, t.nctId + " studies " + t.condition,
              "CLINICAL_TRIAL_STUDIES", Evidence(t))
  }

  function TestsEdge(t: Trials.TrialRecord, intervention: string): TrialEdge {
    TrialEdge(TrialNodeId(t), intervention, 1.0, t.nctId + " tests " + intervention,
              "CLINICAL_TRIAL_TESTS", Evidence(t))
  }

  /** The nodes of the interventions, in order. */
  function InterventionNodes(xs: seq<string>): (ns: seq<TrialNode>)
    ensures |ns| == |xs|
    ensures forall k :: 0 <= k < |xs| ==> ns[k] == InterventionNode(xs[k])
  {
    if xs == [] then [] else InterventionNodes(xs[..|xs| - 1]) + [InterventionNode(xs[|xs| - 1])]
  }

  /** The "tests" edges of the trial's interventions, in order. */
  function TestsEdges(t: Trials.TrialRecord, xs: seq<string>): (es: seq<TrialEdge>)
    ensures |es| == |xs|
    ensures forall k :: 0 <= k < |xs| ==> es[k] == TestsEdge(t, xs[k])
  {
    if xs == [] then [] else TestsEdges(t, xs[..|xs| - 1]) + [TestsEdge(t, xs[|xs| - 1])]
  }

  /** The nodes one trial appends: its own, its condition's when it has
      one, and one per intervention. */
  function NodesFor(t: Trials.TrialRecord): seq<TrialNode> {
    [TrialNodeOf(t)] + (if t.condition != "" then [ConditionNode(t.condition)] else [])
    + InterventionNodes(t.interventions)
  }

  /** The edges one trial appends. */
  function EdgesFor(t: Trials.TrialRecord): seq<TrialEdge> {
    (if t.condition != "" then [StudiesEdge(t)] else []) + TestsEdges(t, t.interventions)
  }

  function AllNodes(ts: seq<Trials.TrialRecord>): seq<TrialNode> {
    if ts == [] then [] else AllNodes(ts[..|ts| - 1]) + NodesFor(ts[|ts| - 1])
  }

  function AllEdges(ts: seq<Trials.TrialRecord>): seq<TrialEdge> {
    if ts == [] then [] else AllEdges(ts[..|ts| - 1]) + EdgesFor(ts[|ts| - 1])
  }

  /** The trials that are converted: those with a non-empty id, in order. */
  function Converted(ts: seq<Trials.TrialRecord>): (cs: seq<Trials.TrialRecord>)
    ensures |cs| <= |ts|
    ensures forall c :: c in cs ==> c in ts && c.nctId != ""
    ensures forall t :: t in ts && t.nctId != "" ==> t in cs
    ensures forall t :: multiset(cs)[t] == if t.nctId != "" then multiset(ts)[t] else 0
  {
    if ts == [] then []
    else
      assert ts == [ts[0]] + ts[1..];
      (if ts[0].nctId != "" then [ts[0]] else []) + Converted(ts[1..])
  }

  /** Filtering keeps order: the trials converted from two lists in a row
      are those of the first followed by those of the second. */
  lemma {:induction false} ConvertedConcat(a: seq<Trials.TrialRecord>, b: seq<Trials.TrialRecord>)
    ensures Converted(a + b) == Converted(a) + Converted(b)
  {
    if a == [] {
      assert a + b == b;
    } else {
      var head := if a[0].nctId != "" then [a[0]] else [];
      var rest := a[1..] + b;
      assert (a + b)[0] == a[0] && (a + b)[1..] == rest;
      assert Converted(a + b) == head + Converted(rest);
      ConvertedConcat(a[1..], b);
      ConcatAssoc(head, Converted(a[1..]), Converted(b));
    }
  }

  /** `{n["id"]: n for n in nodes}`: one entry per id, holding the last
      node with that id, at the position of its first. */
  function UniqueNodes(nodes: seq<TrialNode>): (d: Dicts.Dict<string, TrialNode>)
    ensures d.Valid()
    ensures forall k :: k in d.m ==> d.m[k].id == k
    ensures forall i :: 0 <= i < |nodes| ==> nodes[i].id in d.m
  {
    if nodes == [] then Dicts.Empty()
    else
      var front := nodes[..|nodes| - 1];
      var n := nodes[|nodes| - 1];
      assert forall i :: 0 <= i < |nodes| - 1 ==> nodes[i] == front[i];
      UniqueNodes(front).Put(n.id, n)
  }

  /** Every id kept is the id of some node. */
  lemma {:induction false} UniqueNodesFrom(nodes: seq<TrialNode>, id: string)
    requires id in UniqueNodes(nodes).m
    ensures exists i :: 0 <= i < |nodes| && nodes[i].id == id
  {
    var n := |nodes| - 1;
    if nodes[n].id != id {
      var front := nodes[..n];
      UniqueNodesFrom(front, id);
      var i :| 0 <= i < |front| && front[i].id == id;
      assert nodes[i] == front[i];
    }
  }

  /** The node an id keeps is the last one with that id. */
  lemma {:induction false} UniqueNodesLast(nodes: seq<TrialNode>, i: nat)
    requires i < |nodes|
    requires forall j :: i < j < |nodes| ==> nodes[j].id != nodes[i].id
    ensures UniqueNodes(nodes).m[nodes[i].id] == nodes[i]
  {
    var n := |nodes| - 1;
    var front := nodes[..n];
    var d := UniqueNodes(front);
    assert UniqueNodes(nodes) == d.Put(nodes[n].id, nodes[n]);
    if i < n {
      var id := nodes[i].id;
      assert front[i] == nodes[i];
      forall j | i < j < |front| ensures front[j].id != id {
        assert front[j] == nodes[j];
      }
      UniqueNodesLast(front, i);
      assert nodes[n].id != id;
    }
  }

  /** The graph `discover_trials` answers with. */
  function TrialGraphFor(ts: seq<Trials.TrialRecord>): TrialGraph {
    TrialGraph(UniqueNodes(AllNodes(ts)).Values(), AllEdges(ts), "clinicaltrials.gov")
  }

  /** One more trial appends its nodes and edges. */
  lemma AllStep(ts: seq<Trials.TrialRecord>, i: nat)
    requires i < |ts|
    ensures AllNodes(ts[..i + 1]) == AllNodes(ts[..i]) + NodesFor(ts[i])
    ensures AllEdges(ts[..i + 1]) == AllEdges(ts[..i]) + EdgesFor(ts[i])
  {
    assert ts[..i + 1][..i] == ts[..i];
  }

  /** One more intervention appends its node and its edge. */
  lemma InterventionStep(t: Trials.TrialRecord, xs: seq<string>, j: nat)
    requires j < |xs|
    ensures InterventionNodes(xs[..j + 1]) == InterventionNodes(xs[..j]) + [InterventionNode(xs[j])]
    ensures TestsEdges(t, xs[..j + 1]) == TestsEdges(t, xs[..j]) + [TestsEdge(t, xs[j])]
  {
    assert xs[..j + 1][..j] == xs[..j];
  }

  /** The body of the outer loop of `discover_trials` for one trial. */
  method AppendTrial(t: Trials.TrialRecord, nodes0: seq<TrialNode>, edges0: seq<TrialEdge>)
    returns (nodes: seq<TrialNode>, edges: seq<TrialEdge>)
    ensures nodes == nodes0 + NodesFor(t) && edges == edges0 + EdgesFor(t)
  {
    nodes := nodes0 + [TrialNodeOf(t)];
    edges := edges0;
    if t.condition != "" {
      nodes := nodes + [ConditionNode(t.condition)];
      edges := edges + [StudiesEdge(t)];
    }
    nodes, edges := AppendInterventions(t, nodes, edges);
  }

  /** The inner loop: one node and one "tests" edge per intervention. */
  method AppendInterventions(t: Trials.TrialRecord, nodes0: seq<TrialNode>, edges0: seq<TrialEdge>)
    returns (nodes: seq<TrialNode>, edges: seq<TrialEdge>)
    ensures nodes == nodes0 + InterventionNodes(t.interventions)
    ensures edges == edges0 + TestsEdges(t, t.interventions)
  {
    nodes, edges := nodes0, edges0;
    var j := 0;
    while j < |t.interventions|
      invariant 0 <= j <= |t.interventions|
      invariant nodes == nodes0 + InterventionNodes(t.interventions[..j])
      invariant edges == edges0 + TestsEdges(t, t.interventions[..j])
    {
      InterventionStep(t, t.interventions, j);
      nodes := nodes + [InterventionNode(t.interventions[j])];
      edges := edges + [TestsEdge(t, t.interventions[j])];
      j := j + 1;
    }
    assert t.interventions[..j] == t.interventions;
  }

  /** The loops of `discover_trials` that append the nodes and edges of
      each trial in turn. */
  method BuildTrialGraph(ts: seq<Trials.TrialRecord>) returns (nodes: seq<TrialNode>, edges: seq<TrialEdge>)
    ensures nodes == AllNodes(ts) && edges == AllEdges(ts)
  {
    nodes, edges := [], [];
    var i := 0;
    while i < |ts|
      invariant 0 <= i <= |ts|
      invariant nodes == AllNodes(ts[..i]) && edges == AllEdges(ts[..i])
    {
      AllStep(ts, i);
      nodes, edges := AppendTrial(ts[i], nodes, edges);
      i := i + 1;
    }
    assert ts[..i] == ts;
  }

  /** `discover_trials` on the search answer: the trials with an id and
      the graph built from them. */
  method DiscoverTrials(answer: Option<Trials.Json>) returns (trials: seq<Trials.TrialRecord>, graph: TrialGraph)
    ensures trials == Converted(Trials.SearchTrials(answer))
    ensures graph == TrialGraphFor(trials)
  {
    trials := Converted(Trials.SearchTrials(answer));
    var nodes, edges := BuildTrialGraph(trials);
    graph := TrialGraph(UniqueNodes(nodes).Values(), edges, "clinicaltrials.gov");
  }

  /** The ids of the answered nodes are distinct. */
  lemma TrialGraphIdsDistinct(ts: seq<Trials.TrialRecord>)
    ensures var g := TrialGraphFor(ts);
      forall i, j :: 0 <= i < j < |g.nodes| ==> g.nodes[i].id != g.nodes[j].id
  {
    var d := UniqueNodes(AllNodes(ts));
    var vs := d.Values();
    forall i, j | 0 <= i < j < |vs|
      ensures vs[i].id != vs[j].id
    {
      assert vs[i].id == d.keys[i] && vs[j].id == d.keys[j];
    }
  }

  /** Every appended node's id is the id of an answered node. */
  lemma TrialGraphIdsKept(ts: seq<Trials.TrialRecord>, i: nat)
    requires i < |AllNodes(ts)|
    ensures exists k :: 0 <= k < |TrialGraphFor(ts).nodes| && TrialGraphFor(ts).nodes[k].id == AllNodes(ts)[i].id
  {
    var d := UniqueNodes(AllNodes(ts));
    var vs := d.Values();
    var id := AllNodes(ts)[i].id;
    assert id in d.m;
    var k :| 0 <= k < |d.keys| && d.keys[k] == id;
    assert vs[k] == d.m[id];
    assert TrialGraphFor(ts).nodes == vs;
    assert vs[k].id == id;
  }

  /** The node at `i` is `n`, and no later node has its id. */
  predicate LastOfId(nodes: seq<TrialNode>, i: nat, n: TrialNode)
    requires i < |nodes|
  {
    nodes[i] == n && forall j :: i < j < |nodes| ==> nodes[j].id != n.id
  }

  /** Each answered node is the last appended node with its id. */
  lemma TrialGraphNodeLast(ts: seq<Trials.TrialRecord>, k: nat)
    requires k < |TrialGraphFor(ts).nodes|
    ensures exists i :: 0 <= i < |AllNodes(ts)| && LastOfId(AllNodes(ts), i, TrialGraphFor(ts).nodes[k])
  {
    var all := AllNodes(ts);
    var d := UniqueNodes(all);
    var id := d.keys[k];
    assert id in d.m;
    UniqueNodesFrom(all, id);
    var i := LastWithId(all, id);
    UniqueNodesLast(all, i);
    var vs := d.Values();
    assert vs[k] == d.m[id] == all[i];
    assert TrialGraphFor(ts).nodes == vs;
    assert LastOfId(all, i, vs[k]);
  }

  /** The position of the last node with the given id. */
  lemma LastWithId(nodes: seq<TrialNode>, id: string) returns (i: nat)
    requires exists k :: 0 <= k < |nodes| && nodes[k].id == id
    ensures i < |nodes| && nodes[i].id == id
    ensures forall j :: i < j < |nodes| ==> nodes[j].id != id
  {
    i := |nodes| - 1;
    while nodes[i].id != id
      invariant i < |nodes|
      invariant forall j :: i < j < |nodes| ==> nodes[j].id != id
      invariant exists k :: 0 <= k <= i && nodes[k].id == id
      decreases i
    {
      i := i - 1;
    }
  }

  /** Every converted trial contributes its own node, whose value is the
      number of its interventions plus one, and the answer has a node with
      that id. */
  lemma {:induction false} TrialNodesAppended(ts: seq<Trials.TrialRecord>, t: Trials.TrialRecord)
    requires t in ts
    ensures TrialNodeOf(t) in AllNodes(ts)
    ensures TrialNodeOf(t).id == "TRIAL:" + t.nctId && TrialNodeOf(t).value == |t.interventions| + 1
  {
    var n := |ts| - 1;
    if ts[n] == t {
      assert NodesFor(t)[0] == TrialNodeOf(t);
    } else {
      assert t in ts[..n];
      TrialNodesAppended(ts[..n], t);
    }
  }

  /** The edge goes from the trial's node, carries its evidence, and
      either studies its non-empty condition or tests one of its
      interventions. */
  predicate EdgeOfTrial(e: TrialEdge, t: Trials.TrialRecord) {
    e.source == "TRIAL:" + t.nctId && e.evidence == Evidence(t)
    && ((e.relationshipType == "CLINICAL_TRIAL_STUDIES" && t.condition != "" && e.target == t.condition)
        || (e.relationshipType == "CLINICAL_TRIAL_TESTS" && e.target in t.interventions))
  }

  /** Each edge goes from the node of a converted trial, carries that
      trial's evidence, and either studies its non-empty condition or tests
      one of its interventions. */
  lemma {:induction false} TrialEdgesFrom(ts: seq<Trials.TrialRecord>, e: TrialEdge)
    requires e in AllEdges(ts)
    ensures exists t :: t in ts && EdgeOfTrial(e, t)
  {
    var n := |ts| - 1;
    var t := ts[n];
    if e in AllEdges(ts[..n]) {
      TrialEdgesFrom(ts[..n], e);
      var u :| u in ts[..n] && EdgeOfTrial(e, u);
      assert u in ts;
    } else {
      assert e in EdgesFor(t);
      var tests := TestsEdges(t, t.interventions);
      if e in tests {
        var k :| 0 <= k < |tests| && tests[k] == e;
        assert e.target == t.interventions[k];
      }
      assert t in ts;
    }
  }

  /** A trial adds one edge for its condition when it has one and one per
      intervention. */
  function EdgeCount(ts: seq<Trials.TrialRecord>): nat {
    if ts == [] then 0
    else
      var t := ts[|ts| - 1];
      EdgeCount(ts[..|ts| - 1]) + (if t.condition != "" then 1 else 0) + |t.interventions|
  }

  lemma {:induction false} TrialEdgeCount(ts: seq<Trials.TrialRecord>)
    ensures |AllEdges(ts)| == EdgeCount(ts)
  {
    if ts != [] {
      TrialEdgeCount(ts[..|ts| - 1]);
    }
  }
}
