/** `ClinicalTrialsService`: the query parameters of a trial search and the
    flattening of one study of the ClinicalTrials.gov v2 API into a trial
    record. The HTTP request is not part of this model: the decoded JSON
    answer (or its absence when the request fails) is an input. */
module Trials {
  import opened Strings

  /** A decoded JSON value. Objects keep their members in document order. */
  datatype Json =
    | JNull
    | JBool(b: bool)
    | JNum(n: int)
    | JStr(s: string)
    | JArr(items: seq<Json>)
    | JObj(members: seq<(string, Json)>)

  /** The outcome of a step that raises on malformed input. */
  datatype Parsed<T> = Ok(value: T) | Malformed {
    predicate IsFailure() { Malformed? }
    function PropagateFailure<U>(): Parsed<U> requires Malformed? { Malformed }
    function Extract(): T requires Ok? { value }
  }

  const EmptyObject: Json := JObj([])

  /** Python truthiness of a JSON value. */
  predicate Truthy(j: Json) {
    match j
    case JNull => false
    case JBool(b) => b
    case JNum(n) => n != 0
    case JStr(s) => s != ""
    case JArr(items) => items != []
    case JObj(members) => members != []
  }

  /** The value of the last member named `key` (the one `json.loads` keeps). */
  function Lookup(members: seq<(string, Json)>, key: string): (r: Option<Json>)
    ensures r.Some? ==> exists i :: 0 <= i < |members| && members[i] == (key, r.value)
                                     && forall j :: i < j < |members| ==> members[j].0 != key
    ensures r.None? ==> forall i :: 0 <= i < |members| ==> members[i].0 != key
  {
    if members == [] then None
    else if members[|members| - 1].0 == key then Some(members[|members| - 1].1)
    else Lookup(members[..|members| - 1], key)
  }

  /** `obj.get(key, default)` on an object. */
  function Member(obj: Json, key: string, default: Json): Json
    requires obj.JObj?
  {
    var v := Lookup(obj.members, key);
    if v.Some? then v.value else default
  }

  /** `obj.get(key, default)`: only an object has `get`. */
  function Get(obj: Json, key: string, default: Json): (r: Parsed<Json>)
    ensures r.Ok? <==> obj.JObj?
  {
    if !obj.JObj? then Malformed else Ok(Member(obj, key, default))
  }

  /** A value used as text. */
  function AsString(j: Json): Parsed<string> {
    if j.JStr? then Ok(j.s) else Malformed
  }

  /** The keys of the dictionary `json.loads` builds from `members`: each
      name once, at the position of its first member. */
  function KeysOf(members: seq<(string, Json)>): (ks: seq<string>)
    ensures Distinct(ks)
    ensures forall k :: k in ks <==> exists i :: 0 <= i < |members| && members[i].0 == k
  {
    var names := seq(|members|, i requires 0 <= i < |members| => members[i].0);
    assert forall i :: 0 <= i < |members| ==> members[i].0 in names by {
      forall i | 0 <= i < |members| ensures members[i].0 in names {
        assert names[i] == members[i].0;
      }
    }
    Dedup(names)
  }

  /** The elements a `for` loop visits: a list's items, a string's
      characters, an object's keys. */
  function Elements(j: Json): (r: Parsed<seq<Json>>)
    ensures j.JArr? ==> r == Ok(j.items)
    ensures j.JObj? ==> (r.Ok? && |r.value| == |KeysOf(j.members)|
                         && forall i :: 0 <= i < |r.value| ==> r.value[i] == JStr(KeysOf(j.members)[i]))
    ensures r.Ok? <==> j.JArr? || j.JStr? || j.JObj?
  {
    match j
    case JArr(items) => Ok(items)
    case JStr(s) => Ok(seq(|s|, i requires 0 <= i < |s| => JStr([s[i]])))
    case JObj(members) =>
      var ks := KeysOf(members);
      Ok(seq(|ks|, i requires 0 <= i < |ks| => JStr(ks[i])))
    case _ => Malformed
  }

  /** An object is iterated once per distinct key, in first-appearance
      order: a repeated key is visited once. */
  lemma ObjectKeysOnce(members: seq<(string, Json)>)
    ensures var r := Elements(JObj(members)).value;
      (forall i, k :: 0 <= i < k < |r| ==> r[i] != r[k])
      && (forall x :: x in r <==> exists i :: 0 <= i < |members| && x == JStr(members[i].0))
  {
    var r := Elements(JObj(members)).value;
    var ks := KeysOf(members);
    forall x | x in r ensures exists i :: 0 <= i < |members| && x == JStr(members[i].0) {
      var p :| 0 <= p < |r| && r[p] == x;
      assert ks[p] in ks;
    }
    forall i | 0 <= i < |members| ensures JStr(members[i].0) in r {
      var k := members[i].0;
      assert k in ks;
      var p :| 0 <= p < |ks| && ks[p] == k;
      assert r[p] == JStr(k);
    }
  }

  /** A key given twice is a key of the object once. */
  lemma KeyTwiceOnce(k: string, a: Json, b: Json)
    ensures KeysOf([(k, a), (k, b)]) == [k]
  {
    var members := [(k, a), (k, b)];
    var names := seq(|members|, i requires 0 <= i < |members| => members[i].0);
    assert names == [k, k];
    assert Dedup([k, k][..1]) == [k];
  }

  /** A study list given as an object with one key twice is iterated once:
      the key is a text, not a study, and gives one error record. */
  lemma RepeatedStudyKey()
    ensures SearchTrials(Some(JObj([("studies", JObj([("x", JNull), ("x", JNull)]))]))) == [ParseErrorRecord]
  {
    var members := [("x", JNull), ("x", JNull)];
    KeyTwiceOnce("x", JNull, JNull);
    var answer := JObj([("studies", JObj(members))]);
    assert Get(answer, "studies", JArr([])) == Ok(JObj(members));
    var items := Elements(JObj(members));
    assert items.Ok? && |items.value| == 1 && items.value[0] == JStr("x");
    assert items.value == [JStr("x")];
    assert ParseStudy(JStr("x")) == ParseErrorRecord;
  }

  /** Conditions given as an object with one key twice are joined once. */
  lemma RepeatedConditionKey()
    ensures JoinConditions(JObj([("a", JNum(1)), ("a", JNum(2))])) == Ok("a")
  {
    KeyTwiceOnce("a", JNum(1), JNum(2));
    var strs := AllStrings([JStr("a")]);
    assert [JStr("a")][0].JStr?;
    assert strs.Ok? && |strs.value| == 1 && strs.value[0] == "a";
    assert strs.value == ["a"];
  }

  /** Every element as text. */
  function AllStrings(xs: seq<Json>): (r: Parsed<seq<string>>)
    ensures r.Ok? <==> forall i :: 0 <= i < |xs| ==> xs[i].JStr?
    ensures r.Ok? ==> |r.value| == |xs| && forall i :: 0 <= i < |xs| ==> r.value[i] == xs[i].s
  {
    if xs == [] then Ok([])
    else
      var rest := AllStrings(xs[1..]);
      if xs[0].JStr? && rest.Ok? then Ok([xs[0].s] + rest.value)
      else
        assert !xs[0].JStr? ==> !(forall i :: 0 <= i < |xs| ==> xs[i].JStr?);
        assert rest.Malformed? ==> exists i :: 1 <= i < |xs| && !xs[i].JStr? by {
          if rest.Malformed? {
            var k :| 0 <= k < |xs[1..]| && !xs[1..][k].JStr?;
            assert !xs[k + 1].JStr?;
          }
        }
        Malformed
  }

  /** `", ".join(conditions)` */
  function JoinConditions(conditions: Json): Parsed<string> {
    var xs :- Elements(conditions);
    var ss :- AllStrings(xs);
    Ok(Join(", ", ss))
  }

  /** `phases[0]` of a non-empty value. */
  function FirstPhase(phases: Json): Parsed<string>
    requires Truthy(phases)
  {
    match phases
    case JArr(items) => AsString(items[0])
    case JStr(s) => Ok([s[0]])
    case _ => Malformed
  }

  /** The name of one intervention, when it is non-empty. */
  function NameOf(intervention: Json): (r: Parsed<Option<string>>)
    ensures r.Ok? && r.value.Some? ==> r.value.value != ""
  {
    var name :- Get(intervention, "name", JStr(""));
    if !Truthy(name) then Ok(None)
    else
      var s :- AsString(name);
      Ok(Some(s))
  }

  /** The intervention names, in order, with empty names skipped. */
  function Names(interventions: seq<Json>): (r: Parsed<seq<string>>)
    ensures r.Ok? ==> |r.value| <= |interventions| && forall k :: 0 <= k < |r.value| ==> r.value[k] != ""
  {
    if interventions == [] then Ok([])
    else
      var n := |interventions|;
      var names :- Names(interventions[..n - 1]);
      var name :- NameOf(interventions[n - 1]);
      Ok(names + if name.Some? then [name.value] else [])
  }

  /** The names are read without error exactly when every intervention
      gives a name or none; the names kept are non-empty, each comes from an
      intervention, and every non-empty name is kept. */
  lemma {:induction false} NamesFacts(interventions: seq<Json>)
    ensures Names(interventions).Ok? <==> forall i :: 0 <= i < |interventions| ==> NameOf(interventions[i]).Ok?
    ensures Names(interventions).Ok? ==>
      var names := Names(interventions).value;
      && (forall k :: 0 <= k < |names| ==>
            names[k] != "" && exists i :: 0 <= i < |interventions| && NameOf(interventions[i]) == Ok(Some(names[k])))
      && (forall i :: 0 <= i < |interventions| && NameOf(interventions[i]).value.Some? ==>
            NameOf(interventions[i]).value.value in names)
  {
    var n := |interventions|;
    if n > 0 {
      var pre := interventions[..n - 1];
      NamesFacts(pre);
      assert forall i :: 0 <= i < n - 1 ==> pre[i] == interventions[i];
    }
  }

  /** The loop of `_parse_study` that collects the intervention names. */
  method InterventionNames(interventions: seq<Json>) returns (names: Parsed<seq<string>>)
    ensures names == Names(interventions)
  {
    var collected: seq<string> := [];
    var i := 0;
    while i < |interventions|
      invariant 0 <= i <= |interventions|
      invariant Names(interventions[..i]) == Ok(collected)
    {
      NamesStep(interventions, i);
      var intervention := interventions[i];
      if !intervention.JObj? {
        assert Names(interventions[..i + 1]).Malformed?;
        NamesMalformed(interventions, i + 1);
        return Malformed;
      }
      var name := Lookup(intervention.members, "name");
      var value := if name.Some? then name.value else JStr("");
      assert Get(intervention, "name", JStr("")) == Ok(value);
      if Truthy(value) {
        if !value.JStr? {
          assert Names(interventions[..i + 1]).Malformed?;
          NamesMalformed(interventions, i + 1);
          return Malformed;
        }
        assert NameOf(intervention) == Ok(Some(value.s));
        collected := collected + [value.s];
      } else {
        assert NameOf(intervention) == Ok(None);
        assert collected + [] == collected;
      }
      i := i + 1;
    }
    assert interventions[..i] == interventions;
    return Ok(collected);
  }

  /** One more intervention read. */
  lemma NamesStep(interventions: seq<Json>, i: nat)
    requires i < |interventions|
    ensures var pre, name := Names(interventions[..i]), NameOf(interventions[i]);
      Names(interventions[..i + 1]) ==
        if pre.Malformed? || name.Malformed? then Malformed
        else Ok(pre.value + if name.value.Some? then [name.value.value] else [])
  {
    assert interventions[..i + 1][..i] == interventions[..i];
    assert interventions[..i + 1][i] == interventions[i];
  }

  /** A malformed prefix makes the whole list malformed. */
  lemma {:induction false} NamesMalformed(interventions: seq<Json>, k: nat)
    requires k <= |interventions| && Names(interventions[..k]).Malformed?
    ensures Names(interventions).Malformed?
    decreases |interventions| - k
  {
    if k < |interventions| {
      assert interventions[..k + 1][..k] == interventions[..k];
      NamesMalformed(interventions, k + 1);
    } else {
      assert interventions[..k] == interventions;
    }
  }

  /** One flattened trial. */
  datatype TrialRecord = TrialRecord(
    nctId: string, title: string, condition: string, interventions: seq<string>,
    phase: string, status: string, sponsor: string, briefSummary: string, url: string)

  const StudyUrlPrefix := "https://clinicaltrials.gov/study/"

  /** The record `_parse_study` returns when anything goes wrong. */
  const ParseErrorRecord := TrialRecord("", "Parse error", "", [], "", "", "", "", "")

  /** The body of the `try` in `_parse_study`: every module must be an
      object, since each is asked for a field. */
  function StudyFields(study: Json): (r: Parsed<TrialRecord>)
    ensures r.Ok? ==> r.value.url == StudyUrlPrefix + r.value.nctId
    ensures r.Ok? ==> forall k :: 0 <= k < |r.value.interventions| ==> r.value.interventions[k] != ""
  {
    if !study.JObj? then Malformed
    else
      var protocol := Member(study, "protocolSection", EmptyObject);
      if !protocol.JObj? then Malformed
      else
        var idModule := Member(protocol, "identificationModule", EmptyObject);
        var statusModule := Member(protocol, "statusModule", EmptyObject);
        var descrModule := Member(protocol, "descriptionModule", EmptyObject);
        var conditionsModule := Member(protocol, "conditionsModule", EmptyObject);
        var interventionsModule := Member(protocol, "armsInterventionsModule", EmptyObject);
        var sponsorModule := Member(protocol, "sponsorCollaboratorsModule", EmptyObject);
        var designModule := Member(protocol, "designModule", EmptyObject);
        if !(idModule.JObj? && statusModule.JObj? && descrModule.JObj? && conditionsModule.JObj?
             && interventionsModule.JObj? && sponsorModule.JObj? && designModule.JObj?) then Malformed
        else
          var leadSponsor := Member(sponsorModule, "leadSponsor", EmptyObject);
          if !leadSponsor.JObj? then Malformed
          else ReadFields(idModule, statusModule, descrModule, conditionsModule,
                          interventionsModule, leadSponsor, designModule)
  }

  /** The fields `_parse_study` reads from the modules of a study, each
      module (and the lead sponsor) being an object. */
  function ReadFields(idModule: Json, statusModule: Json, descrModule: Json, conditionsModule: Json,
                      interventionsModule: Json, leadSponsor: Json, designModule: Json): (r: Parsed<TrialRecord>)
    requires idModule.JObj? && statusModule.JObj? && descrModule.JObj? && conditionsModule.JObj?
    requires interventionsModule.JObj? && leadSponsor.JObj? && designModule.JObj?
    ensures r.Ok? ==> r.value.url == StudyUrlPrefix + r.value.nctId
    ensures r.Ok? ==> forall k :: 0 <= k < |r.value.interventions| ==> r.value.interventions[k] != ""
  {
    var nctId :- AsString(Member(idModule, "nctId", JStr("")));
    var title :- AsString(Member(idModule, "briefTitle", JStr("")));
    var conditions := Member(conditionsModule, "conditions", JArr([]));
    var condition :- if Truthy(conditions) then JoinConditions(conditions) else Ok("");
    var interventions :- Elements(Member(interventionsModule, "interventions", JArr([])));
    var names :- Names(interventions);
    var phases := Member(designModule, "phases", JArr([]));
    var phase :- if Truthy(phases) then FirstPhase(phases) else Ok("N/A");
    var status :- AsString(Member(statusModule, "overallStatus", JStr("")));
    var sponsor :- AsString(Member(leadSponsor, "name", JStr("")));
    var briefSummary :- AsString(Member(descrModule, "briefSummary", JStr("")));
    Ok(TrialRecord(nctId, title, condition, names, phase, status, sponsor, briefSummary,
                   StudyUrlPrefix + nctId))
  }

  /** The texts read from the modules take their defaults when absent. */
  lemma ReadTextDefaults(idModule: Json, statusModule: Json, descrModule: Json, conditionsModule: Json,
                         interventionsModule: Json, leadSponsor: Json, designModule: Json)
    requires idModule.JObj? && statusModule.JObj? && descrModule.JObj? && conditionsModule.JObj?
    requires interventionsModule.JObj? && leadSponsor.JObj? && designModule.JObj?
    requires ReadFields(idModule, statusModule, descrModule, conditionsModule,
                        interventionsModule, leadSponsor, designModule).Ok?
    ensures var r := ReadFields(idModule, statusModule, descrModule, conditionsModule,
                                interventionsModule, leadSponsor, designModule).value;
      && (Lacks(idModule, "nctId") ==> r.nctId == "" && r.url == StudyUrlPrefix)
      && (Lacks(idModule, "briefTitle") ==> r.title == "")
      && (Lacks(statusModule, "overallStatus") ==> r.status == "")
      && (Lacks(descrModule, "briefSummary") ==> r.briefSummary == "")
      && (Lacks(leadSponsor, "name") ==> r.sponsor == "")
  {
    assert StudyUrlPrefix + "" == StudyUrlPrefix;
  }

  /** The lists read from the modules take their defaults when absent: no
      condition, no interventions, phase "N/A". */
  lemma ReadListDefaults(idModule: Json, statusModule: Json, descrModule: Json, conditionsModule: Json,
                         interventionsModule: Json, leadSponsor: Json, designModule: Json)
    requires idModule.JObj? && statusModule.JObj? && descrModule.JObj? && conditionsModule.JObj?
    requires interventionsModule.JObj? && leadSponsor.JObj? && designModule.JObj?
    requires ReadFields(idModule, statusModule, descrModule, conditionsModule,
                        interventionsModule, leadSponsor, designModule).Ok?
    ensures var r := ReadFields(idModule, statusModule, descrModule, conditionsModule,
                                interventionsModule, leadSponsor, designModule).value;
      && (Lacks(conditionsModule, "conditions") ==> r.condition == "")
      && (Lacks(interventionsModule, "interventions") ==> r.interventions == [])
      && (Lacks(designModule, "phases") ==> r.phase == "N/A")
  {
    assert Names([]) == Ok([]);
  }

  /** Modules lacking every field read give the default record. */
  lemma ReadAllDefaults(idModule: Json, statusModule: Json, descrModule: Json, conditionsModule: Json,
                        interventionsModule: Json, leadSponsor: Json, designModule: Json)
    requires Lacks(idModule, "nctId") && Lacks(idModule, "briefTitle") && Lacks(statusModule, "overallStatus")
    requires Lacks(descrModule, "briefSummary") && Lacks(conditionsModule, "conditions")
    requires Lacks(interventionsModule, "interventions") && Lacks(leadSponsor, "name")
    requires Lacks(designModule, "phases")
    ensures ReadFields(idModule, statusModule, descrModule, conditionsModule,
                       interventionsModule, leadSponsor, designModule)
            == Ok(TrialRecord("", "", "", [], "N/A", "", "", "", StudyUrlPrefix))
  {
    assert StudyUrlPrefix + "" == StudyUrlPrefix;
    assert Names([]) == Ok([]);
  }

  /** `_parse_study` */
  function ParseStudy(study: Json): TrialRecord {
    var fields := StudyFields(study);
    if fields.Ok? then fields.value else ParseErrorRecord
  }

  /** A study parses to the error record exactly when it is malformed; a
      parsed record's link is the study page of its id and is never empty,
      and its interventions are non-empty names. */
  lemma ParseStudyFacts(study: Json)
    ensures StudyFields(study).Malformed? <==> ParseStudy(study) == ParseErrorRecord
    ensures StudyFields(study).Ok? ==>
      var r := ParseStudy(study);
      && r.url == StudyUrlPrefix + r.nctId && r.url != ""
      && forall k :: 0 <= k < |r.interventions| ==> r.interventions[k] != ""
  {
    var fields := StudyFields(study);
    if fields.Ok? {
      assert |fields.value.url| >= |StudyUrlPrefix|;
      assert fields.value.url != ParseErrorRecord.url;
    }
  }

  /** The module `name` of a study whose protocol section is an object. */
  function Module(study: Json, name: string): Json
    requires study.JObj? && Member(study, "protocolSection", EmptyObject).JObj?
  {
    Member(Member(study, "protocolSection", EmptyObject), name, EmptyObject)
  }

  /** `obj` is an object without a member `key`. */
  predicate Lacks(obj: Json, key: string) {
    obj.JObj? && Lookup(obj.members, key).None?
  }

  /** A study whose modules are objects without any of the fields read gets
      the empty defaults, phase "N/A" and the bare study link. */
  lemma MissingFieldsDefault(study: Json)
    requires study.JObj? && Member(study, "protocolSection", EmptyObject).JObj?
    requires Lacks(Module(study, "identificationModule"), "nctId")
    requires Lacks(Module(study, "identificationModule"), "briefTitle")
    requires Lacks(Module(study, "statusModule"), "overallStatus")
    requires Lacks(Module(study, "descriptionModule"), "briefSummary")
    requires Lacks(Module(study, "conditionsModule"), "conditions")
    requires Lacks(Module(study, "armsInterventionsModule"), "interventions")
    requires Lacks(Module(study, "sponsorCollaboratorsModule"), "leadSponsor")
    requires Lacks(Module(study, "designModule"), "phases")
    ensures ParseStudy(study) == TrialRecord("", "", "", [], "N/A", "", "", "", StudyUrlPrefix)
  {
    var sponsorModule := Module(study, "sponsorCollaboratorsModule");
    assert Member(sponsorModule, "leadSponsor", EmptyObject) == EmptyObject;
    ReadAllDefaults(Module(study, "identificationModule"), Module(study, "statusModule"),
                    Module(study, "descriptionModule"), Module(study, "conditionsModule"),
                    Module(study, "armsInterventionsModule"), EmptyObject, Module(study, "designModule"));
  }

  /** A study with no fields at all, or with an empty protocol section, is
      such a study. */
  lemma EmptyStudyDefault()
    ensures ParseStudy(EmptyObject) == TrialRecord("", "", "", [], "N/A", "", "", "", StudyUrlPrefix)
    ensures ParseStudy(JObj([("protocolSection", EmptyObject)])) == ParseStudy(EmptyObject)
  {
    MissingFieldsDefault(EmptyObject);
    var study := JObj([("protocolSection", EmptyObject)]);
    assert Member(study, "protocolSection", EmptyObject) == EmptyObject;
    MissingFieldsDefault(study);
  }

  /** In any study that parses, each field read from a module that lacks it
      takes its default: "" for the texts, no interventions, phase "N/A". */
  lemma AbsentFieldDefaults(study: Json)
    requires study.JObj? && Member(study, "protocolSection", EmptyObject).JObj?
    requires StudyFields(study).Ok?
    ensures var r := StudyFields(study).value;
      && (Lacks(Module(study, "identificationModule"), "nctId") ==> r.nctId == "" && r.url == StudyUrlPrefix)
      && (Lacks(Module(study, "identificationModule"), "briefTitle") ==> r.title == "")
      && (Lacks(Module(study, "statusModule"), "overallStatus") ==> r.status == "")
      && (Lacks(Module(study, "descriptionModule"), "briefSummary") ==> r.briefSummary == "")
      && (Lacks(Module(study, "conditionsModule"), "conditions") ==> r.condition == "")
      && (Lacks(Module(study, "armsInterventionsModule"), "interventions") ==> r.interventions == [])
      && (Lacks(Module(study, "sponsorCollaboratorsModule"), "leadSponsor") ==> r.sponsor == "")
      && (Lacks(Module(study, "designModule"), "phases") ==> r.phase == "N/A")
  {
    var sponsorModule := Module(study, "sponsorCollaboratorsModule");
    var leadSponsor := Member(sponsorModule, "leadSponsor", EmptyObject);
    if Lacks(sponsorModule, "leadSponsor") {
      assert leadSponsor == EmptyObject;
      assert Lacks(EmptyObject, "name");
    }
    var idModule, statusModule, descrModule := Module(study, "identificationModule"),
      Module(study, "statusModule"), Module(study, "descriptionModule");
    var conditionsModule, interventionsModule, designModule := Module(study, "conditionsModule"),
      Module(study, "armsInterventionsModule"), Module(study, "designModule");
    assert StudyFields(study) == ReadFields(idModule, statusModule, descrModule, conditionsModule,
                                            interventionsModule, leadSponsor, designModule);
    ReadTextDefaults(idModule, statusModule, descrModule, conditionsModule,
                     interventionsModule, leadSponsor, designModule);
    ReadListDefaults(idModule, statusModule, descrModule, conditionsModule,
                     interventionsModule, leadSponsor, designModule);
  }

  /** A study that is not an object, or whose protocol section is `null`,
      gets the error record. */
  lemma NonObjectStudy(study: Json)
    ensures !study.JObj? ==> ParseStudy(study) == ParseErrorRecord
    ensures ParseStudy(JObj([("protocolSection", JNull)])) == ParseErrorRecord
  {
  }

  /** A list of condition names is joined with ", "; the phase is the first
      listed phase. */
  lemma ConditionAndPhase(conditions: seq<string>, phases: seq<string>)
    ensures JoinConditions(JArr(seq(|conditions|, i requires 0 <= i < |conditions| => JStr(conditions[i]))))
            == Ok(Join(", ", conditions))
    ensures phases != [] ==>
      FirstPhase(JArr(seq(|phases|, i requires 0 <= i < |phases| => JStr(phases[i])))) == Ok(phases[0])
  {
    var xs := seq(|conditions|, i requires 0 <= i < |conditions| => JStr(conditions[i]));
    assert AllStrings(xs).Ok?;
    assert AllStrings(xs).value == conditions;
  }

  // ---------------------------------------------------------------------
  // search_trials
  // ---------------------------------------------------------------------

  /** The query parameters; an absent filter is not sent. */
  datatype SearchParams = SearchParams(
    cond: string, pageSize: int, format: string, phase: Option<string>, status: Option<string>)

  /** A filter list that is given and non-empty, comma-joined. */
  function Filter(values: Option<seq<string>>): (r: Option<string>)
    ensures r.Some? <==> values.Some? && values.value != []
    ensures r.Some? ==> r.value == Join(",", values.value)
  {
    if values.Some? && values.value != [] then Some(Join(",", values.value)) else None
  }

  /** The parameters `search_trials` sends. */
  function BuildSearchParams(condition: string, maxResults: int, phases: Option<seq<string>>,
                             statuses: Option<seq<string>>): (p: SearchParams)
    ensures p.cond == condition && p.format == "json"
    ensures p.pageSize <= 100 && p.pageSize <= maxResults && (p.pageSize == 100 || p.pageSize == maxResults)
    ensures p.phase == Filter(phases) && p.status == Filter(statuses)
  {
    SearchParams(condition, if maxResults < 100 then maxResults else 100, "json", Filter(phases), Filter(statuses))
  }

  /** A filter whose values hold no comma can be split back into them. */
  lemma FilterRoundTrip(values: seq<string>)
    requires values != [] && forall v :: v in values ==> ',' !in v
    ensures Filter(Some(values)).Some? && SplitChar(Filter(Some(values)).value, ',') == values
  {
    JoinSplitChar(values, ',');
    assert [','] == ",";
  }

  /** `search_trials` given the decoded answer (`None` when the request
      fails): every study of the answer parsed, or nothing when the answer
      has no readable study list. */
  function SearchTrials(answer: Option<Json>): (trials: seq<TrialRecord>)
  {
    if answer.None? then []
    else
      var studies := Get(answer.value, "studies", JArr([]));
      if studies.Malformed? then []
      else
        var items := Elements(studies.value);
        if items.Malformed? then []
        else seq(|items.value|, i requires 0 <= i < |items.value| => ParseStudy(items.value[i]))
  }

  /** One record per study of a list answer, in order; nothing when the
      request fails or the answer has no studies. */
  lemma SearchTrialsFacts(studies: seq<Json>, rest: seq<(string, Json)>)
    ensures SearchTrials(None) == []
    ensures SearchTrials(Some(JObj(rest))) == [] <== Lookup(rest, "studies").None?
    ensures var trials := SearchTrials(Some(JObj(rest + [("studies", JArr(studies))])));
      |trials| == |studies| && forall i :: 0 <= i < |studies| ==> trials[i] == ParseStudy(studies[i])
  {
    var members := rest + [("studies", JArr(studies))];
    assert members[|members| - 1] == ("studies", JArr(studies));
  }
}
