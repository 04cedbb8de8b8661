/** `logic/language_processor.py` without the agent framework: what the
    processor does to the text going into a task and to the answer coming
    back. The agent run itself is a parameter (its response, and for the
    quiz the result of `json.loads`, `None` on a decoding error). */
module LanguageProcessor {
  import opened Values
  import opened Text
  import opened Levels
  import QuizScreen

  // ---------------------------------------------------------------------
  // Level keywords

  /** The keywords `_extract_level_from_response` looks for, in priority
      order, aligned with the level names they stand for. */
  const Keywords: seq<string> := ["beginner", "intermediate", "advanced", "proficient", "master"]

  /** `_extract_level_from_response`: the level of the first keyword (in
      priority order) found in the lowered text, else the default. */
  function ExtractLevel(response: string, default: string): string {
    var text := Lower(response);
    if Contains(text, "beginner") then Beginner
    else if Contains(text, "intermediate") then Intermediate
    else if Contains(text, "advanced") then Advanced
    else if Contains(text, "proficient") then Proficient
    else if Contains(text, "master") then Master
    else default
  }

  /** The extracted level is the name of the highest-priority keyword that
      occurs in the lowered text, or the default when none occurs. */
  lemma ExtractLevelFirstKeyword(response: string, default: string)
    ensures var r := ExtractLevel(response, default);
            r in Names || r == default
    ensures (forall k :: 0 <= k < |Keywords| ==> !Contains(Lower(response), Keywords[k]))
            ==> ExtractLevel(response, default) == default
    ensures forall k :: 0 <= k < |Keywords| && Contains(Lower(response), Keywords[k])
                        && (forall j :: 0 <= j < k ==> !Contains(Lower(response), Keywords[j]))
                        ==> ExtractLevel(response, default) == Names[k]
  {
    var text := Lower(response);
    assert Keywords[0] == "beginner" && Keywords[1] == "intermediate" && Keywords[2] == "advanced"
        && Keywords[3] == "proficient" && Keywords[4] == "master";
    forall k | 0 <= k < |Keywords| && Contains(text, Keywords[k])
               && (forall j :: 0 <= j < k ==> !Contains(text, Keywords[j]))
      ensures ExtractLevel(response, default) == Names[k]
    {
      if k >= 1 { assert !Contains(text, Keywords[0]); }
      if k >= 2 { assert !Contains(text, Keywords[1]); }
      if k >= 3 { assert !Contains(text, Keywords[2]); }
      if k >= 4 { assert !Contains(text, Keywords[3]); }
    }
  }

  /** With a default that is not a level name, the default comes back
      exactly when no keyword occurs. */
  lemma ExtractLevelDefaultIff(response: string, default: string)
    requires default !in Names
    ensures ExtractLevel(response, default) == default
            <==> forall k :: 0 <= k < |Keywords| ==> !Contains(Lower(response), Keywords[k])
  {
    ExtractLevelFirstKeyword(response, default);
    var text := Lower(response);
    if ExtractLevel(response, default) == default {
      forall k | 0 <= k < |Keywords|
        ensures !Contains(text, Keywords[k])
      {
        if k == 0 { assert Keywords[0] == "beginner"; }
        else if k == 1 { assert Keywords[1] == "intermediate"; }
        else if k == 2 { assert Keywords[2] == "advanced"; }
        else if k == 3 { assert Keywords[3] == "proficient"; }
        else { assert Keywords[4] == "master"; }
      }
    }
  }

  /** Matching ignores ASCII case. */
  lemma ExtractLevelIgnoresCase(a: string, b: string, default: string)
    requires Lower(a) == Lower(b)
    ensures ExtractLevel(a, default) == ExtractLevel(b, default)
  {
  }

  /** Priority, not position: "ADVANCED ... beginner" is a Beginner text. */
  lemma BeginnerBeatsAdvanced()
    ensures ExtractLevel("ADVANCED, but a beginner", "Unknown") == Beginner
  {
    var text := Lower("ADVANCED, but a beginner");
    assert text[16..24] == "beginner";
    assert OccursAt(text, "beginner", 16);
  }

  // ---------------------------------------------------------------------
  // Template substitution

  /** The placeholder `{{ key }}`. */
  function Placeholder(key: string): (p: string)
    ensures |p| == |key| + 6
  {
    "{{ " + key + " }}"
  }

  /** The substitution loop of `_run_single_task`: each key's placeholder
      replaced by its value, key by key in insertion order. Values are the
      `str(value)` texts. */
  function Render(template: string, vars: seq<(string, string)>): string
    decreases |vars|
  {
    if vars == [] then template
    else Render(ReplaceAll(template, Placeholder(vars[0].0), vars[0].1), vars[1..])
  }

  /** A template with no placeholder of any key is left as it is. */
  lemma {:induction false} RenderWithoutPlaceholders(template: string, vars: seq<(string, string)>)
    requires forall i :: 0 <= i < |vars| ==> !Contains(template, Placeholder(vars[i].0))
    ensures Render(template, vars) == template
    decreases |vars|
  {
    if vars != [] {
      ReplaceAbsent(template, Placeholder(vars[0].0), vars[0].1);
      RenderWithoutPlaceholders(template, vars[1..]);
    }
  }

  /** One key: the template changes iff its placeholder occurs and the value
      differs from the placeholder itself. */
  lemma RenderOneKey(template: string, key: string, value: string)
    ensures Render(template, [(key, value)]) == template
            <==> !Contains(template, Placeholder(key)) || value == Placeholder(key)
  {
    ReplaceUnchangedIff(template, Placeholder(key), value);
  }

  /** An insertion-ordered dict of task inputs: no key twice. */
  predicate DistinctKeys(vars: seq<(string, string)>) {
    forall i, j :: 0 <= i < j < |vars| ==> vars[i].0 != vars[j].0
  }

  /** Position of `key` in the dict, if present. */
  function KeyIndex(vars: seq<(string, string)>, key: string): (r: Option<nat>)
    ensures r.None? <==> forall i :: 0 <= i < |vars| ==> vars[i].0 != key
    ensures r.Some? ==> r.value < |vars| && vars[r.value].0 == key
    decreases |vars|
  {
    if vars == [] then None
    else if vars[0].0 == key then Some(0)
    else
      match KeyIndex(vars[1..], key)
      case None => None
      case Some(n) => Some(n + 1)
  }

  /** `d.get(key)`. */
  function Lookup(vars: seq<(string, string)>, key: string): Option<string> {
    match KeyIndex(vars, key)
    case None => None
    case Some(i) => Some(vars[i].1)
  }

  /** `d[key] = value` on an insertion-ordered dict: an existing key keeps
      its place and takes the new value, a new key goes last, and no other
      entry moves or changes. */
  function SetKey(vars: seq<(string, string)>, key: string, value: string): (r: seq<(string, string)>)
    requires DistinctKeys(vars)
    ensures DistinctKeys(r)
    ensures KeyIndex(vars, key).Some? ==>
              |r| == |vars|
              && forall i :: 0 <= i < |vars| ==>
                   r[i] == (if vars[i].0 == key then (key, value) else vars[i])
    ensures KeyIndex(vars, key).None? ==> r == vars + [(key, value)]
  {
    match KeyIndex(vars, key)
    case None => vars + [(key, value)]
    case Some(i) => vars[i := (key, value)]
  }

  /** Reading back: the key now maps to the value, every other key maps to
      what it did before. */
  lemma SetKeyLookup(vars: seq<(string, string)>, key: string, value: string, other: string)
    requires DistinctKeys(vars)
    ensures Lookup(SetKey(vars, key, value), key) == Some(value)
    ensures other != key ==> Lookup(SetKey(vars, key, value), other) == Lookup(vars, other)
  {
    var r := SetKey(vars, key, value);
    var k := KeyIndex(r, key);
    assert k.Some? by {
      if KeyIndex(vars, key).Some? {
        assert r[KeyIndex(vars, key).value].0 == key;
      } else {
        assert r[|vars|].0 == key;
      }
    }
    if other != key {
      var a := KeyIndex(vars, other);
      var b := KeyIndex(r, other);
      if a.Some? {
        assert r[a.value] == vars[a.value];
        assert b.Some? && b.value == a.value;
      }
    }
  }

  /** The inputs handed to the agent run: when a non-empty template is
      registered for the task, "task" is set to the rendered template (which
      was rendered from the inputs as given, an earlier "task" entry
      included); otherwise the inputs go as they are. */
  function TaskInputs(template: Option<string>, vars: seq<(string, string)>): (r: seq<(string, string)>)
    requires DistinctKeys(vars)
    ensures DistinctKeys(r)
    ensures template.None? || template.value == [] ==> r == vars
    ensures template.Some? && template.value != [] ==>
              Lookup(r, "task") == Some(Render(template.value, vars))
              && forall key :: key != "task" ==> Lookup(r, key) == Lookup(vars, key)
  {
    if template.Some? && template.value != [] then
      var r := SetKey(vars, "task", Render(template.value, vars));
      forall key | key != "task"
        ensures Lookup(r, key) == Lookup(vars, key)
      {
        SetKeyLookup(vars, "task", Render(template.value, vars), key);
      }
      SetKeyLookup(vars, "task", Render(template.value, vars), "task");
      r
    else vars
  }

  /** The quiz request passes "task" itself: the rendered template replaces
      that entry in place, so the inputs keep their length and order. */
  lemma TaskReplacedInPlace(template: string, vars: seq<(string, string)>, i: nat)
    requires DistinctKeys(vars) && template != [] && i < |vars| && vars[i].0 == "task"
    ensures |TaskInputs(Some(template), vars)| == |vars|
    ensures TaskInputs(Some(template), vars)[i] == ("task", Render(template, vars))
  {
    assert KeyIndex(vars, "task").Some?;
  }

  // ---------------------------------------------------------------------
  // Quiz data

  /** The single record `prepare_quiz_data` returns when the response is
      not valid JSON. */
  const FallbackQuestion: Json :=
    JObj(map[
      "question" := JStr("Error generating quiz"),
      "options" := JList([JStr("Please try again later")]),
      "correct_answer" := JInt(0)])

  /** `prepare_quiz_data` after the agent run: the decoded JSON, or the
      one-record fallback list. */
  function PrepareQuizData(decoded: Option<Json>): (r: Json)
    ensures decoded.Some? ==> r == decoded.value
    ensures decoded.None? ==> r.JList? && |r.items| == 1
  {
    if decoded.Some? then decoded.value else JList([FallbackQuestion])
  }

  /** The fallback has one option and stores the answer under
      "correct_answer", so the quiz screen rejects it for a missing answer. */
  lemma FallbackRejectedByQuizScreen()
    ensures PrepareQuizData(None) == JList([FallbackQuestion])
    ensures "answer" !in FallbackQuestion.fields && "correct_answer" in FallbackQuestion.fields
    ensures |FallbackQuestion.fields["options"].items| == 1
    ensures QuizScreen.ItemDefect(FallbackQuestion) == Some(QuizScreen.MissingAnswer)
    ensures !QuizScreen.WellFormed(FallbackQuestion)
  {
  }

  // ---------------------------------------------------------------------
  // Proficiency analysis

  /** What the agent run returned: a dict, or anything else by its text. */
  datatype Response = DictResponse(fields: map<string, Json>) | TextResponse(text: string)

  /** The dict `analyze_proficiency` returns: exactly these two keys. */
  datatype Analysis = Analysis(feedback: Json, estimatedLevel: Json)

  /** `analyze_proficiency`: a dict response supplies both fields (with ""
      and the user's level as defaults); any other response is the feedback
      text and the level comes from the keyword search. */
  function AnalyzeProficiency(response: Response, userLevel: string): (r: Analysis)
    ensures response.DictResponse? ==>
              r.feedback == Get(response.fields, "feedback", JStr(""))
              && r.estimatedLevel == Get(response.fields, "estimated_level", JStr(userLevel))
    ensures response.TextResponse? ==>
              r.feedback == JStr(response.text)
              && r.estimatedLevel == JStr(ExtractLevel(response.text, userLevel))
              && (r.estimatedLevel.s in Names || r.estimatedLevel.s == userLevel)
  {
    match response
    case DictResponse(fields) =>
      Analysis(Get(fields, "feedback", JStr("")), Get(fields, "estimated_level", JStr(userLevel)))
    case TextResponse(text) =>
      ExtractLevelFirstKeyword(text, userLevel);
      Analysis(JStr(text), JStr(ExtractLevel(text, userLevel)))
  }
}
