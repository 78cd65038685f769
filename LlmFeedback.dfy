/** The post-processing around the language-model evaluation in
    backend/feedback.py: the transcript's role mapping, the validation and
    clamping of the parsed JSON answer, the assembly of the result record and
    the deterministic fallback record.

    The model call itself and `json.loads` are not modelled: the parsed
    answer is a parameter, `None` when it could not be parsed. */
module LlmFeedback {
  import opened Wrappers
  import opened Rubric

  /** One turn of the model's conversation: a role and its text. */
  datatype Content = Content(role: string, text: string)

  /** A parsed JSON value. A score is usable only as an integer (`Num`); any
      other value makes `int()` fail. */
  datatype Value = Num(n: int) | Str(s: string) | Dict(fields: map<string, Value>) | Other

  /** One section of the result record. */
  datatype SectionOut = SectionOut(key: string, title: string, score: int, feedback: Value)

  /** The record `generate_feedback_json_with_model_v2` returns. */
  datatype Record = Record(feedbackText: Value, overallScore: int, sections: seq<SectionOut>)

  /** An entry of `SECTION_HINTS`: a section key, its title and its hint. */
  datatype Hint = Hint(key: string, title: string, hint: string)

  /** `SECTION_HINTS`, in the order the result record lists its sections. */
  const Hints: seq<Hint> := [
    Hint("history", "History Taking",
         "Consider OPQRST (onset, provocation/palliation, quality, radiation, severity, time) to structure history."),
    Hint("red_flags", "Red Flags",
         "Good practice to screen for red flags early (e.g., fever, chest pain, syncope)."),
    Hint("meds_allergies", "Meds & Allergies",
         "Always clarify current meds and allergies with examples."),
    Hint("differential", "Differential Diagnosis",
         "State a brief differential and how you will rule in/out possibilities."),
    Hint("plan", "Plan & Counseling",
         "Outline next steps and safety-netting (when to return, expected course)."),
    Hint("communication", "Communication",
         "Use plain language and teach-back to confirm understanding.")
  ]

  /** The keys the answer must have, in the order they are checked. */
  const RequiredKeys: seq<string> := ["overall_feedback", "overall_score", "history", "plan",
                                      "red_flags", "meds_allergies", "differential", "communication"]

  /** The sections in the order their structure is checked and clamped. */
  const CheckOrder: seq<string> := ["history", "plan", "red_flags", "meds_allergies", "differential", "communication"]

  const FallbackText := "Automatic fallback feedback. (LLM JSON unavailable.)"

  /** The role a transcript message takes in the model's conversation. */
  function ContentRole(role: string): (r: string)
    ensures r == "user" || r == "model"
    ensures r == "user" <==> role == "doctor"
  {
    if role == "doctor" then "user" else "model"
  }

  /** `_messages_to_contents`: one turn per message, in order, the doctor's
      as "user" and every other role's as "model". */
  method MessagesToContents(ms: seq<Msg>) returns (out: seq<Content>)
    ensures |out| == |ms|
    ensures forall i :: 0 <= i < |ms| ==> out[i] == Content(ContentRole(ms[i].role), ms[i].content)
  {
    out := [];
    for i := 0 to |ms|
      invariant |out| == i
      invariant forall j :: 0 <= j < i ==> out[j] == Content(ContentRole(ms[j].role), ms[j].content)
    {
      if ms[i].role == "doctor" {
        out := out + [Content("user", ms[i].content)];
      } else {
        out := out + [Content("model", ms[i].content)];
      }
    }
  }

  /** `int(max(lo, min(hi, x)))` for an integer `x`. */
  function Clamp(x: int, lo: int, hi: int): (r: int)
    requires lo <= hi
    ensures lo <= r <= hi
    ensures lo <= x <= hi ==> r == x
    ensures x < lo ==> r == lo
    ensures hi < x ==> r == hi
  {
    if x < lo then lo else if hi < x then hi else x
  }

  /** `_fallback_sections` with the fallback text and score 0: every
      section scores 0 and carries its title and, as feedback, its hint. */
  function Fallback(): (r: Record)
    ensures r.feedbackText == Str(FallbackText) && r.overallScore == 0
    ensures |r.sections| == |Hints|
    ensures forall i :: 0 <= i < |Hints| ==>
              r.sections[i] == SectionOut(Hints[i].key, Hints[i].title, 0, Str(Hints[i].hint))
  {
    Record(Str(FallbackText), 0, seq(|Hints|, i requires 0 <= i < |Hints| => SectionOut(Hints[i].key, Hints[i].title, 0, Str(Hints[i].hint))))
  }

  /** Every required key is present. */
  predicate HasRequired(d: map<string, Value>) {
    forall i :: 0 <= i < |RequiredKeys| ==> RequiredKeys[i] in d
  }

  /** The required keys are the overall feedback, the overall score and the
      checked sections. */
  lemma RequiredSplit(d: map<string, Value>)
    ensures HasRequired(d) <==>
              "overall_feedback" in d && "overall_score" in d && forall i :: 0 <= i < |CheckOrder| ==> CheckOrder[i] in d
  {
    assert RequiredKeys == ["overall_feedback", "overall_score"] + CheckOrder;
    assert forall i :: 0 <= i < |CheckOrder| ==> CheckOrder[i] == RequiredKeys[i + 2];
    assert RequiredKeys[0] == "overall_feedback" && RequiredKeys[1] == "overall_score";
  }

  /** Every checked section is present and well formed. */
  predicate SectionsOk(d: map<string, Value>) {
    forall i :: 0 <= i < |CheckOrder| ==> CheckOrder[i] in d && SectionOk(d[CheckOrder[i]])
  }

  /** Every section of the result record is present and well formed. */
  predicate HintSectionsOk(d: map<string, Value>) {
    forall i :: 0 <= i < |Hints| ==> Hints[i].key in d && SectionOk(d[Hints[i].key])
  }

  /** The sections checked are those of the result record, in another
      order. */
  lemma CheckedCoversHints(d: map<string, Value>)
    requires SectionsOk(d)
    ensures HintSectionsOk(d)
  {
    HintPositions();
  }

  /** Where each section of the record sits in `CheckOrder`. */
  const HintPos: seq<nat> := [0, 2, 3, 4, 1, 5]

  lemma HintPositions()
    ensures |HintPos| == |Hints|
    ensures forall i :: 0 <= i < |Hints| ==> HintPos[i] < |CheckOrder| && CheckOrder[HintPos[i]] == Hints[i].key
  {
  }

  /** A section the validation accepts: a dictionary with a "score" and a
      "feedback", whose score converts to an integer. */
  predicate SectionOk(v: Value) {
    v.Dict? && "score" in v.fields && "feedback" in v.fields && v.fields["score"].Num?
  }

  /** An answer that passes every check: it parsed to a dictionary holding
      all required keys, its overall score converts to an integer and every
      section is well formed. */
  predicate Usable(parsed: Option<Value>) {
    parsed.Some? && parsed.value.Dict? && HasRequired(parsed.value.fields) &&
    "overall_score" in parsed.value.fields && parsed.value.fields["overall_score"].Num? &&
    SectionsOk(parsed.value.fields)
  }

  /** What the post-processing returns for a parsed answer: the fallback
      record for an unusable one; otherwise the overall feedback as text,
      the overall score clamped into 0..100, and the six sections with their
      titles, the model's feedback and the scores clamped into 0..5. */
  function Evaluate(parsed: Option<Value>): (r: Record)
    ensures !Usable(parsed) ==> r == Fallback()
    ensures |r.sections| == |Hints|
    ensures 0 <= r.overallScore <= 100
    ensures forall i :: 0 <= i < |Hints| ==>
              r.sections[i].key == Hints[i].key && r.sections[i].title == Hints[i].title &&
              0 <= r.sections[i].score <= 5
  {
    if Usable(parsed) then
      var d := parsed.value.fields;
      RequiredSplit(d);
      CheckedCoversHints(d);
      Record(d["overall_feedback"], Clamp(d["overall_score"].n, 0, 100),
             seq(|Hints|, i requires 0 <= i < |Hints| => SectionFrom(i, d[Hints[i].key])))
    else Fallback()
  }

  /** Section `i` of a successful record, from the model's section `v`. */
  function SectionFrom(i: nat, v: Value): (r: SectionOut)
    requires i < |Hints| && SectionOk(v)
    ensures r.key == Hints[i].key && r.title == Hints[i].title && 0 <= r.score <= 5
    ensures r.feedback == v.fields["feedback"]
    ensures r.score == Clamp(v.fields["score"].n, 0, 5)
  {
    SectionOut(Hints[i].key, Hints[i].title, Clamp(v.fields["score"].n, 0, 5), v.fields["feedback"])
  }

  /** `overall_score` and `overall_feedback` are not section keys. */
  lemma ScoreKeysNotSections()
    ensures forall i :: 0 <= i < |CheckOrder| ==> CheckOrder[i] != "overall_score" && CheckOrder[i] != "overall_feedback"
  {
    assert "communication"[0] != "overall_score"[0];
  }

  /** The section checked at position `j` after it was clamped in place. */
  function Clamped(v: Value): (r: Value)
    requires SectionOk(v)
    ensures SectionOk(r)
    ensures r.fields["feedback"] == v.fields["feedback"]
    ensures r.fields["score"] == Num(Clamp(v.fields["score"].n, 0, 5))
  {
    Dict(v.fields["score" := Num(Clamp(v.fields["score"].n, 0, 5))])
  }

  /** The result record built from the validated, clamped dictionary. */
  function Assemble(data: map<string, Value>): (r: Record)
    requires "overall_feedback" in data && "overall_score" in data && data["overall_score"].Num?
    requires HintSectionsOk(data)
    ensures r.feedbackText == data["overall_feedback"] && r.overallScore == data["overall_score"].n
    ensures |r.sections| == |Hints|
    ensures forall i :: 0 <= i < |Hints| ==>
              r.sections[i] == SectionOut(Hints[i].key, Hints[i].title, data[Hints[i].key].fields["score"].n,
                                          data[Hints[i].key].fields["feedback"])
  {
    Record(data["overall_feedback"], data["overall_score"].n,
           seq(|Hints|, i requires 0 <= i < |Hints| =>
             SectionOut(Hints[i].key, Hints[i].title, data[Hints[i].key].fields["score"].n, data[Hints[i].key].fields["feedback"])))
  }

  /** The validation of `generate_feedback_json_with_model_v2`: the
      required keys are checked in order, the overall score is clamped in
      place, then every section is checked and its score clamped in place;
      any failure gives the fallback record, and otherwise the record is
      assembled from the clamped dictionary. */
  method Validate(parsed: Option<Value>) returns (r: Record)
    ensures r == Evaluate(parsed)
  {
    if parsed.None? || !parsed.value.Dict? {
      return Fallback();
    }
    var orig := parsed.value.fields;
    var data := orig;
    for i := 0 to |RequiredKeys|
      invariant forall j :: 0 <= j < i ==> RequiredKeys[j] in data
    {
      if RequiredKeys[i] !in data {
        return Fallback();
      }
    }
    RequiredSplit(orig);
    var os := data["overall_score"];
    if !os.Num? {
      return Fallback();
    }
    data := data["overall_score" := Num(Clamp(os.n, 0, 100))];
    ScoreKeysNotSections();
    for i := 0 to |CheckOrder|
      invariant data.Keys == orig.Keys
      invariant data["overall_feedback"] == orig["overall_feedback"]
      invariant data["overall_score"] == Num(Clamp(orig["overall_score"].n, 0, 100))
      invariant forall j :: 0 <= j < i ==> SectionOk(orig[CheckOrder[j]])
      invariant forall j :: 0 <= j < |CheckOrder| ==>
                  data[CheckOrder[j]] == if j < i then Clamped(orig[CheckOrder[j]]) else orig[CheckOrder[j]]
    {
      var k := CheckOrder[i];
      var v := data[k];
      if !SectionOk(v) {
        return Fallback();
      }
      data := data[k := Clamped(v)];
    }
    assert Usable(parsed);
    CheckedCoversHints(orig);
    CheckedCoversHints(data);
    r := Assemble(data);
    forall i | 0 <= i < |Hints|
      ensures r.sections[i] == Evaluate(parsed).sections[i]
    {
      HintPositions();
      assert CheckOrder[HintPos[i]] == Hints[i].key;
    }
  }

  /** A missing required key gives the fallback record. */
  lemma MissingKeyFallback(d: map<string, Value>, k: string)
    requires k in RequiredKeys && k !in d
    ensures Evaluate(Some(Dict(d))) == Fallback()
  {
    var i :| 0 <= i < |RequiredKeys| && RequiredKeys[i] == k;
    assert !HasRequired(d);
  }

  /** A section that is not a dictionary with "score" and "feedback" (or
      whose score is not an integer) gives the fallback record. */
  lemma BadSectionFallback(d: map<string, Value>, k: string)
    requires k in CheckOrder && k in d && !SectionOk(d[k])
    ensures Evaluate(Some(Dict(d))) == Fallback()
  {
    var i :| 0 <= i < |CheckOrder| && CheckOrder[i] == k;
  }

  /** On a usable answer the record carries the model's overall feedback,
      its feedback for each section, and its scores wherever they already
      lie in range; a score out of range becomes the nearer bound (0 or 100
      overall, 0 or 5 for a section). */
  lemma UsableKeepsModelOutput(d: map<string, Value>)
    requires Usable(Some(Dict(d)))
    ensures "overall_feedback" in d && "overall_score" in d && HintSectionsOk(d)
    ensures var r := Evaluate(Some(Dict(d)));
            r.feedbackText == d["overall_feedback"] &&
            (0 <= d["overall_score"].n <= 100 ==> r.overallScore == d["overall_score"].n) &&
            (d["overall_score"].n < 0 ==> r.overallScore == 0) &&
            (100 < d["overall_score"].n ==> r.overallScore == 100) &&
            forall i :: 0 <= i < |Hints| ==>
              r.sections[i].feedback == d[Hints[i].key].fields["feedback"] &&
              (0 <= d[Hints[i].key].fields["score"].n <= 5 ==> r.sections[i].score == d[Hints[i].key].fields["score"].n) &&
              (d[Hints[i].key].fields["score"].n < 0 ==> r.sections[i].score == 0) &&
              (5 < d[Hints[i].key].fields["score"].n ==> r.sections[i].score == 5)
  {
    RequiredSplit(d);
    CheckedCoversHints(d);
  }
}
