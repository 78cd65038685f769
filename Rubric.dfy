/** The keyword rubric and the offline patient reply of backend/app.py.

    `ScoreSection` counts how many keyword entries occur in the lower-cased,
    space-joined texts and caps the count at 5. `GenerateFeedback` scores six
    fixed sections (five on the doctor's messages only, "communication" on
    the doctor's then the patient's messages) and rounds the total, out of
    30, to a percentage. `FallbackReply` is the canned patient reply used
    when no language model is configured. */
module Rubric {
  import opened Text

  /** A stored chat message: its role ("doctor" or "patient") and text. */
  datatype Msg = Msg(role: string, content: string)

  // ------------------------------------------------------ section scoring

  /** How many entries of `keywords` occur in `text`; an entry listed twice
      is counted twice, each entry at most once. */
  function CountHits(text: string, keywords: seq<string>): (n: nat)
    ensures n <= |keywords|
  {
    if keywords == [] then 0
    else CountHits(text, keywords[..|keywords| - 1]) + (if Contains(text, keywords[|keywords| - 1]) then 1 else 0)
  }

  /** The text a section is scored on: the texts joined by single spaces,
      lower-cased. */
  function ScoredText(texts: seq<string>): string {
    Lower(Join(texts, " "))
  }

  /** `_score_section`: the number of keyword hits, capped at 5. */
  function ScoreSection(texts: seq<string>, keywords: seq<string>): (r: int)
    ensures 0 <= r <= 5 && r <= |keywords|
  {
    var hits := CountHits(ScoredText(texts), keywords);
    if hits > 5 then 5 else hits
  }

  /** The positions of the keyword entries that occur in `text`. */
  function HitSet(text: string, keywords: seq<string>): set<int> {
    set i | 0 <= i < |keywords| && Contains(text, keywords[i])
  }

  /** The count is the number of keyword positions whose entry occurs in the
      text. */
  lemma {:induction false} CountHitsIsHitSet(text: string, keywords: seq<string>)
    ensures CountHits(text, keywords) == |HitSet(text, keywords)|
  {
    if keywords != [] {
      var n := |keywords| - 1;
      var init := keywords[..n];
      CountHitsIsHitSet(text, init);
      var last: set<int> := if Contains(text, keywords[n]) then {n} else {};
      assert forall i :: 0 <= i < n ==> init[i] == keywords[i];
      assert HitSet(text, keywords) == HitSet(text, init) + last;
      assert n !in HitSet(text, init);
    }
  }

  /** The section score is the number of keyword entries occurring in the
      scored text when that is below 5, and 5 exactly when at least five
      occur. */
  lemma ScoreSectionIsCappedHits(texts: seq<string>, keywords: seq<string>)
    ensures var hits := |HitSet(ScoredText(texts), keywords)|;
            (ScoreSection(texts, keywords) == 5 <==> hits >= 5) &&
            (hits < 5 ==> ScoreSection(texts, keywords) == hits)
  {
    CountHitsIsHitSet(ScoredText(texts), keywords);
  }

  /** Every entry occurring gives the full count; none occurring gives 0. */
  lemma {:induction false} CountHitsExtremes(text: string, keywords: seq<string>)
    ensures (forall i :: 0 <= i < |keywords| ==> Contains(text, keywords[i])) ==> CountHits(text, keywords) == |keywords|
    ensures (forall i :: 0 <= i < |keywords| ==> !Contains(text, keywords[i])) ==> CountHits(text, keywords) == 0
  {
    if keywords != [] {
      CountHitsExtremes(text, keywords[..|keywords| - 1]);
    }
  }

  /** A keyword that occurs in a text occurs in every extension of it, so the
      count never drops. */
  lemma {:induction false} CountHitsMonotone(text: string, longer: string, keywords: seq<string>)
    requires text <= longer
    ensures CountHits(text, keywords) <= CountHits(longer, keywords)
  {
    if keywords != [] {
      CountHitsMonotone(text, longer, keywords[..|keywords| - 1]);
      var k := keywords[|keywords| - 1];
      if Contains(text, k) {
        ContainsPrefix(text, longer, k);
      }
    }
  }

  /** Lower-casing keeps a prefix a prefix. */
  lemma LowerOfPrefix(s: string, t: string)
    requires s <= t
    ensures Lower(s) <= Lower(t)
  {
    assert t == s + t[|s|..];
    LowerPrefix(s, t[|s|..]);
  }

  /** More texts after the scored ones never lower a section's score. */
  lemma ScoreSectionMonotone(texts: seq<string>, more: seq<string>, keywords: seq<string>)
    ensures ScoreSection(texts, keywords) <= ScoreSection(texts + more, keywords)
  {
    JoinPrefix(texts, more, " ");
    LowerOfPrefix(Join(texts, " "), Join(texts + more, " "));
    CountHitsMonotone(ScoredText(texts), ScoredText(texts + more), keywords);
  }

  // -------------------------------------------------------- the six sections

  const HistoryKeywords: seq<string> :=
    ["onset", "duration", "location", "severity", "character", "radiate", "better", "worse", "timeline"]
  const RedFlagKeywords: seq<string> :=
    ["fever", "weight loss", "bleeding", "faint", "chest pain", "short of breath", "neurologic"]
  const MedsKeywords: seq<string> := ["medication", "drug", "allergy", "penicillin", "dose"]
  const DifferentialKeywords: seq<string> := ["could be", "differential", "rule out", "consider", "likely"]
  const PlanKeywords: seq<string> :=
    ["test", "lab", "x-ray", "antibiotic", "ibuprofen", "return", "follow up", "hydration", "rest"]
  const CommunicationKeywords: seq<string> := ["understand", "clarify", "explain", "summarize", "teach back"]

  /** One scored section of the rubric. */
  datatype Section = Section(key: string, title: string, score: int, feedback: string)

  /** The rubric of one thread: the rounded percentage and the six sections,
      in the order history, red_flags, meds_allergies, differential, plan,
      communication. */
  datatype Feedback = Feedback(overallScore: int, sections: seq<Section>)

  /** The contents of the messages with the given role, in order. */
  function TextsOf(ms: seq<Msg>, role: string): (r: seq<string>)
    ensures |r| <= |ms|
  {
    if ms == [] then []
    else TextsOf(ms[..|ms| - 1], role) + (if ms[|ms| - 1].role == role then [ms[|ms| - 1].content] else [])
  }

  lemma TextsOfSnoc(ms: seq<Msg>, m: Msg, role: string)
    ensures TextsOf(ms + [m], role) == TextsOf(ms, role) + (if m.role == role then [m.content] else [])
  {
    assert (ms + [m])[..|ms|] == ms;
  }

  /** `round(raw / 30 * 100)` for a total of 0..30; `raw * 100 / 30` never
      ends in exactly one half, so the nearest integer is `(raw*10 + 1) / 3`. */
  function Overall(raw: int): (r: int)
    requires 0 <= raw <= 30
    ensures -15 < 30 * r - 100 * raw < 15
    ensures 0 <= r <= 100
  {
    (raw * 10 + 1) / 3
  }

  /** The percentage is 0 exactly for a total of 0, 100 exactly for the full
      30, and it never decreases as the total grows. */
  lemma OverallExtremes(raw: int, raw': int)
    requires 0 <= raw <= raw' <= 30
    ensures Overall(raw) == 0 <==> raw == 0
    ensures Overall(raw) == 100 <==> raw == 30
    ensures Overall(raw) <= Overall(raw')
  {
  }

  /** `generate_feedback_for_thread`. */
  function GenerateFeedback(ms: seq<Msg>): Feedback {
    Assemble(TextsOf(ms, "doctor"), TextsOf(ms, "patient"))
  }

  const SectionTitles: seq<string> :=
    ["History Taking", "Red Flags", "Meds & Allergies", "Differential Diagnosis", "Plan & Counseling", "Communication"]

  const SectionFeedback: seq<string> := [
    "Consider OPQRST (onset, provocation, quality, radiation, severity, time) to structure history.",
    "Good practice to screen for red flags early (e.g., fever, chest pain, syncope).",
    "Always clarify current meds and allergies with examples.",
    "State a brief differential and how you will rule in/out possibilities.",
    "Outline next steps and safety-netting (when to return, expected course).",
    "Use plain language and teach-back to confirm understanding."
  ]

  const SectionKeywords: seq<seq<string>> :=
    [HistoryKeywords, RedFlagKeywords, MedsKeywords, DifferentialKeywords, PlanKeywords, CommunicationKeywords]

  /** Section `i` of the rubric, scored on `texts`. */
  function SectionOf(i: nat, texts: seq<string>): (r: Section)
    requires i < 6
    ensures r.key == SectionKeys[i] && r.title == SectionTitles[i] && r.feedback == SectionFeedback[i]
    ensures 0 <= r.score <= 5
  {
    Section(SectionKeys[i], SectionTitles[i], ScoreSection(texts, SectionKeywords[i]), SectionFeedback[i])
  }

  /** The rubric of a thread whose doctor and patient texts are `doc` and
      `pat`: the first five sections on `doc`, communication on `doc` then
      `pat`. */
  function Assemble(doc: seq<string>, pat: seq<string>): Feedback {
    var sections := seq(6, i requires 0 <= i < 6 => SectionOf(i, if i < 5 then doc else doc + pat));
    assert forall i :: 0 <= i < 6 ==> sections[i] == SectionOf(i, if i < 5 then doc else doc + pat);
    Feedback(Overall(Total(sections)), sections)
  }

  const SectionKeys: seq<string> := ["history", "red_flags", "meds_allergies", "differential", "plan", "communication"]

  /** `sum(sec["score"] for sec in sections)` over six sections scored
      0..5. */
  function Total(sections: seq<Section>): (raw: int)
    requires |sections| == 6
    requires forall i :: 0 <= i < 6 ==> 0 <= sections[i].score <= 5
    ensures 0 <= raw <= 30
  {
    sections[0].score + sections[1].score + sections[2].score +
    sections[3].score + sections[4].score + sections[5].score
  }

  lemma AssembleSections(doc: seq<string>, pat: seq<string>)
    ensures var f := Assemble(doc, pat);
            |f.sections| == 6 &&
            (forall i :: 0 <= i < 5 ==> f.sections[i] == SectionOf(i, doc)) &&
            f.sections[5] == SectionOf(5, doc + pat)
  {
  }

  /** The rubric has the six sections under their fixed keys, titles and
      feedback hints, each scored 0..5, and its overall score is the rounded percentage of their total:
      0 when every section scores 0 and 100 when every section scores 5. */
  lemma GenerateFeedbackShape(ms: seq<Msg>)
    ensures var f := GenerateFeedback(ms);
            |f.sections| == 6 &&
            (forall i :: 0 <= i < 6 ==>
               f.sections[i].key == SectionKeys[i] && f.sections[i].title == SectionTitles[i] &&
               f.sections[i].feedback == SectionFeedback[i] && 0 <= f.sections[i].score <= 5) &&
            f.overallScore == Overall(Total(f.sections)) && 0 <= f.overallScore <= 100 &&
            ((forall i :: 0 <= i < 6 ==> f.sections[i].score == 0) ==> f.overallScore == 0) &&
            ((forall i :: 0 <= i < 6 ==> f.sections[i].score == 5) ==> f.overallScore == 100)
  {
    AssembleSections(TextsOf(ms, "doctor"), TextsOf(ms, "patient"));
  }

  /** A patient message added to the thread changes none of the five
      doctor-only sections and never lowers the communication score. */
  lemma AppendPatientMessage(ms: seq<Msg>, content: string)
    ensures var f := GenerateFeedback(ms);
            var g := GenerateFeedback(ms + [Msg("patient", content)]);
            (forall i :: 0 <= i < 5 ==> g.sections[i] == f.sections[i]) &&
            f.sections[5].score <= g.sections[5].score
  {
    var m := Msg("patient", content);
    TextsOfSnoc(ms, m, "doctor");
    TextsOfSnoc(ms, m, "patient");
    var doc := TextsOf(ms, "doctor");
    var pat := TextsOf(ms, "patient");
    assert "patient" != "doctor" by {
      assert "patient"[0] != "doctor"[0];
    }
    assert TextsOf(ms + [m], "doctor") == doc + [];
    assert doc + [] == doc;
    AssembleSections(doc, pat);
    AssembleSections(doc, pat + [content]);
    assert doc + (pat + [content]) == (doc + pat) + [content];
    ScoreSectionMonotone(doc + pat, [content], SectionKeywords[5]);
  }

  /** A doctor message added to the thread never lowers any of the five
      doctor-only sections. */
  lemma AppendDoctorMessage(ms: seq<Msg>, content: string)
    ensures var f := GenerateFeedback(ms);
            var g := GenerateFeedback(ms + [Msg("doctor", content)]);
            forall i :: 0 <= i < 5 ==> f.sections[i].score <= g.sections[i].score
  {
    var m := Msg("doctor", content);
    TextsOfSnoc(ms, m, "doctor");
    TextsOfSnoc(ms, m, "patient");
    var doc := TextsOf(ms, "doctor");
    var pat := TextsOf(ms, "patient");
    AssembleSections(doc, pat);
    AssembleSections(doc + [content], pat);
    forall i | 0 <= i < 5
      ensures ScoreSection(doc, SectionKeywords[i]) <= ScoreSection(doc + [content], SectionKeywords[i])
    {
      ScoreSectionMonotone(doc, [content], SectionKeywords[i]);
    }
  }

  /** Communication is scored on the doctor's texts followed by the
      patient's, so a later doctor message lands between them and can split a
      keyword that spans the join: "teach" then "back" scores "teach back",
      and a further doctor message "x" makes the text "teach x back". */
  lemma DoctorMessageCanLowerCommunication()
    ensures var ms := [Msg("doctor", "teach"), Msg("patient", "back")];
            GenerateFeedback(ms).sections[5].score >= 1 &&
            GenerateFeedback(ms + [Msg("doctor", "x")]).sections[5].score == 0
  {
    var ms := [Msg("doctor", "teach"), Msg("patient", "back")];
    var ms' := ms + [Msg("doctor", "x")];
    assert TextsOf(ms, "doctor") == ["teach"] && TextsOf(ms, "patient") == ["back"] by {
      assert ms[..1] == [Msg("doctor", "teach")];
      assert "patient"[0] != "doctor"[0];
    }
    assert TextsOf(ms', "doctor") == ["teach", "x"] && TextsOf(ms', "patient") == ["back"] by {
      assert ms'[..2] == ms;
      TextsOfSnoc(ms, Msg("doctor", "x"), "doctor");
      TextsOfSnoc(ms, Msg("doctor", "x"), "patient");
    }
    AssembleSections(["teach"], ["back"]);
    AssembleSections(["teach", "x"], ["back"]);
    assert ["teach"] + ["back"] == ["teach", "back"];
    assert ["teach", "x"] + ["back"] == ["teach", "x", "back"];
    SpannedKeywordScores();
    SplitKeywordScoresNothing();
  }

  /** "teach back" occurs in the joined text "teach back". */
  lemma SpannedKeywordScores()
    ensures ScoreSection(["teach", "back"], CommunicationKeywords) >= 1
  {
    var text := ScoredText(["teach", "back"]);
    assert text == "teach back";
    assert OccursAt(text, "teach back", 0);
    CountHitsIsHitSet(text, CommunicationKeywords);
    assert 4 in HitSet(text, CommunicationKeywords);
  }

  /** No communication keyword occurs in "teach x back". */
  lemma SplitKeywordScoresNothing()
    ensures ScoreSection(["teach", "x", "back"], CommunicationKeywords) == 0
  {
    SplitText();
    NoCommunicationKeyword("teach x back");
    CountHitsExtremes("teach x back", CommunicationKeywords);
  }

  lemma SplitText()
    ensures ScoredText(["teach", "x", "back"]) == "teach x back"
  {
    assert Join(["teach", "x", "back"], " ") == "teach x back";
  }

  lemma NoCommunicationKeyword(text: string)
    requires text == "teach x back"
    ensures forall i :: 0 <= i < |CommunicationKeywords| ==> !Contains(text, CommunicationKeywords[i])
  {
    MissingLetter(text, "understand", 'u');
    MissingLetter(text, "clarify", 'l');
    MissingLetter(text, "explain", 'p');
    MissingLetter(text, "summarize", 's');
    forall i | 0 <= i <= |text| - |"teach back"|
      ensures !OccursAt(text, "teach back", i)
    {
      assert text[i..i + 10][0] == text[i] && text[i..i + 10][6] == text[i + 6];
    }
  }

  /** A pattern with a letter the text lacks does not occur in it. */
  lemma MissingLetter(text: string, pat: string, c: char)
    requires c in pat && c !in text
    ensures !Contains(text, pat)
  {
  }

  // ------------------------------------------------- offline patient reply

  /** The keyword groups of the offline reply, tried in this order. */
  const ReplyGroups: seq<seq<string>> :=
    [["pain", "ache", "hurt"], ["fever", "temperature"], ["cough", "breath", "chest"], ["medication", "allergy", "drug"]]

  /** The reply of each group, in the same order. */
  const GroupReplies: seq<string> := [
    "I've had a dull ache for about 3 days. It gets worse when I move.",
    "I felt feverish yesterday night, around 101\U{00AC}\U{221E}F, with chills.",
    "I've been coughing a lot and feel a little short of breath after climbing stairs.",
    "I take only a daily multivitamin. I'm allergic to penicillin."
  ]

  const DefaultReply: string := "I'm not sure, doctor. Could you explain what you mean?"

  /** Some keyword of the group occurs in the text. */
  predicate AnyOccurs(text: string, group: seq<string>) {
    exists i :: 0 <= i < |group| && Contains(text, group[i])
  }

  /** The reply of the first group from `g` on with a keyword in `p`. */
  function ReplyFrom(p: string, g: nat): (r: string)
    requires g <= 4
    ensures r == DefaultReply <==> forall h :: g <= h < 4 ==> !AnyOccurs(p, ReplyGroups[h])
    ensures forall h :: g <= h < 4 ==>
              (r == GroupReplies[h] <==> AnyOccurs(p, ReplyGroups[h]) && forall e :: g <= e < h ==> !AnyOccurs(p, ReplyGroups[e]))
    decreases 4 - g
  {
    if g == 4 then DefaultReply
    else if AnyOccurs(p, ReplyGroups[g]) then GroupReplies[g]
    else ReplyFrom(p, g + 1)
  }

  /** The fallback branch of `simulate_patient_reply`: the reply of the
      first keyword group that occurs in the lower-cased prompt, or the
      default reply. */
  function FallbackReply(prompt: string): (r: string)
    ensures r == DefaultReply <==> forall h :: 0 <= h < 4 ==> !AnyOccurs(Lower(prompt), ReplyGroups[h])
    ensures forall h :: 0 <= h < 4 ==>
              (r == GroupReplies[h] <==> AnyOccurs(Lower(prompt), ReplyGroups[h]) &&
                                          forall e :: 0 <= e < h ==> !AnyOccurs(Lower(prompt), ReplyGroups[e]))
  {
    ReplyFrom(Lower(prompt), 0)
  }

  lemma LowerIdempotent(s: string)
    ensures Lower(Lower(s)) == Lower(s)
  {
  }

  /** The reply does not depend on the prompt's letter case. */
  lemma FallbackReplyIgnoresCase(prompt: string)
    ensures FallbackReply(Lower(prompt)) == FallbackReply(prompt)
  {
    LowerIdempotent(prompt);
  }
}
