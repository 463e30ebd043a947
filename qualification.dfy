/**
 * The onboarding qualification questionnaire (`lib/qualification/config.ts`):
 * the steps and their questions, the list of all question ids and the check
 * that every required question has an answer. Answers are the JSON values the
 * form posts, keyed by question id; a key that is absent reads as `undefined`.
 * Option lists, labels and icons are display data and are not modelled.
 */
module Qualification {
  import opened Wrappers
  import opened JsValues

  datatype Kind = Single | Multi

  datatype Question = Question(id: string, kind: Kind, maxSelections: Option<int>, required: bool)

  datatype Step = Step(id: string, questions: seq<Question>)

  /** `QUALIFICATION_STEPS`: role and community type, then team size and the optional pain points. */
  const QualificationSteps: seq<Step> := [
    Step("step1", [
      Question("role", Single, None, true),
      Question("community_type", Single, None, true)]),
    Step("step2", [
      Question("team_size", Single, None, true),
      Question("pain_points", Multi, Some(3), false)])
  ]

  /** `responses[id]`. */
  function ResponseOf(responses: map<string, JsValue>, id: string): JsValue {
    if id in responses then responses[id] else Undefined
  }

  /** `!response || (Array.isArray(response) && response.length === 0)`. */
  predicate Missing(v: JsValue) {
    !Truthy(v) || (v.Arr? && |v.items| == 0)
  }

  /** The ids of the questions of one step, in order. */
  function QuestionIds(qs: seq<Question>): (ids: seq<string>)
    ensures |ids| == |qs|
    ensures forall j :: 0 <= j < |qs| ==> ids[j] == qs[j].id
  {
    if qs == [] then [] else QuestionIds(qs[..|qs| - 1]) + [qs[|qs| - 1].id]
  }

  /** `getAllQuestionIds` on a list of steps: step by step, question by question. */
  function AllQuestionIds(steps: seq<Step>): seq<string> {
    if steps == [] then [] else AllQuestionIds(steps[..|steps| - 1]) + QuestionIds(steps[|steps| - 1].questions)
  }

  /** The required questions of one step that have no answer, in order. */
  function MissingIn(qs: seq<Question>, responses: map<string, JsValue>): seq<string> {
    if qs == [] then []
    else
      var q := qs[|qs| - 1];
      MissingIn(qs[..|qs| - 1], responses)
      + (if q.required && Missing(ResponseOf(responses, q.id)) then [q.id] else [])
  }

  /** The `missingRequired` list of `validateResponses`. */
  function MissingRequired(steps: seq<Step>, responses: map<string, JsValue>): seq<string> {
    if steps == [] then []
    else MissingRequired(steps[..|steps| - 1], responses) + MissingIn(steps[|steps| - 1].questions, responses)
  }

  /** Some question of the steps has this id and this property. */
  predicate HasQuestion(steps: seq<Step>, id: string, required: bool) {
    exists i, j :: 0 <= i < |steps| && 0 <= j < |steps[i].questions|
                && steps[i].questions[j].id == id && (required ==> steps[i].questions[j].required)
  }

  lemma {:induction false} QuestionIdsMembers(qs: seq<Question>, id: string)
    ensures id in QuestionIds(qs) <==> exists j :: 0 <= j < |qs| && qs[j].id == id
  {
    var ids := QuestionIds(qs);
    if id in ids {
      var j :| 0 <= j < |ids| && ids[j] == id;
      assert qs[j].id == id;
    }
  }

  /** `getAllQuestionIds` lists exactly the ids of the questions of the steps. */
  lemma {:induction false} AllQuestionIdsMembers(steps: seq<Step>, id: string)
    ensures id in AllQuestionIds(steps) <==> HasQuestion(steps, id, false)
  {
    if steps != [] {
      var init := steps[..|steps| - 1];
      var last := steps[|steps| - 1];
      AllQuestionIdsMembers(init, id);
      QuestionIdsMembers(last.questions, id);
      HasQuestionSplit(steps, init, last, id, false);
      InAppend(id, AllQuestionIds(init), QuestionIds(last.questions));
    }
  }

  /** Some question of the list has this id and this property. */
  predicate InQuestions(qs: seq<Question>, id: string, required: bool) {
    exists j :: 0 <= j < |qs| && qs[j].id == id && (required ==> qs[j].required)
  }

  /** A question of the steps is one of the steps before the last or one of the last step. */
  lemma HasQuestionSplit(steps: seq<Step>, init: seq<Step>, last: Step, id: string, required: bool)
    requires steps != [] && init == steps[..|steps| - 1] && last == steps[|steps| - 1]
    ensures HasQuestion(steps, id, required) <==> HasQuestion(init, id, required) || InQuestions(last.questions, id, required)
  {
    if HasQuestion(steps, id, required) {
      var i, j :| 0 <= i < |steps| && 0 <= j < |steps[i].questions|
                  && steps[i].questions[j].id == id && (required ==> steps[i].questions[j].required);
      if i < |init| {
        assert init[i] == steps[i];
      }
    }
    if HasQuestion(init, id, required) {
      var i, j :| 0 <= i < |init| && 0 <= j < |init[i].questions|
                  && init[i].questions[j].id == id && (required ==> init[i].questions[j].required);
      assert steps[i] == init[i];
    }
    if InQuestions(last.questions, id, required) {
      var j :| 0 <= j < |last.questions| && last.questions[j].id == id && (required ==> last.questions[j].required);
      assert steps[|steps| - 1] == last;
    }
  }

  lemma InAppend<T>(x: T, a: seq<T>, b: seq<T>)
    ensures x in a + b <==> x in a || x in b
  {
  }

  lemma {:induction false} MissingInMembers(qs: seq<Question>, responses: map<string, JsValue>, id: string)
    ensures id in MissingIn(qs, responses) <==>
              (exists j :: 0 <= j < |qs| && qs[j].id == id && qs[j].required) && Missing(ResponseOf(responses, id))
  {
    if qs != [] {
      var init := qs[..|qs| - 1];
      var q := qs[|qs| - 1];
      MissingInMembers(init, responses, id);
      if exists j :: 0 <= j < |qs| && qs[j].id == id && qs[j].required {
        var j :| 0 <= j < |qs| && qs[j].id == id && qs[j].required;
        if j < |init| {
          assert init[j] == qs[j];
        }
      }
      if exists j :: 0 <= j < |init| && init[j].id == id && init[j].required {
        var j :| 0 <= j < |init| && init[j].id == id && init[j].required;
        assert qs[j] == init[j];
      }
    }
  }

  /**
   * `missingRequired` names exactly the ids of required questions whose answer
   * is absent, falsy or an empty array.
   */
  lemma {:induction false} MissingRequiredMembers(steps: seq<Step>, responses: map<string, JsValue>, id: string)
    ensures id in MissingRequired(steps, responses) <==>
              HasQuestion(steps, id, true) && Missing(ResponseOf(responses, id))
  {
    if steps != [] {
      var init := steps[..|steps| - 1];
      var last := steps[|steps| - 1];
      MissingRequiredMembers(init, responses, id);
      MissingInMembers(last.questions, responses, id);
      HasQuestionSplit(steps, init, last, id, true);
      InAppend(id, MissingRequired(init, responses), MissingIn(last.questions, responses));
    }
  }

  lemma {:induction false} MissingInIgnores(qs: seq<Question>, responses: map<string, JsValue>, k: string, v: JsValue)
    requires forall j :: 0 <= j < |qs| && qs[j].required ==> qs[j].id != k
    ensures MissingIn(qs, responses[k := v]) == MissingIn(qs, responses)
  {
    if qs != [] {
      MissingInIgnores(qs[..|qs| - 1], responses, k, v);
    }
  }

  /** The answer to a question that is not required never changes the outcome. */
  lemma {:induction false} MissingRequiredIgnores(steps: seq<Step>, responses: map<string, JsValue>, k: string, v: JsValue)
    requires !HasQuestion(steps, k, true)
    ensures MissingRequired(steps, responses[k := v]) == MissingRequired(steps, responses)
  {
    if steps != [] {
      var init := steps[..|steps| - 1];
      var last := steps[|steps| - 1];
      forall i, j | 0 <= i < |init| && 0 <= j < |init[i].questions|
        ensures !(init[i].questions[j].id == k && init[i].questions[j].required)
      {
        assert init[i] == steps[i];
      }
      assert forall j :: 0 <= j < |last.questions| && last.questions[j].required ==> last.questions[j].id != k by {
        forall j | 0 <= j < |last.questions| && last.questions[j].required
          ensures last.questions[j].id != k
        {
          assert steps[|steps| - 1].questions[j] == last.questions[j];
        }
      }
      MissingRequiredIgnores(init, responses, k, v);
      MissingInIgnores(last.questions, responses, k, v);
    }
  }

  /** `pain_points` is optional: its answer, or its absence, never decides validity. */
  lemma PainPointsOptional(responses: map<string, JsValue>, v: JsValue)
    ensures MissingRequired(QualificationSteps, responses["pain_points" := v])
            == MissingRequired(QualificationSteps, responses)
  {
    forall i, j | 0 <= i < |QualificationSteps| && 0 <= j < |QualificationSteps[i].questions|
      ensures !(QualificationSteps[i].questions[j].id == "pain_points" && QualificationSteps[i].questions[j].required)
    {
    }
    MissingRequiredIgnores(QualificationSteps, responses, "pain_points", v);
  }

  /** The questionnaire asks these questions, in this order; an empty answer sheet misses the three required ones. */
  lemma QuestionnaireShape()
    ensures AllQuestionIds(QualificationSteps) == ["role", "community_type", "team_size", "pain_points"]
    ensures MissingRequired(QualificationSteps, map[]) == ["role", "community_type", "team_size"]
  {
    var s1 := QualificationSteps[0].questions;
    var s2 := QualificationSteps[1].questions;
    assert QualificationSteps[..1][..0] == [];
    assert QualificationSteps[..1] == [QualificationSteps[0]];
    assert s1[..1][..0] == [] && s2[..1][..0] == [];
    assert QuestionIds(s1) == ["role", "community_type"];
    assert QuestionIds(s2) == ["team_size", "pain_points"];
    assert MissingIn(s1, map[]) == ["role", "community_type"];
    assert MissingIn(s2, map[]) == ["team_size"];
  }

  /** No id is missing exactly when every required question has an answer. */
  lemma ValidIffAllAnswered(steps: seq<Step>, responses: map<string, JsValue>)
    ensures MissingRequired(steps, responses) == [] <==>
              forall id :: HasQuestion(steps, id, true) ==> !Missing(ResponseOf(responses, id))
  {
    var missing := MissingRequired(steps, responses);
    if missing != [] {
      MissingRequiredMembers(steps, responses, missing[0]);
    } else {
      forall id | HasQuestion(steps, id, true)
        ensures !Missing(ResponseOf(responses, id))
      {
        MissingRequiredMembers(steps, responses, id);
      }
    }
  }

  /** `validateResponses`: the required questions without an answer, and whether there are none. */
  method ValidateResponses(steps: seq<Step>, responses: map<string, JsValue>) returns (valid: bool, missingRequired: seq<string>)
    ensures missingRequired == MissingRequired(steps, responses)
    ensures valid <==> missingRequired == []
    ensures valid <==> forall id :: HasQuestion(steps, id, true) ==> !Missing(ResponseOf(responses, id))
  {
    missingRequired := [];
    for i := 0 to |steps|
      invariant missingRequired == MissingRequired(steps[..i], responses)
    {
      var questions := steps[i].questions;
      assert steps[..i + 1][..i] == steps[..i];
      for j := 0 to |questions|
        invariant missingRequired == MissingRequired(steps[..i], responses) + MissingIn(questions[..j], responses)
      {
        assert questions[..j + 1][..j] == questions[..j];
        var question := questions[j];
        if question.required {
          var response := ResponseOf(responses, question.id);
          if !Truthy(response) || (response.Arr? && |response.items| == 0) {
            missingRequired := missingRequired + [question.id];
          }
        }
      }
      assert questions[..|questions|] == questions;
    }
    assert steps[..|steps|] == steps;
    valid := |missingRequired| == 0;
    ValidIffAllAnswered(steps, responses);
  }
}

/**
 * The questionnaire form (`components/onboarding/qualification-form.tsx`):
 * the answer update of a click on an option and the test that lets the user
 * go on to the next step.
 */
module QualificationForm {
  import opened Wrappers
  import opened JsValues
  import opened Qualification

  /** A stored multi-select answer: absent, falsy, or an array of strings (`prev[id] as string[]`). */
  predicate SelectionShaped(v: JsValue) {
    !Truthy(v) || (v.Arr? && forall k :: 0 <= k < |v.items| ==> v.items[k].Str?)
  }

  /** `(prev[id] as string[]) || []`. */
  function Selection(v: JsValue): (xs: seq<string>)
    requires SelectionShaped(v)
    ensures v.Arr? ==> |xs| == |v.items| && forall k :: 0 <= k < |xs| ==> v.items[k] == Str(xs[k])
    ensures !v.Arr? ==> xs == []
  {
    if v.Arr? then seq(|v.items|, k requires 0 <= k < |v.items| => v.items[k].s) else []
  }

  /** A list of strings as the array value stored in the answers. */
  function Choices(xs: seq<string>): (v: JsValue)
    ensures SelectionShaped(v) && Selection(v) == xs
  {
    Arr(seq(|xs|, k requires 0 <= k < |xs| => Str(xs[k])))
  }

  /** `current.filter(v => v !== value)`. */
  function Remove(xs: seq<string>, value: string): (r: seq<string>)
    ensures forall x :: x in r <==> x in xs && x != value
    ensures |r| <= |xs|
  {
    if xs == [] then []
    else (if xs[0] == value then [] else [xs[0]]) + Remove(xs[1..], value)
  }

  /** The new selection of a multi-select question after a click on `value`. */
  function Toggled(current: seq<string>, value: string, maxSelections: Option<int>): seq<string> {
    if value in current then Remove(current, value)
    else if maxSelections.Some? && maxSelections.value != 0 && |current| >= maxSelections.value
    then (if current == [] then [] else current[1..]) + [value]
    else current + [value]
  }

  /** `handleSelect`'s state update: only the answer to `questionId` changes. */
  function HandleSelect(prev: map<string, JsValue>, questionId: string, value: string, isMulti: bool,
                        maxSelections: Option<int>): (next: map<string, JsValue>)
    requires isMulti ==> SelectionShaped(ResponseOf(prev, questionId))
    ensures next.Keys == prev.Keys + {questionId}
    ensures forall k :: k in prev && k != questionId ==> next[k] == prev[k]
    ensures !isMulti ==> next[questionId] == Str(value)
    ensures isMulti ==> SelectionShaped(next[questionId])
  {
    if isMulti then prev[questionId := Choices(Toggled(Selection(ResponseOf(prev, questionId)), value, maxSelections))]
    else prev[questionId := Str(value)]
  }

  /** A click on a selected option deselects it and keeps the other choices; a click on another selects it. */
  lemma MultiSelectToggles(prev: map<string, JsValue>, questionId: string, value: string, maxSelections: Option<int>)
    requires SelectionShaped(ResponseOf(prev, questionId))
    ensures var before := Selection(ResponseOf(prev, questionId));
            var after := Selection(HandleSelect(prev, questionId, value, true, maxSelections)[questionId]);
            (value in before ==> value !in after && forall x :: x in after <==> x in before && x != value)
            && (value !in before ==> value in after && after[|after| - 1] == value)
  {
  }

  /**
   * With a positive limit, a selection within the limit stays within it: at the
   * limit, the first choice makes room for the new one.
   */
  lemma MultiSelectBounded(prev: map<string, JsValue>, questionId: string, value: string, max: int)
    requires SelectionShaped(ResponseOf(prev, questionId))
    requires max > 0 && |Selection(ResponseOf(prev, questionId))| <= max
    ensures var before := Selection(ResponseOf(prev, questionId));
            var after := Selection(HandleSelect(prev, questionId, value, true, Some(max))[questionId]);
            |after| <= max
            && (value !in before && |before| == max ==> after == before[1..] + [value])
  {
  }

  /** `!!response`, or a non-empty list for an array. */
  predicate Answered(v: JsValue) {
    if v.Arr? then |v.items| > 0 else Truthy(v)
  }

  /** `isStepComplete`: every required question of the step has an answer. */
  predicate StepComplete(step: Step, responses: map<string, JsValue>) {
    forall j :: 0 <= j < |step.questions| && step.questions[j].required ==>
      Answered(ResponseOf(responses, step.questions[j].id))
  }

  /** The form's test and the validator's test agree on every answer. */
  lemma AnsweredIffNotMissing(v: JsValue)
    ensures Answered(v) <==> !Missing(v)
  {
  }

  /** A step is complete exactly when the validator finds nothing missing in it. */
  lemma {:induction false} StepCompleteIffNoneMissing(step: Step, responses: map<string, JsValue>)
    ensures StepComplete(step, responses) <==> MissingIn(step.questions, responses) == []
  {
    var qs := step.questions;
    if !StepComplete(step, responses) {
      var j :| 0 <= j < |qs| && qs[j].required && !Answered(ResponseOf(responses, qs[j].id));
      MissingInMembers(qs, responses, qs[j].id);
    } else if MissingIn(qs, responses) != [] {
      MissingInMembers(qs, responses, MissingIn(qs, responses)[0]);
    }
  }

  /** A single-select click answers its question whenever the option value is not empty. */
  lemma SingleSelectAnswers(prev: map<string, JsValue>, questionId: string, value: string)
    requires value != []
    ensures Answered(ResponseOf(HandleSelect(prev, questionId, value, false, None), questionId))
  {
  }
}
