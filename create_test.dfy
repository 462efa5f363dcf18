/**
 * The test-authoring page: an editable list of draft questions that never
 * drops below one question or a question below one option, the publish
 * check in front of the create request, and the local list of tests.
 */
module CreateTestPage {
  import opened Wrappers
  import opened JsText
  import opened Mongo
  import TestSchema
  import TC = TestController

  /** A question being edited. */
  datatype Draft = Draft(question: string, options: seq<string>)

  /** The question the editor starts with and adds: no text and two empty options. */
  const BlankDraft: Draft := Draft("", ["", ""])

  /** A test in the page's list. */
  datatype TestSummary = TestSummary(id: ObjectId, title: string, description: string)

  /** Every draft has at least one option. */
  predicate HasOptions(questions: seq<Draft>) {
    forall i :: 0 <= i < |questions| ==> |questions[i].options| >= 1
  }

  /** The page's publish check: non-blank fields, some questions, each with text and two options. */
  predicate PublishCheck(title: string, description: string, questions: seq<Draft>) {
    && !IsBlank(title) && !IsBlank(description) && |questions| > 0
    && forall i :: 0 <= i < |questions| ==>
         !IsBlank(questions[i].question) && |questions[i].options| >= 2
  }

  /** Whether Publish sends anything: the description was edited and the publish check passes. */
  predicate Publishable(title: string, description: Option<string>, questions: seq<Draft>) {
    description.Some? && PublishCheck(title, description.value, questions)
  }

  /** The questions as posted. */
  function Inputs(questions: seq<Draft>): (r: seq<TC.QuestionInput>)
    ensures |r| == |questions|
    ensures forall i :: 0 <= i < |r| ==>
      r[i] == TC.QuestionInput(Some(questions[i].question), Some(questions[i].options))
  {
    if questions == [] then []
    else
      assert forall i :: 1 <= i < |questions| ==> questions[i] == questions[1..][i - 1];
      [TC.QuestionInput(Some(questions[0].question), Some(questions[0].options))] + Inputs(questions[1..])
  }

  /** `{ title, questions, description }` as posted. */
  function Body(title: string, description: string, questions: seq<Draft>): (r: TC.CreateTestBody)
    ensures TC.CheckFields(r) == TC.Pass <==> !IsBlank(title) && !IsBlank(description) && |questions| > 0
    ensures TC.CheckFields(r) != TC.Crash
  {
    TC.CreateTestBody(Some(title), Some(description), Some(Inputs(questions)))
  }

  /** Whatever the page lets through, the server's input checks accept. */
  lemma PublishCheckImpliesServerChecks(title: string, description: string, questions: seq<Draft>)
    requires PublishCheck(title, description, questions)
    ensures TC.CreateVerdict(Body(title, description, questions)) == TC.Pass
  {
    var qs := Inputs(questions);
    assert forall i :: 0 <= i < |qs| ==> TC.QuestionOk(qs[i]);
  }

  /** The page is stricter than the server: a question with a single option passes only the server. */
  lemma ServerAcceptsSingleOption(title: string, description: string, text: string, option: string)
    requires !IsBlank(title) && !IsBlank(description) && !IsBlank(text)
    ensures !PublishCheck(title, description, [Draft(text, [option])])
    ensures TC.CreateVerdict(Body(title, description, [Draft(text, [option])])) == TC.Pass
  {
    var qs := Inputs([Draft(text, [option])]);
    assert TC.QuestionOk(qs[0]);
  }

  /**
   * Neither check looks at the options' text: a question whose two options
   * were left empty passes both, and the document then fails the schema
   * when it is saved.
   */
  lemma UntouchedOptionsFailOnlyAtSave(title: string, description: string, text: string)
    requires !IsBlank(title) && !IsBlank(description) && !IsBlank(text)
    ensures PublishCheck(title, description, [Draft(text, ["", ""])])
    ensures TC.CreateVerdict(Body(title, description, [Draft(text, ["", ""])])) == TC.Pass
    ensures !TestSchema.TestConforms(TC.TestFromBody(Body(title, description, [Draft(text, ["", ""])])))
  {
    PublishCheckImpliesServerChecks(title, description, [Draft(text, ["", ""])]);
    var t := TC.TestFromBody(Body(title, description, [Draft(text, ["", ""])]));
    TestSchema.EmptyOptionRejected(t, 0, 0);
  }

  /** The page's state. */
  class TestEditor {
    var title: string
    /** Starts as null: publishing before the description is edited throws inside the handler. */
    var description: Option<string>
    var questions: seq<Draft>
    var tests: seq<TestSummary>
    var creating: bool
    var testDone: bool
    var loading: bool

    /** The editor never holds fewer than one question, nor a question with no option. */
    ghost predicate Valid()
      reads this
    {
      |questions| >= 1 && HasOptions(questions)
    }

    constructor ()
      ensures Valid()
      ensures title == "" && description == None && questions == [BlankDraft]
      ensures tests == [] && !creating && !testDone && !loading
    {
      title, description, questions := "", None, [BlankDraft];
      tests, creating, testDone, loading := [], false, false, false;
    }

    /** addQuestion: appends one blank question. */
    method AddQuestion()
      requires Valid()
      modifies this`questions
      ensures Valid()
      ensures questions == old(questions) + [BlankDraft]
    {
      questions := questions + [BlankDraft];
    }

    /** deleteQuestion: removes question `qIdx` only while there is more than one. */
    method DeleteQuestion(qIdx: nat)
      requires Valid() && qIdx < |questions|
      modifies this`questions
      ensures Valid()
      ensures questions == if |old(questions)| > 1 then RemoveAt(old(questions), qIdx) else old(questions)
    {
      if |questions| > 1 {
        questions := questions[..qIdx] + questions[qIdx + 1..];
      }
    }

    /** addOption: appends an empty option to that question only. */
    method AddOption(qIdx: nat)
      requires Valid() && qIdx < |questions|
      modifies this`questions
      ensures Valid()
      ensures |questions| == |old(questions)|
      ensures questions[qIdx] == Draft(old(questions)[qIdx].question, old(questions)[qIdx].options + [""])
      ensures forall i :: 0 <= i < |questions| && i != qIdx ==> questions[i] == old(questions)[i]
    {
      var q := questions[qIdx];
      questions := questions[qIdx := Draft(q.question, q.options + [""])];
    }

    /** deleteOption: removes an option only while the question has more than one. */
    method DeleteOption(qIdx: nat, optIdx: nat)
      requires Valid() && qIdx < |questions| && optIdx < |questions[qIdx].options|
      modifies this`questions
      ensures Valid()
      ensures |questions| == |old(questions)|
      ensures questions[qIdx] ==
        var q := old(questions)[qIdx];
        if |q.options| > 1 then Draft(q.question, RemoveAt(q.options, optIdx)) else q
      ensures forall i :: 0 <= i < |questions| && i != qIdx ==> questions[i] == old(questions)[i]
    {
      var q := questions[qIdx];
      if |q.options| > 1 {
        questions := questions[qIdx := Draft(q.question, q.options[..optIdx] + q.options[optIdx + 1..])];
      }
    }

    /** Editing a question's text. */
    method SetQuestionText(qIdx: nat, value: string)
      requires Valid() && qIdx < |questions|
      modifies this`questions
      ensures Valid()
      ensures questions == old(questions)[qIdx := Draft(value, old(questions)[qIdx].options)]
    {
      questions := questions[qIdx := Draft(value, questions[qIdx].options)];
    }

    /** Editing one option of a question. */
    method SetOptionText(qIdx: nat, optIdx: nat, value: string)
      requires Valid() && qIdx < |questions| && optIdx < |questions[qIdx].options|
      modifies this`questions
      ensures Valid()
      ensures questions == old(questions)[qIdx :=
        Draft(old(questions)[qIdx].question, old(questions)[qIdx].options[optIdx := value])]
    {
      var q := questions[qIdx];
      questions := questions[qIdx := Draft(q.question, q.options[optIdx := value])];
    }

    /** Editing the title. */
    method SetTitle(value: string)
      modifies this`title
      ensures title == value
    {
      title := value;
    }

    /** Editing the description. */
    method SetDescription(value: string)
      modifies this`description
      ensures description == Some(value)
    {
      description := Some(value);
    }

    /**
     * The Publish button: handleSubmit, then the editor is closed and
     * `testDone` set, whatever happened. `testDone` starts false and is
     * never cleared, so only the first publish changes it and so triggers
     * the list refetch that depends on it. The body is sent only when the
     * publish check passes; a blank title is refused with a toast before
     * the description is read, a description never edited (null) throws
     * inside the handler, and both end with nothing sent. `postOk` is
     * whether the request succeeds, and only then is the form reset.
     */
    method Publish(postOk: bool) returns (sent: Option<TC.CreateTestBody>)
      requires Valid()
      modifies this
      ensures Valid()
      ensures tests == old(tests)
      ensures sent.Some? <==> Publishable(old(title), old(description), old(questions))
      ensures sent.Some? ==> sent.value == Body(old(title), old(description).value, old(questions))
      ensures sent.Some? && postOk ==> title == "" && description == Some("") && questions == [BlankDraft]
      ensures !(sent.Some? && postOk) ==>
        title == old(title) && description == old(description) && questions == old(questions)
      ensures !creating && testDone && !loading
    {
      loading := true;
      sent := None;
      if Publishable(title, description, questions) {
        sent := Some(Body(title, description.value, questions));
        if postOk {
          ResetForm();
        }
      }
      loading := false;
      creating := false;
      testDone := true;
    }

    /** The reset after a successful publish. */
    method ResetForm()
      modifies this`title, this`description, this`questions
      ensures Valid()
      ensures title == "" && description == Some("") && questions == [BlankDraft]
    {
      title, description, questions := "", Some(""), [BlankDraft];
    }

    /** deleteTest: after the server confirms (`deleteOk`), only that test leaves the list. */
    method DeleteTest(testId: ObjectId, deleteOk: bool)
      modifies this`tests
      ensures tests == if deleteOk then Filter(old(tests), (t: TestSummary) => t.id != testId) else old(tests)
      ensures deleteOk ==> forall t :: t in tests <==> t in old(tests) && t.id != testId
    {
      if deleteOk {
        tests := Filter(tests, (t: TestSummary) => t.id != testId);
      }
    }
  }
}
