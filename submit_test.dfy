/**
 * The test-taking page: the user's choices are kept per question id, and
 * on submit they become one answer entry per question of the test.
 */
module SubmitTestPage {
  import opened Wrappers
  import opened Mongo
  import opened SubmissionSchema
  import TestController

  /** What is selected for a question: one option, or an array of options. */
  datatype Selection = Chosen(option: string) | ChosenMany(options: seq<string>)

  /** A question of the test as the page received it, with its subdocument id. */
  datatype QuestionView = QuestionView(id: ObjectId, question: string, options: seq<string>)

  /** The selected test as the page received it. */
  datatype TestView = TestView(title: string, questions: seq<QuestionView>)

  /** The sentinel recorded for a question without a (truthy) selection. */
  const NotAnswered: string := "Not Answered"

  /** `selectedAnswers[id]`. */
  function Lookup(selected: map<ObjectId, Selection>, id: ObjectId): Option<Selection> {
    if id in selected then Some(selected[id]) else None
  }

  /**
   * How a selection becomes an answer list: an array passes through, a
   * truthy single value x becomes [x], anything else becomes [NotAnswered].
   */
  function AnswerFor(sel: Option<Selection>): (r: seq<string>)
    ensures r == [] <==> sel.Some? && sel.value.ChosenMany? && sel.value.options == []
    ensures NotAnswered in r && !(sel.Some? && sel.value.ChosenMany?) ==> r == [NotAnswered]
  {
    match sel
    case Some(ChosenMany(xs)) => xs
    case Some(Chosen(x)) => if x != "" then [x] else [NotAnswered]
    case None => [NotAnswered]
  }

  /**
   * A single selection always yields exactly one answer; it is the sentinel
   * exactly when nothing truthy was selected.
   */
  lemma SingleSelectionGivesOneAnswer(sel: Option<Selection>)
    requires !(sel.Some? && sel.value.ChosenMany?)
    ensures |AnswerFor(sel)| == 1
    ensures AnswerFor(sel) == [NotAnswered] <==> sel.None? || sel.value.option in {"", NotAnswered}
    ensures sel.Some? && sel.value.option != "" ==> AnswerFor(sel) == [sel.value.option]
  {
  }

  /** `selectedTest.questions.map(...)`: one entry per question, in question order. */
  function BuildAnswers(qs: seq<QuestionView>, selected: map<ObjectId, Selection>): (r: seq<AnswerEntry>)
    ensures |r| == |qs|
    ensures forall i :: 0 <= i < |qs| ==>
      r[i].question == qs[i].question && r[i].answer == AnswerFor(Lookup(selected, qs[i].id))
  {
    if qs == [] then []
    else
      var rest := BuildAnswers(qs[1..], selected);
      assert forall i :: 1 <= i < |qs| ==> qs[i] == qs[1..][i - 1];
      [AnswerEntry(qs[0].question, AnswerFor(Lookup(selected, qs[0].id)))] + rest
  }

  /** The request body the page posts. */
  function Payload(test: TestView, selected: map<ObjectId, Selection>): (r: TestController.SubmitBody)
    ensures r.testName == Some(test.title)
    ensures r.answers.Some? && |r.answers.value| == |test.questions|
    ensures forall i :: 0 <= i < |test.questions| ==> r.answers.value[i].question == test.questions[i].question
  {
    TestController.SubmitBody(Some(test.title), Some(BuildAnswers(test.questions, selected)))
  }

  /**
   * The server's shape check accepts the page's payload exactly when the
   * test has a title and at least one question.
   */
  lemma PayloadShapeAccepted(test: TestView, selected: map<ObjectId, Selection>)
    ensures TestController.SubmitShapeOk(Payload(test, selected)) <==>
      test.title != "" && |test.questions| > 0
  {
  }

  /** Selections whose answers the schema accepts: arrays hold no empty string. */
  predicate SelectionConforms(sel: Selection) {
    sel.ChosenMany? ==> forall k :: 0 <= k < |sel.options| ==> sel.options[k] != ""
  }

  /**
   * Thanks to the sentinel, the built answers pass the submission schema
   * whenever every question has text and no array selection holds "".
   */
  lemma BuiltAnswersConform(qs: seq<QuestionView>, selected: map<ObjectId, Selection>)
    requires forall i :: 0 <= i < |qs| ==> qs[i].question != ""
    requires forall id :: id in selected ==> SelectionConforms(selected[id])
    ensures AnswersConform(BuildAnswers(qs, selected))
  {
    var r := BuildAnswers(qs, selected);
    forall i | 0 <= i < |r| ensures AnswerConforms(r[i]) {
      var sel := Lookup(selected, qs[i].id);
      assert sel.Some? ==> SelectionConforms(sel.value);
    }
  }

  /** The page's state: the selection per question id, and the loading flag. */
  class SubmitTestForm {
    var selected: map<ObjectId, Selection>
    var loading: bool

    constructor ()
      ensures selected == map[] && !loading
    {
      selected, loading := map[], false;
    }

    /** handleOptionChange: sets only that question's choice, replacing an earlier one. */
    method HandleOptionChange(questionId: ObjectId, option: string)
      modifies this`selected
      ensures selected == old(selected)[questionId := Chosen(option)]
      ensures forall id :: id != questionId ==> Lookup(selected, id) == Lookup(old(selected), id)
    {
      selected := selected[questionId := Chosen(option)];
    }

    /**
     * handleSubmit. Without any selection nothing is sent. Otherwise the
     * payload is posted; `postOk` is whether the request succeeds, and only
     * then is the selection cleared.
     */
    method HandleSubmit(test: TestView, postOk: bool) returns (sent: Option<TestController.SubmitBody>)
      modifies this
      ensures !loading
      ensures old(selected) == map[] ==> sent == None
      ensures old(selected) != map[] ==> sent == Some(Payload(test, old(selected)))
      ensures selected == if sent.Some? && postOk then map[] else old(selected)
    {
      loading := true;
      if |selected| == 0 {
        loading := false;
        return None;
      }
      sent := Some(Payload(test, selected));
      if postOk {
        selected := map[];
      }
      loading := false;
    }
  }
}
