/** The `Test` collection's document shape: a test with its embedded, ordered questions. */
module TestSchema {
  import opened Mongo

  /** A question: required text and an ordered list of option strings. */
  datatype Question = Question(question: string, options: seq<string>)

  /** A test: required title and description, and its questions embedded in order. */
  datatype Test = Test(title: string, description: string, questions: seq<Question>)

  /** The schema's validation of a question: text required, and each option a required string. */
  predicate QuestionConforms(q: Question) {
    && RequiredString(q.question)
    && forall i :: 0 <= i < |q.options| ==> RequiredString(q.options[i])
  }

  /** The schema's validation of a test, run when the document is saved. */
  predicate TestConforms(t: Test) {
    && RequiredString(t.title)
    && RequiredString(t.description)
    && forall i :: 0 <= i < |t.questions| ==> QuestionConforms(t.questions[i])
  }

  /**
   * The schema asks for no minimum number of questions or options: a test
   * without questions, and a question without options, are valid documents.
   */
  lemma SchemaSetsNoMinimums(title: string, description: string, text: string)
    requires title != "" && description != "" && text != ""
    ensures TestConforms(Test(title, description, []))
    ensures QuestionConforms(Question(text, []))
    ensures TestConforms(Test(title, description, [Question(text, [])]))
  {
  }

  /** An option that is the empty string makes the whole test invalid. */
  lemma EmptyOptionRejected(t: Test, i: nat, j: nat)
    requires i < |t.questions| && j < |t.questions[i].options|
    requires t.questions[i].options[j] == ""
    ensures !TestConforms(t)
  {
    assert !QuestionConforms(t.questions[i]);
  }
}
