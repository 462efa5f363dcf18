/** The `TestSubmission` collection's document shape and its time-to-live index. */
module SubmissionSchema {
  import opened Mongo

  /** One answered question: the required question text and the selected answer strings. */
  datatype AnswerEntry = AnswerEntry(question: string, answer: seq<string>)

  /**
   * A submission. `submittedAt` is a time in milliseconds; the store sets it
   * to the creation time.
   */
  datatype Submission = Submission(
    testName: string,
    userEmail: string,
    answers: seq<AnswerEntry>,
    userId: ObjectId,
    submittedAt: int)

  predicate AnswerConforms(e: AnswerEntry) {
    && RequiredString(e.question)
    && forall k :: 0 <= k < |e.answer| ==> RequiredString(e.answer[k])
  }

  predicate AnswersConform(answers: seq<AnswerEntry>) {
    forall i :: 0 <= i < |answers| ==> AnswerConforms(answers[i])
  }

  /** The schema's validation, run when the submission is created. */
  predicate SubmissionConforms(s: Submission) {
    RequiredString(s.testName) && RequiredString(s.userEmail) && AnswersConform(s.answers)
  }

  /** The index `expires: "74h"` on `submittedAt`, in milliseconds. */
  const RetentionMillis: int := 74 * 60 * 60 * 1000

  /** The moment from which the submission is no longer found; always after it was made. */
  function ExpiresAt(s: Submission): (t: int)
    ensures t > s.submittedAt
  {
    s.submittedAt + RetentionMillis
  }

  /**
   * Whether the store still finds the submission at time `now`. The
   * background removal is abstracted as this visibility test on the clock.
   */
  predicate IsLive(s: Submission, now: int) {
    now < ExpiresAt(s)
  }

  /** A submission is found for the whole 74 hours after it was made, and never after. */
  lemma LiveExactlyDuringRetention(s: Submission, now: int)
    requires now >= s.submittedAt
    ensures IsLive(s, now) <==> now - s.submittedAt < 74 * 60 * 60 * 1000
  {
  }

  /** Expiry is final: once a submission is gone it does not come back. */
  lemma ExpiryIsFinal(s: Submission, t1: int, t2: int)
    requires t1 <= t2 && !IsLive(s, t1)
    ensures !IsLive(s, t2)
  {
  }
}
