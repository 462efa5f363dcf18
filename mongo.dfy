/** What the document store contributes to every collection of the application. */
module Mongo {

  /** A document identifier (`_id`). Fresh identifiers are drawn from a counter. */
  type ObjectId = nat

  /**
   * Mongoose's `required` validator on a String path refuses both a missing
   * value and the empty string; white space alone passes.
   */
  predicate RequiredString(s: string) {
    s != ""
  }
}
