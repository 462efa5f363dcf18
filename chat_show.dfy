/**
 * The chat card: a question (the caller's, or a default) and an answer
 * that is collapsed to 200 characters until expanded.
 */
module ChatShow {
  import opened Wrappers
  import opened JsText
  import Display

  const AnswerLimit: nat := 200
  const AnswerEllipsis: string := "..."
  const DefaultQuestion: string := "How do I build a strong resume?"

  /** `customQuestion || defaultQuestion`. */
  function QuestionShown(custom: Option<string>): (q: string)
    ensures q != ""
    ensures Truthy(custom) ==> q == custom.value
    ensures !Truthy(custom) ==> q == DefaultQuestion
  {
    OrElse(custom, DefaultQuestion)
  }

  /** isLongText. */
  predicate IsLongText(answer: string) {
    Display.IsLong(answer, AnswerLimit)
  }

  /** displayedText. */
  function DisplayedText(answer: string, expanded: bool): string {
    Display.Collapse(answer, AnswerLimit, AnswerEllipsis, expanded)
  }

  /**
   * Collapsed long text is its first 200 characters and "...", 203 in
   * all; expanded or short text is shown unchanged.
   */
  lemma DisplayedTextCases(answer: string, expanded: bool)
    ensures IsLongText(answer) && !expanded ==>
      var r := DisplayedText(answer, expanded);
      |r| == 203 && r == answer[..200] + "..." && r[..200] == answer[..200]
    ensures !IsLongText(answer) || expanded ==> DisplayedText(answer, expanded) == answer
  {
    if IsLongText(answer) && !expanded {
      Display.CollapsedIsPrefixPlusEllipsis(answer, AnswerLimit, AnswerEllipsis);
    }
  }

  /** The card's one piece of state. */
  class ChatCard {
    var expanded: bool

    constructor ()
      ensures !expanded
    {
      expanded := false;
    }

    /** The See More / See Less button, which is rendered only for long text. */
    method ToggleExpanded(answer: string)
      requires IsLongText(answer)
      modifies this
      ensures expanded == !old(expanded)
      ensures expanded ==> DisplayedText(answer, expanded) == answer
      ensures !expanded ==> DisplayedText(answer, expanded) == answer[..200] + "..."
    {
      expanded := !expanded;
    }
  }
}
