/**
 * The text verifier: it shows one character of a fixed set and expects a text
 * event carrying exactly that character, ten times in a row.
 */
module TextInput {
  import opened Options
  import opened Session

  /** Rounds to complete before the run passes. */
  const NumberOfChecks: nat := 10

  /** The characters a target is drawn from. */
  const TextChars: string :=
    "`1234567890-=~!@#$%^&*()_+qwertyuiop[]\\QWERTYUIOP{}|asdfghjkl;'ASDFGHJKL:\"zxcvbnm,./ZXCVBNM<>?"

  /** A text event matches when it carries exactly the chosen character. */
  predicate Matches(chosen: Option<char>, text: string): (b: bool)
    ensures b <==> chosen.Some? && |text| == 1 && text[0] == chosen.value
  {
    chosen.Some? && text == [chosen.value]
  }

  class TextVerifier {
    const session: TestSession
    var chosenText: Option<char>
    var checksPassed: nat

    ghost predicate Valid()
      reads this
    {
      chosenText.Some? ==> chosenText.value in TextChars
    }

    /** No target yet: the test selects the first one before events arrive. */
    constructor ()
      ensures Valid() && fresh(session)
      ensures !session.finished && session.failure == None
      ensures chosenText == None && checksPassed == 0
    {
      session := new TestSession();
      chosenText := None;
      checksPassed := 0;
    }

    /** Chooses the next target, any character of the set. */
    method SelectNextText()
      modifies this
      ensures Valid()
      ensures chosenText.Some? && chosenText.value in TextChars
      ensures checksPassed == old(checksPassed)
    {
      var i: int :| 0 <= i < |TextChars|;
      chosenText := Some(TextChars[i]);
    }

    /**
     * A text event. Anything but the chosen character fails the run and counts
     * nothing; a match counts one round, passes the run from the tenth round
     * on and otherwise chooses a new target.
     */
    method OnText(text: string)
      requires Valid()
      modifies this, session
      ensures Valid()
      ensures !Matches(old(chosenText), text) ==>
        && session.Recorded(TextMismatch(old(chosenText), text))
        && checksPassed == old(checksPassed)
        && chosenText == old(chosenText)
      ensures Matches(old(chosenText), text) ==>
        && checksPassed == old(checksPassed) + 1
        && (checksPassed >= NumberOfChecks ==>
              && session.finished && session.failure == old(session.failure)
              && chosenText == old(chosenText))
        && (checksPassed < NumberOfChecks ==>
              && unchanged(session)
              && chosenText.Some? && chosenText.value in TextChars)
      ensures old(session.failure).Some? ==> session.failure.Some?
    {
      if !Matches(chosenText, text) {
        session.FailTest(TextMismatch(chosenText, text));
      } else {
        checksPassed := checksPassed + 1;
        if checksPassed >= NumberOfChecks {
          session.PassTest();
        } else {
          SelectNextText();
        }
      }
    }
  }
}
