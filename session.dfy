/**
 * Pass/fail bookkeeping shared by both verifiers: a run is finished once a
 * verifier passes or fails it, a failure is kept until the end, and the verdict
 * at the end of the run is decided from those two fields alone.
 */
module Session {
  import opened Options
  import opened KeySymbols

  /** Why a run failed. The harness records a message; the model keeps its kind and the values it names. */
  datatype Failure =
    | KeyAlreadyPressed
    | UnexpectedModifierKey(key: Symbol)
    | ModifiersMismatch(receivedMask: Mask, maskFromKeys: Mask)
    | NoMoreKeysExpected
    | WrongKey(receivedKey: Symbol, expectedKey: Symbol)
    | NotPressedBefore(key: Symbol)
    | TextMismatch(expectedText: Option<char>, receivedText: string)

  /** The outcome reported when the event loop exits. */
  datatype Verdict = Aborted | Failed(failure: Failure) | Passed

  class TestSession {
    var finished: bool
    var failure: Option<Failure>

    constructor ()
      ensures !finished && failure == None
    {
      finished := false;
      failure := None;
    }

    /** The run has ended with failure `f` as the last recorded one. */
    ghost predicate Recorded(f: Failure)
      reads this
    {
      finished && failure == Some(f)
    }

    /** Records a failure, replacing any earlier one, and ends the run. */
    method FailTest(f: Failure)
      modifies this
      ensures Recorded(f)
    {
      failure := Some(f);
      finished := true;
    }

    /** Ends the run; a failure recorded earlier is kept. */
    method PassTest()
      modifies this
      ensures finished && failure == old(failure)
    {
      finished := true;
    }

    /**
     * The verdict at loop exit: a run that never finished was aborted, a
     * finished run with a failure failed with it, and only a finished run
     * without a failure passes.
     */
    function Outcome(): (v: Verdict)
      reads this
      ensures v == Passed <==> finished && failure == None
      ensures v == Aborted <==> !finished
      ensures v.Failed? <==> finished && failure.Some?
      ensures v.Failed? ==> failure == Some(v.failure)
    {
      if !finished then Aborted
      else if failure.Some? then Failed(failure.value)
      else Passed
    }
  }
}
