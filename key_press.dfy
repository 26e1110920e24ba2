/**
 * The key-combo verifier: it shows a target letter with a combination of Shift,
 * Alt and Ctrl, follows the keys pressed and released, checks the reported
 * modifier mask against the modifier keys held when the letter goes down, and
 * counts a round once every key of a completely pressed combination is released.
 */
module KeyPress {
  import opened Options
  import opened KeySymbols
  import opened Session

  /** Rounds to complete before the run passes. */
  const NumberOfChecks: nat := 10

  /**
   * The matching part of the target check: no failure exactly when the key is
   * the chosen target; with no target there is nothing more to press, and any
   * other key is reported against the target.
   */
  function KeyMismatch(chosen: Option<Symbol>, symbol: Symbol): (f: Option<Failure>)
    ensures f == None <==> chosen == Some(symbol)
    ensures chosen == None ==> f == Some(NoMoreKeysExpected)
    ensures chosen.Some? && chosen.value != symbol ==> f == Some(WrongKey(symbol, chosen.value))
  {
    match chosen
    case None => Some(NoMoreKeysExpected)
    case Some(target) => if target == symbol then None else Some(WrongKey(symbol, target))
  }

  class KeyPressVerifier {
    const session: TestSession
    var chosenSymbol: Option<Symbol>
    var chosenModifiers: Option<Mask>
    var completelyPressed: bool
    /** The held keys in press order; a key pressed twice appears twice. */
    var activeKeys: seq<Symbol>
    var checksPassed: nat

    /**
     * A target is a letter and a combination of Shift, Alt and Ctrl, chosen
     * together; a combination is completely pressed only against a target and
     * while some key is still held.
     */
    ghost predicate Valid()
      reads this
    {
      && (chosenSymbol.Some? <==> chosenModifiers.Some?)
      && (chosenSymbol.Some? ==> chosenSymbol.value in Letters)
      && (chosenModifiers.Some? ==> IsModifierCombination(chosenModifiers.value))
      && (completelyPressed ==> chosenSymbol.Some? && activeKeys != [])
    }

    /** No target and no keys yet: the test selects the first target before events arrive. */
    constructor ()
      ensures Valid() && fresh(session)
      ensures !session.finished && session.failure == None
      ensures chosenSymbol == None && chosenModifiers == None
      ensures !completelyPressed && activeKeys == [] && checksPassed == 0
    {
      session := new TestSession();
      chosenSymbol := None;
      chosenModifiers := None;
      completelyPressed := false;
      activeKeys := [];
      checksPassed := 0;
    }

    /**
     * Chooses the next target: any of the 26 letters, and a roll from -2 to the
     * full combination whose non-positive values all mean "no modifiers".
     */
    method SelectNextKey()
      requires Valid()
      modifies this
      ensures Valid()
      ensures chosenSymbol.Some? && chosenSymbol.value in Letters
      ensures chosenModifiers.Some? && IsModifierCombination(chosenModifiers.value)
      ensures completelyPressed == old(completelyPressed)
      ensures activeKeys == old(activeKeys) && checksPassed == old(checksPassed)
    {
      var i: int :| 0 <= i < |Letters|;
      chosenSymbol := Some(Letters[i]);
      var roll: int :| -2 <= roll <= MaxModifiers as int;
      chosenModifiers := Some(ModifiersFromRoll(roll));
    }

    /** The OR of the modifier bits of the held keys, accumulated key by key. */
    method GetModifiersFromPressedKeys() returns (modifiers: Mask)
      ensures modifiers == HeldModifiers(activeKeys)
    {
      modifiers := 0;
      for i := 0 to |activeKeys|
        invariant modifiers == HeldModifiers(activeKeys[..i])
      {
        assert activeKeys[..i + 1][..i] == activeKeys[..i];
        modifiers := modifiers | ModifierFor(activeKeys[i]);
      }
      assert activeKeys[..|activeKeys|] == activeKeys;
    }

    /** Fails the run when the reported mask is not the one the held keys stand for. */
    method CheckModifiersAgainstPressedKeys(modifiers: Mask)
      modifies session
      ensures modifiers != HeldModifiers(activeKeys) ==>
        session.Recorded(ModifiersMismatch(modifiers, HeldModifiers(activeKeys)))
      ensures modifiers == HeldModifiers(activeKeys) ==> unchanged(session)
    {
      var fromKeys := GetModifiersFromPressedKeys();
      if modifiers != fromKeys {
        session.FailTest(ModifiersMismatch(modifiers, fromKeys));
      }
    }

    /**
     * Whether the key is a Shift, Ctrl, Alt or Meta key; such a key fails the
     * run when none of its bits is among the target modifiers.
     */
    method IsCorrectModifierKey(symbol: Symbol) returns (isModifier: bool)
      requires IsModifierKey(symbol) ==> chosenModifiers.Some?
      modifies session
      ensures isModifier == IsModifierKey(symbol)
      ensures isModifier && chosenModifiers.value & ModifierFor(symbol) == 0 ==>
        session.Recorded(UnexpectedModifierKey(symbol))
      ensures !(isModifier && chosenModifiers.value & ModifierFor(symbol) == 0) ==> unchanged(session)
    {
      var modifier := ModifierFor(symbol);
      if modifier == 0 {
        return false;
      }
      if chosenModifiers.value & modifier == 0 {
        session.FailTest(UnexpectedModifierKey(symbol));
      }
      return true;
    }

    /** Whether the key is the target; any other key fails the run. */
    method IsCorrectKey(symbol: Symbol) returns (correct: bool)
      modifies session
      ensures correct == (chosenSymbol == Some(symbol))
      ensures !correct ==> session.Recorded(KeyMismatch(chosenSymbol, symbol).value)
      ensures correct ==> unchanged(session)
    {
      var mismatch := KeyMismatch(chosenSymbol, symbol);
      if mismatch.Some? {
        session.FailTest(mismatch.value);
        return false;
      }
      return true;
    }

    /**
     * A key press. The key is always added to the held keys. A press after the
     * combination is complete fails; a modifier key is only checked against the
     * target modifiers, never against the reported mask; any other key must be
     * the target, and the target is checked against the mask of the held keys
     * and then counts as completely pressed whether or not that check passed.
     */
    method OnKeyPress(symbol: Symbol, modifiers: Mask)
      requires Valid()
      requires IsModifierKey(symbol) ==> chosenModifiers.Some?
      modifies this, session
      ensures Valid()
      ensures activeKeys == old(activeKeys) + [symbol]
      ensures chosenSymbol == old(chosenSymbol) && chosenModifiers == old(chosenModifiers)
      ensures checksPassed == old(checksPassed)
      ensures old(completelyPressed) ==> completelyPressed && session.Recorded(KeyAlreadyPressed)
      ensures !old(completelyPressed) && IsModifierKey(symbol) ==>
        && !completelyPressed
        && (chosenModifiers.value & ModifierFor(symbol) == 0 ==> session.Recorded(UnexpectedModifierKey(symbol)))
        && (chosenModifiers.value & ModifierFor(symbol) != 0 ==> unchanged(session))
      ensures !old(completelyPressed) && !IsModifierKey(symbol) && chosenSymbol != Some(symbol) ==>
        && !completelyPressed
        && session.Recorded(KeyMismatch(chosenSymbol, symbol).value)
      ensures !old(completelyPressed) && !IsModifierKey(symbol) && chosenSymbol == Some(symbol) ==>
        && completelyPressed
        && (modifiers != HeldModifiers(activeKeys) ==>
              session.Recorded(ModifiersMismatch(modifiers, HeldModifiers(activeKeys))))
        && (modifiers == HeldModifiers(activeKeys) ==> unchanged(session))
      ensures old(session.failure).Some? ==> session.failure.Some?
    {
      activeKeys := activeKeys + [symbol];
      if completelyPressed {
        session.FailTest(KeyAlreadyPressed);
      } else {
        var isModifier := IsCorrectModifierKey(symbol);
        if !isModifier {
          var correct := IsCorrectKey(symbol);
          if correct {
            CheckModifiersAgainstPressedKeys(modifiers);
            completelyPressed := true;
          }
        }
      }
    }

    /**
     * A key release. The released key is resolved for Meta/Alt aliasing; a key
     * that is not held fails the run and leaves the held keys alone, otherwise
     * one occurrence of it is removed. Whatever happened, once no key is held
     * and the combination was complete, the round counts: the run passes at
     * the tenth round and otherwise a new target is chosen.
     */
    method OnKeyRelease(symbol: Symbol, modifiers: Mask)
      requires Valid()
      modifies this, session
      ensures Valid()
      ensures var key := ResolveRelease(old(activeKeys), symbol);
        && (key in old(activeKeys) ==> activeKeys == RemoveFirst(old(activeKeys), key))
        && (key !in old(activeKeys) ==> activeKeys == old(activeKeys))
        && session.failure == (if key in old(activeKeys) then old(session.failure) else Some(NotPressedBefore(key)))
        && session.finished == (
             || old(session.finished)
             || key !in old(activeKeys)
             || (old(completelyPressed) && activeKeys == [] && checksPassed == NumberOfChecks))
      ensures old(completelyPressed) && activeKeys == [] ==>
        && !completelyPressed
        && checksPassed == old(checksPassed) + 1
        && (checksPassed == NumberOfChecks ==>
              chosenSymbol == old(chosenSymbol) && chosenModifiers == old(chosenModifiers))
        && (checksPassed != NumberOfChecks ==>
              && chosenSymbol.Some? && chosenSymbol.value in Letters
              && chosenModifiers.Some? && IsModifierCombination(chosenModifiers.value))
      ensures !(old(completelyPressed) && activeKeys == []) ==>
        && completelyPressed == old(completelyPressed)
        && checksPassed == old(checksPassed)
        && chosenSymbol == old(chosenSymbol) && chosenModifiers == old(chosenModifiers)
      ensures old(session.failure).Some? ==> session.failure.Some?
    {
      var key := ResolveRelease(activeKeys, symbol);
      if key !in activeKeys {
        session.FailTest(NotPressedBefore(key));
      } else {
        activeKeys := RemoveFirst(activeKeys, key);
      }

      if |activeKeys| == 0 && completelyPressed {
        completelyPressed := false;
        checksPassed := checksPassed + 1;
        if checksPassed == NumberOfChecks {
          session.PassTest();
        } else {
          SelectNextKey();
        }
      }
    }
  }
}
