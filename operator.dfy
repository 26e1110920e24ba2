/**
 * An operator who does what the prompt asks, and the two tests driven by such
 * an operator: holding the asked-for modifier keys and the target letter, then
 * letting go of them, completes a round without failure, and ten such rounds
 * (ten correctly typed characters) make the run pass.
 */
module Operator {
  import opened Options
  import opened KeySymbols
  import opened Session
  import KeyPress
  import TextInput

  /** The Shift, Alt and Ctrl keys selected by three flags, in that order. */
  function KeysForBits(shift: bool, alt: bool, ctrl: bool): seq<Symbol> {
    (if shift then [LShift] else []) + (if alt then [LAlt] else []) + (if ctrl then [LCtrl] else [])
  }

  /** The left-hand modifier keys of a combination, in the prompt's order Shift, Alt, Ctrl. */
  function ModifierKeysFor(m: Mask): (keys: seq<Symbol>)
    ensures forall k :: k in keys ==> IsModifierKey(k) && m & ModifierFor(k) != 0
  {
    KeysForBits(m & ModShift != 0, m & ModAlt != 0, m & ModCtrl != 0)
  }

  lemma HeldModifiersAppendIf(keys: seq<Symbol>, held: bool, k: Symbol)
    ensures HeldModifiers(keys + (if held then [k] else []))
         == HeldModifiers(keys) | (if held then ModifierFor(k) else 0)
  {
    if held {
      HeldModifiersAppend(keys, k);
    } else {
      assert keys + [] == keys;
    }
  }

  lemma HeldModifiersAppendOther(keys: seq<Symbol>, k: Symbol)
    requires !IsModifierKey(k)
    ensures HeldModifiers(keys + [k]) == HeldModifiers(keys)
  {
    HeldModifiersAppend(keys, k);
  }

  lemma KeysForBitsGiveTheirMask(shift: bool, alt: bool, ctrl: bool)
    ensures HeldModifiers(KeysForBits(shift, alt, ctrl)) == MaskOf(shift, alt, ctrl)
  {
    var k1 := if shift then [LShift] else [];
    assert [] + k1 == k1;
    var k2 := k1 + (if alt then [LAlt] else []);
    HeldModifiersAppendIf([], shift, LShift);
    MaskOfUnion(false, false, false, shift, false, false);
    assert HeldModifiers(k1) == MaskOf(shift, false, false);
    HeldModifiersAppendIf(k1, alt, LAlt);
    MaskOfUnion(shift, false, false, false, alt, false);
    assert HeldModifiers(k2) == MaskOf(shift, alt, false);
    HeldModifiersAppendIf(k2, ctrl, LCtrl);
    MaskOfUnion(shift, alt, false, false, false, ctrl);
  }

  /** The prompted modifier keys of a combination stand for exactly that combination. */
  lemma ModifierKeysGiveTheMask(m: Mask)
    requires IsModifierCombination(m)
    ensures HeldModifiers(ModifierKeysFor(m)) == m
  {
    KeysForBitsGiveTheirMask(m & ModShift != 0, m & ModAlt != 0, m & ModCtrl != 0);
    CombinationIsMaskOfItsBits(m);
  }

  /** Holding the prompted modifier keys and then the letter reports exactly the prompted mask. */
  lemma PromptedKeysGiveTheMask(m: Mask, letter: Symbol)
    requires IsModifierCombination(m) && letter.Letter?
    ensures HeldModifiers(ModifierKeysFor(m) + [letter]) == m
  {
    ModifierKeysGiveTheMask(m);
    HeldModifiersAppendOther(ModifierKeysFor(m), letter);
  }

  /** Presses the given modifier keys one after another; none of them is unexpected. */
  method PressModifierKeys(v: KeyPress.KeyPressVerifier, keys: seq<Symbol>)
    requires v.Valid() && v.chosenModifiers.Some? && !v.completelyPressed
    requires forall k :: k in keys ==> IsModifierKey(k) && v.chosenModifiers.value & ModifierFor(k) != 0
    modifies v, v.session
    ensures v.Valid() && !v.completelyPressed
    ensures v.activeKeys == old(v.activeKeys) + keys
    ensures v.chosenSymbol == old(v.chosenSymbol) && v.chosenModifiers == old(v.chosenModifiers)
    ensures v.checksPassed == old(v.checksPassed)
    ensures unchanged(v.session)
  {
    for i := 0 to |keys|
      invariant v.Valid() && !v.completelyPressed
      invariant v.activeKeys == old(v.activeKeys) + keys[..i]
      invariant v.chosenSymbol == old(v.chosenSymbol) && v.chosenModifiers == old(v.chosenModifiers)
      invariant v.checksPassed == old(v.checksPassed)
      invariant unchanged(v.session)
    {
      assert keys[i] in keys;
      v.OnKeyPress(keys[i], ModifierFor(keys[i]));
      assert keys[..i + 1] == keys[..i] + [keys[i]];
    }
  }

  /**
   * Releases every held key of a completely pressed combination, in the order
   * they were pressed; the last release completes the round.
   */
  method ReleaseAll(v: KeyPress.KeyPressVerifier)
    requires v.Valid() && v.completelyPressed
    modifies v, v.session
    ensures v.Valid() && v.activeKeys == [] && !v.completelyPressed
    ensures v.checksPassed == old(v.checksPassed) + 1
    ensures v.session.failure == old(v.session.failure)
    ensures v.session.finished <==> old(v.session.finished) || v.checksPassed == KeyPress.NumberOfChecks
    ensures v.chosenSymbol.Some?
  {
    var keys := v.activeKeys;
    for i := 0 to |keys|
      invariant v.Valid()
      invariant i < |keys| ==>
        && v.activeKeys == keys[i..] && v.completelyPressed
        && v.checksPassed == old(v.checksPassed)
        && v.session.failure == old(v.session.failure) && v.session.finished == old(v.session.finished)
      invariant i == |keys| ==>
        && v.activeKeys == [] && !v.completelyPressed
        && v.checksPassed == old(v.checksPassed) + 1
        && v.session.failure == old(v.session.failure)
        && (v.session.finished <==> old(v.session.finished) || v.checksPassed == KeyPress.NumberOfChecks)
      invariant v.chosenSymbol.Some?
    {
      var key := keys[i];
      assert key == v.activeKeys[0];
      assert keys[i..][1..] == keys[i + 1..];
      v.OnKeyRelease(key, 0);
    }
  }

  /** Presses the target letter while exactly the prompted modifier keys are held. */
  method PressTarget(v: KeyPress.KeyPressVerifier)
    requires v.Valid() && v.chosenSymbol.Some? && !v.completelyPressed
    requires v.activeKeys == ModifierKeysFor(v.chosenModifiers.value)
    modifies v, v.session
    ensures v.Valid() && v.completelyPressed
    ensures v.activeKeys == old(v.activeKeys) + [v.chosenSymbol.value]
    ensures v.chosenSymbol == old(v.chosenSymbol)
    ensures v.checksPassed == old(v.checksPassed)
    ensures v.session.failure == old(v.session.failure) && v.session.finished == old(v.session.finished)
  {
    var target, mods := v.chosenSymbol.value, v.chosenModifiers.value;
    LettersAreTheTargetAlphabet();
    PromptedKeysGiveTheMask(mods, target);
    v.OnKeyPress(target, mods);
  }

  /** One round as the prompt asks for it: modifiers, then the letter, then letting go of all keys. */
  method PerformKeyRound(v: KeyPress.KeyPressVerifier)
    requires v.Valid() && v.chosenSymbol.Some?
    requires v.activeKeys == [] && !v.completelyPressed
    requires v.session.failure == None && !v.session.finished
    modifies v, v.session
    ensures v.Valid() && v.chosenSymbol.Some?
    ensures v.activeKeys == [] && !v.completelyPressed
    ensures v.checksPassed == old(v.checksPassed) + 1
    ensures v.session.failure == None
    ensures v.session.finished <==> v.checksPassed == KeyPress.NumberOfChecks
  {
    PressModifierKeys(v, ModifierKeysFor(v.chosenModifiers.value));
    PressTarget(v);
    ReleaseAll(v);
  }

  /** The key-combo test with a cooperative operator passes after exactly ten rounds. */
  method KeyPressReleaseTest() returns (verdict: Verdict, rounds: nat)
    ensures verdict == Passed && rounds == KeyPress.NumberOfChecks
  {
    var v := new KeyPress.KeyPressVerifier();
    v.SelectNextKey();
    rounds := 0;
    while !v.session.finished
      invariant fresh(v) && fresh(v.session)
      invariant v.Valid() && v.chosenSymbol.Some?
      invariant v.activeKeys == [] && !v.completelyPressed
      invariant v.session.failure == None
      invariant rounds == v.checksPassed <= KeyPress.NumberOfChecks
      invariant v.session.finished <==> v.checksPassed == KeyPress.NumberOfChecks
      decreases KeyPress.NumberOfChecks - v.checksPassed
    {
      PerformKeyRound(v);
      rounds := rounds + 1;
    }
    verdict := v.session.Outcome();
  }

  /** The text test with an operator who types each shown character passes after exactly ten rounds. */
  method TextTest() returns (verdict: Verdict, rounds: nat)
    ensures verdict == Passed && rounds == TextInput.NumberOfChecks
  {
    var v := new TextInput.TextVerifier();
    v.SelectNextText();
    rounds := 0;
    while !v.session.finished
      invariant fresh(v) && fresh(v.session)
      invariant v.Valid() && v.chosenText.Some?
      invariant v.session.failure == None
      invariant rounds == v.checksPassed <= TextInput.NumberOfChecks
      invariant v.session.finished <==> v.checksPassed >= TextInput.NumberOfChecks
      decreases TextInput.NumberOfChecks - v.checksPassed
    {
      v.OnText([v.chosenText.value]);
      rounds := rounds + 1;
    }
    verdict := v.session.Outcome();
  }
}
