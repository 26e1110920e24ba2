# Window event verifiers of pyglet's interactive tests

pyglet's interactive window-event tests open a window, show the operator an
instruction, and check the events the window delivers against it. This
project models the two verifiers in `tests/interactive/window/test_window_events.py`
and the bookkeeping the two share.

- **Session** (`session.dfy`). A run is *finished* once a verifier passes or
  fails it. The last *failure* recorded is kept. At loop exit the run is
  aborted (never finished), failed (finished with a failure) or passed.
- **Key symbols** (`key_symbols.dfy`). Key symbols, and the modifier masks
  built from Shift = 1, Ctrl = 2 and Alt = 4; a Meta key stands for Shift|Alt.
  It holds the pure lookups of the key-combo verifier:
  - the modifier bits of one key;
  - the OR of the modifier bits of the held keys;
  - the Meta/Alt release aliasing;
  - the removal of the first occurrence of a released key;
  - the target roll;
  - the prompt's modifier labels.
- **Key combo** (`key_press.dfy`). A class with the verifier's fields:
  - the chosen letter and modifiers;
  - the held keys in press order;
  - whether the combination is completely pressed;
  - the rounds completed.

  Its press and release handlers are proved against full case-by-case
  specifications of the new state.
- **Text** (`text_input.dfy`). A class that expects a text event carrying
  exactly the shown character, ten times.
- **Operator** (`operator.dfy`). A cooperative operator who holds exactly
  the prompted modifier keys, presses the letter and lets go of all keys;
  the same for typing the prompted character. The module proves that either
  test then passes after exactly ten rounds. This is the `_test_main` loop
  with a well-behaved operator.

The code differs from what a reader might expect in these ways. The model
follows the code.
- `pass_test` does not clear an earlier failure, so a run that failed once
  can end later "finished" with that failure still recorded, and it is
  reported as failed.
- `fail_test` overwrites the previous failure, and a failure does not stop
  the rest of a handler. After a failed release (lines 107-108), the
  round-completion code at lines 112-118 still runs. It cannot complete a
  round then: the held list is unchanged, and a completely pressed
  combination always has a held key.
- The target counts as completely pressed even when its modifier check failed.
- A modifier key is only checked against the target modifiers. It is never
  checked against the reported mask.
- The held-key list keeps duplicates. A key pressed twice must be released
  twice.
- The text verifier passes from the tenth round on (`>=`). The key verifier
  passes at exactly the tenth round (`==`).

## Model

| member | source | states |
|---|---|---|
| Session.TestSession.constructor | tests/interactive/window/test_window_events.py:25-27 | a new run is unfinished and has no failure |
| Session.TestSession.FailTest | tests/interactive/window/test_window_events.py:30-32 | the run is finished with exactly this failure, replacing any earlier one |
| Session.TestSession.PassTest | tests/interactive/window/test_window_events.py:34-35 | the run is finished and an earlier failure is kept, not cleared |
| Session.TestSession.Outcome | tests/interactive/window/test_window_events.py:57-65 | passed iff finished without failure; aborted iff not finished; failed iff finished with a failure, and the verdict carries that failure |
| KeySymbols.LettersAreTheTargetAlphabet | tests/interactive/window/test_window_events.py:71-73 | the target alphabet has 26 distinct keys and holds exactly the letter keys |
| KeySymbols.ModifierFor | tests/interactive/window/test_window_events.py:158-168 | a key's mask has the Shift bit iff it is a Shift or Meta key, the Alt bit iff an Alt or Meta key, the Ctrl bit iff a Ctrl key; it is 0 iff the key is no modifier key |
| KeySymbols.HeldModifiersClosedForm | tests/interactive/window/test_window_events.py:170-174 | the OR over the held keys has the Shift bit iff some Shift or Meta key is held, the Alt bit iff some Alt or Meta key is held, the Ctrl bit iff some Ctrl key is held, and no other bit |
| KeySymbols.HeldModifiers | tests/interactive/window/test_window_events.py:170-174 | the OR-fold of the held keys' modifier bits is always a combination of Shift, Alt and Ctrl; its exact bits are stated by `HeldModifiersClosedForm` |
| KeySymbols.HeldModifiersDependOnlyOnHeldSet | tests/interactive/window/test_window_events.py:170-174 | two held lists with the same keys derive the same mask, whatever the order and repetitions |
| KeySymbols.Counterpart | tests/interactive/window/test_window_events.py:197-206 | Meta and Alt keys are paired with their same-side other kind: a Meta key's counterpart is an Alt key and vice versa, and a left key's counterpart is a left key |
| KeySymbols.ResolveRelease | tests/interactive/window/test_window_events.py:195-207 | a released Meta/Alt key that is not held but whose counterpart is held stands for the counterpart; every other release stands for itself; a substituted key is always held |
| KeySymbols.FirstIndex | tests/interactive/window/test_window_events.py:110 | the position of the first occurrence: it holds the key and no earlier position does |
| KeySymbols.RemoveFirst | tests/interactive/window/test_window_events.py:110 | `list.remove`: one key fewer than before; which one is stated by `RemoveFirstSplices` |
| KeySymbols.RemoveFirstSplices | tests/interactive/window/test_window_events.py:110 | removal takes out exactly the first occurrence and keeps all other keys in order |
| KeySymbols.RemoveFirstMultiset | tests/interactive/window/test_window_events.py:110 | removal takes one occurrence of the key out of the held multiset and changes no other count |
| KeySymbols.RemoveFirstMembership | tests/interactive/window/test_window_events.py:110 | after a removal, every other key is held iff it was held before |
| KeySymbols.ModifiersFromRoll | tests/interactive/window/test_window_events.py:123-127 | the target modifiers are a Shift/Alt/Ctrl combination; they are empty iff the roll is not positive, and otherwise equal the roll |
| KeySymbols.EveryCombinationCanBeChosen | tests/interactive/window/test_window_events.py:123-125 | every combination of Shift, Alt and Ctrl is the target for some roll from -2 to the full combination |
| KeySymbols.LabelsForBits | tests/interactive/window/test_window_events.py:132-138 | each label is present iff its modifier is selected, there are no other labels, and they appear in the order Shift, Alt, Ctrl |
| KeySymbols.ModifierLabels | tests/interactive/window/test_window_events.py:131-138 | the prompt lists `<Shift>`, `<Alt>` and `<Ctrl>` exactly for the bits set in the target, in that order, and nothing else |
| KeyPress.KeyMismatch | tests/interactive/window/test_window_events.py:183-193 | no failure iff the key is the target; with no target, "no more keys expected"; otherwise the received and the expected key |
| KeyPress.KeyPressVerifier.constructor | tests/interactive/window/test_window_events.py:80-86 | no target, no held keys, not completely pressed, no rounds, a fresh unfinished run |
| KeyPress.KeyPressVerifier.SelectNextKey | tests/interactive/window/test_window_events.py:120-127 | the new target is one of the letters with a Shift/Alt/Ctrl combination; held keys, rounds and the pressed flag are untouched |
| KeyPress.KeyPressVerifier.GetModifiersFromPressedKeys | tests/interactive/window/test_window_events.py:170-174 | the loop returns the OR of the modifier bits of the held keys, whose meaning `HeldModifiersClosedForm` states |
| KeyPress.KeyPressVerifier.CheckModifiersAgainstPressedKeys | tests/interactive/window/test_window_events.py:176-181 | a reported mask other than the held keys' mask fails the run with both masks; an equal one leaves the run alone |
| KeyPress.KeyPressVerifier.IsCorrectModifierKey | tests/interactive/window/test_window_events.py:148-156 | true iff the key is a modifier key; such a key sharing no bit with the target modifiers fails the run; otherwise the run is untouched |
| KeyPress.KeyPressVerifier.IsCorrectKey | tests/interactive/window/test_window_events.py:183-193 | true iff the key is the target; otherwise the run fails with the mismatch |
| KeyPress.KeyPressVerifier.OnKeyPress | tests/interactive/window/test_window_events.py:88-102 | the key is always appended to the held keys; a press after completion fails; a modifier key is checked only against the target modifiers; a wrong key fails; the target is checked against the held keys' mask and marks the combination completely pressed; a failure is never lost |
| KeyPress.KeyPressVerifier.OnKeyRelease | tests/interactive/window/test_window_events.py:104-118 | the resolved key's first occurrence is removed, or a not-held key fails the run and leaves the list; when the list empties after completion the round counts, passing at ten rounds and otherwise choosing a new target; nothing else changes |
| TextInput.Matches | tests/interactive/window/test_window_events.py:226 | a text event matches exactly when a target is set and the text is that one character |
| TextInput.TextVerifier.constructor | tests/interactive/window/test_window_events.py:219-222 | no target, no rounds, a fresh unfinished run |
| TextInput.TextVerifier.SelectNextText | tests/interactive/window/test_window_events.py:235-237 | the new target is a character of the fixed text |
| TextInput.TextVerifier.OnText | tests/interactive/window/test_window_events.py:224-233 | any text but the target character fails with both; a match counts a round, passes from the tenth round on, and otherwise picks a new target without touching the run |
| Operator.ModifierKeysFor | tests/interactive/window/test_window_events.py:131-138 | the keys an operator holds for a prompt are modifier keys, each sharing a bit with the prompted modifiers |
| Operator.ModifierKeysGiveTheMask | tests/interactive/window/test_window_events.py:170-174 | the prompted modifier keys derive exactly the prompted combination |
| Operator.PromptedKeysGiveTheMask | tests/interactive/window/test_window_events.py:170-181 | holding the prompted modifier keys and the letter derives exactly the prompted mask, so the check on the target press passes |
| Operator.PressModifierKeys | tests/interactive/window/test_window_events.py:88-98 | pressing the prompted modifier keys appends them to the held keys and records nothing |
| Operator.PressTarget | tests/interactive/window/test_window_events.py:100-102 | pressing the target with the prompted mask completes the combination without failure |
| Operator.ReleaseAll | tests/interactive/window/test_window_events.py:104-118 | releasing every held key empties the list and counts exactly one round without failure |
| Operator.PerformKeyRound | tests/interactive/window/test_window_events.py:88-118 | one prompted round leaves no key held, counts one round, records no failure, and finishes the run exactly at the tenth round |
| Operator.KeyPressReleaseTest | tests/interactive/window/test_window_events.py:209-212 | with a cooperative operator the key-combo test passes after exactly ten rounds |
| Operator.TextTest | tests/interactive/window/test_window_events.py:248-251 | with an operator who types each shown character the text test passes after exactly ten rounds |

## Left out

- Window, OpenGL, fonts, drawing and the event loop's dispatching. They are I/O. `_test_main` is modelled only through `Outcome` and the operator-driven tests.
- Pressing Escape to leave the loop (the window's exit flag). That flag is part of the windowing library. In the key-combo test, the Escape press also reaches `OnKeyPress` as an `OtherKey`. It records a wrong-key failure (or "already pressed") and finishes the run, so `Outcome` reports failed. The text test has no press handler, so an Escape there leaves the run unfinished and `Outcome` reports aborted.
- Console `print`s, `key.symbol_string`, `key.modifiers_string` and the prompt text around the labels. They are display only. Failures are kept as data with the values their messages name.
- `random.choice` and `random.randint`. The model replaces them with an arbitrary in-range choice, so the extra weight on "no modifiers" (three of ten rolls) is not captured.
- KeyPress.KeyPressVerifier.OnKeyPress, KeyPress.KeyPressVerifier.IsCorrectModifierKey: require a target when a modifier key is pressed. Before any target is chosen, the source raises a `TypeError` in `None & modifier`, and exceptions are not modelled.
- Key symbols are abstract: the 26 letters, the eight modifier keys, and every other key as `OtherKey`. The library's integer key codes are not modelled. The target test `not self.chosen_symbol` is read as "no target", since no letter code is 0.
- Masks are 16-bit. That is enough for every modifier flag the library defines. Wider integers reported as modifiers are not modelled.
- The inherited `InteractiveTestCase` machinery and the `requires_user_action` decorator are not part of this model.
- That the fixed text holds only printable characters is not proved. The model only uses that a target comes from that text.
