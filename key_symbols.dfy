/**
 * Key symbols and modifier bitmasks as the key-combo verifier sees them, and the
 * pure lookups it performs on them: the modifier bits of a key, the OR of the
 * modifier bits of the held keys, Meta/Alt release aliasing, the removal of one
 * held key, the choice of a target modifier combination and its on-screen labels.
 */
module KeySymbols {

  /**
   * A modifier bitmask as reported with a key event. Sixteen bits hold every
   * modifier flag the windowing library reports (Shift, Ctrl, Alt, Caps Lock,
   * Num Lock, Windows, Command, Option, Scroll Lock, Function).
   */
  type Mask = bv16

  // The three modifiers the verifier asks for are distinct single bits and the
  // lowest ones, so every value from 0 to their OR is a combination of them.
  const ModShift: Mask := 1
  const ModCtrl: Mask := 2
  const ModAlt: Mask := 4
  /** A Meta key counts as Shift and Alt held together. */
  const ModMeta: Mask := ModShift | ModAlt
  /** The full combination of Shift, Alt and Ctrl. */
  const MaxModifiers: Mask := ModShift | ModAlt | ModCtrl

  type LetterIndex = i: int | 0 <= i < 26

  /** A key symbol: the 26 letter keys, the eight modifier keys, and every other key. */
  datatype Symbol =
    | Letter(index: LetterIndex)
    | LShift | RShift | LCtrl | RCtrl | LAlt | RAlt | LMeta | RMeta
    | OtherKey(code: int)

  /** The keys a target is drawn from, A to Z. */
  const Letters: seq<Symbol> := seq(26, i requires 0 <= i < 26 => Letter(i))

  predicate IsShiftKey(s: Symbol) { s == LShift || s == RShift }
  predicate IsCtrlKey(s: Symbol) { s == LCtrl || s == RCtrl }
  predicate IsAltKey(s: Symbol) { s == LAlt || s == RAlt }
  predicate IsMetaKey(s: Symbol) { s == LMeta || s == RMeta }

  predicate IsModifierKey(s: Symbol) {
    IsShiftKey(s) || IsCtrlKey(s) || IsAltKey(s) || IsMetaKey(s)
  }

  /** A mask made only of the Shift, Alt and Ctrl bits. */
  predicate IsModifierCombination(m: Mask) {
    m & !MaxModifiers == 0
  }

  lemma LettersAreTheTargetAlphabet()
    ensures |Letters| == 26
    ensures forall i, j :: 0 <= i < j < |Letters| ==> Letters[i] != Letters[j]
    ensures forall s :: s in Letters <==> s.Letter?
  {
    forall s: Symbol | s.Letter? ensures s in Letters {
      assert Letters[s.index] == s;
    }
  }

  // ---------------------------------------------------------------------------
  // The modifier bits of one key.
  // ---------------------------------------------------------------------------

  /** The keys that stand for the Shift bit, the Alt bit and the Ctrl bit. */
  const ShiftBitKeys: set<Symbol> := {LShift, RShift, LMeta, RMeta}
  const AltBitKeys: set<Symbol> := {LAlt, RAlt, LMeta, RMeta}
  const CtrlBitKeys: set<Symbol> := {LCtrl, RCtrl}

  /** The mask holding exactly the selected ones of the Shift, Alt and Ctrl bits. */
  function MaskOf(shift: bool, alt: bool, ctrl: bool): Mask {
    (if shift then ModShift else 0) | (if alt then ModAlt else 0) | (if ctrl then ModCtrl else 0)
  }

  lemma MaskOfBits(shift: bool, alt: bool, ctrl: bool)
    ensures IsModifierCombination(MaskOf(shift, alt, ctrl))
    ensures MaskOf(shift, alt, ctrl) & ModShift != 0 <==> shift
    ensures MaskOf(shift, alt, ctrl) & ModAlt != 0 <==> alt
    ensures MaskOf(shift, alt, ctrl) & ModCtrl != 0 <==> ctrl
  {
  }

  lemma MaskOfUnion(s1: bool, a1: bool, c1: bool, s2: bool, a2: bool, c2: bool)
    ensures MaskOf(s1, a1, c1) | MaskOf(s2, a2, c2) == MaskOf(s1 || s2, a1 || a2, c1 || c2)
  {
  }

  lemma CombinationsClosedUnderOr(x: Mask, y: Mask)
    requires IsModifierCombination(x) && IsModifierCombination(y)
    ensures IsModifierCombination(x | y)
  {
  }

  /** Every combination of Shift, Alt and Ctrl is the mask of its own three bits. */
  lemma CombinationIsMaskOfItsBits(m: Mask)
    requires IsModifierCombination(m)
    ensures m == MaskOf(m & ModShift != 0, m & ModAlt != 0, m & ModCtrl != 0)
  {
  }

  /**
   * The modifier bits a key stands for: the Shift bit for a Shift or Meta key,
   * the Alt bit for an Alt or Meta key, the Ctrl bit for a Ctrl key, nothing
   * for any other key.
   */
  function ModifierFor(s: Symbol): (m: Mask)
    ensures m == MaskOf(s in ShiftBitKeys, s in AltBitKeys, s in CtrlBitKeys)
    ensures m == 0 <==> !IsModifierKey(s)
  {
    if IsShiftKey(s) then ModShift
    else if IsAltKey(s) then ModAlt
    else if IsCtrlKey(s) then ModCtrl
    else if IsMetaKey(s) then ModMeta
    else 0
  }

  // ---------------------------------------------------------------------------
  // The modifier bits of the held keys.
  // ---------------------------------------------------------------------------

  /** The OR of the modifier bits of `keys`, accumulated from the first key to the last. */
  function HeldModifiers(keys: seq<Symbol>): (m: Mask)
    ensures IsModifierCombination(m)
  {
    if keys == [] then 0
    else
      var held, last := HeldModifiers(keys[..|keys| - 1]), ModifierFor(keys[|keys| - 1]);
      CombinationsClosedUnderOr(held, last);
      held | last
  }

  lemma HeldModifiersAppend(keys: seq<Symbol>, k: Symbol)
    ensures HeldModifiers(keys + [k]) == HeldModifiers(keys) | ModifierFor(k)
  {
    assert (keys + [k])[..|keys|] == keys;
  }

  /** Some key of `group` is among `keys`. */
  predicate AnyHeld(keys: seq<Symbol>, group: set<Symbol>) {
    exists i :: 0 <= i < |keys| && keys[i] in group
  }

  lemma AnyHeldSplit(keys: seq<Symbol>, group: set<Symbol>)
    requires keys != []
    ensures AnyHeld(keys, group) <==> AnyHeld(keys[..|keys| - 1], group) || keys[|keys| - 1] in group
  {
    var init := keys[..|keys| - 1];
    if AnyHeld(keys, group) {
      var i :| 0 <= i < |keys| && keys[i] in group;
      if i < |init| {
        assert init[i] == keys[i];
      }
    }
    if AnyHeld(init, group) {
      var i :| 0 <= i < |init| && init[i] in group;
      assert keys[i] == init[i];
    }
  }

  /**
   * The mask derived from the held keys has the Shift bit exactly when a Shift
   * or Meta key is held, the Alt bit exactly when an Alt or Meta key is held,
   * the Ctrl bit exactly when a Ctrl key is held, and no other bit.
   */
  lemma {:induction false} HeldModifiersClosedForm(keys: seq<Symbol>)
    ensures HeldModifiers(keys)
         == MaskOf(AnyHeld(keys, ShiftBitKeys), AnyHeld(keys, AltBitKeys), AnyHeld(keys, CtrlBitKeys))
  {
    if keys != [] {
      var init, last := keys[..|keys| - 1], keys[|keys| - 1];
      HeldModifiersClosedForm(init);
      AnyHeldSplit(keys, ShiftBitKeys);
      AnyHeldSplit(keys, AltBitKeys);
      AnyHeldSplit(keys, CtrlBitKeys);
      MaskOfUnion(AnyHeld(init, ShiftBitKeys), AnyHeld(init, AltBitKeys), AnyHeld(init, CtrlBitKeys),
                  last in ShiftBitKeys, last in AltBitKeys, last in CtrlBitKeys);
    }
  }

  lemma AnyHeldSameHeldSet(a: seq<Symbol>, b: seq<Symbol>, group: set<Symbol>)
    requires forall k :: k in a <==> k in b
    ensures AnyHeld(a, group) <==> AnyHeld(b, group)
  {
    if AnyHeld(a, group) {
      var i :| 0 <= i < |a| && a[i] in group;
      assert a[i] in b;
      var j :| 0 <= j < |b| && b[j] == a[i];
    }
    if AnyHeld(b, group) {
      var i :| 0 <= i < |b| && b[i] in group;
      assert b[i] in a;
      var j :| 0 <= j < |a| && a[j] == b[i];
    }
  }

  /**
   * The derived mask depends only on which keys are held, not on the order in
   * which they were pressed nor on how often a key occurs in the held list.
   */
  lemma HeldModifiersDependOnlyOnHeldSet(a: seq<Symbol>, b: seq<Symbol>)
    requires forall k :: k in a <==> k in b
    ensures HeldModifiers(a) == HeldModifiers(b)
  {
    HeldModifiersClosedForm(a);
    HeldModifiersClosedForm(b);
    AnyHeldSameHeldSet(a, b, ShiftBitKeys);
    AnyHeldSameHeldSet(a, b, AltBitKeys);
    AnyHeldSameHeldSet(a, b, CtrlBitKeys);
  }

  // ---------------------------------------------------------------------------
  // Meta/Alt release aliasing.
  // ---------------------------------------------------------------------------

  predicate IsMetaOrAlt(s: Symbol) { IsMetaKey(s) || IsAltKey(s) }

  /** The same-side key a platform may report instead: LMeta and LAlt, RMeta and RAlt. */
  function Counterpart(s: Symbol): (c: Symbol)
    requires IsMetaOrAlt(s)
    ensures IsMetaOrAlt(c) && c != s
    ensures IsMetaKey(s) <==> IsAltKey(c)
    ensures (s == LMeta || s == LAlt) <==> (c == LMeta || c == LAlt)
  {
    match s
    case LMeta => LAlt
    case LAlt => LMeta
    case RMeta => RAlt
    case RAlt => RMeta
  }

  /**
   * The key a release event stands for. A released Meta or Alt key that is not
   * held is taken for its same-side counterpart when that one is held; every
   * other released key stands for itself.
   */
  function ResolveRelease(held: seq<Symbol>, s: Symbol): (r: Symbol)
    ensures IsMetaOrAlt(s) && s !in held && Counterpart(s) in held ==> r == Counterpart(s)
    ensures !(IsMetaOrAlt(s) && s !in held && Counterpart(s) in held) ==> r == s
    ensures r != s ==> r in held && s !in held
  {
    if IsMetaOrAlt(s) && s !in held then
      if s == LMeta && LAlt in held then LAlt
      else if s == RMeta && RAlt in held then RAlt
      else if s == LAlt && LMeta in held then LMeta
      else if s == RAlt && RMeta in held then RMeta
      else s
    else s
  }

  // ---------------------------------------------------------------------------
  // Removing one held key, as a list removal of its first occurrence.
  // ---------------------------------------------------------------------------

  /** The position of the first occurrence of `x` in `s`. */
  function FirstIndex<T(==)>(s: seq<T>, x: T): (i: nat)
    requires x in s
    ensures i < |s| && s[i] == x
    ensures forall j :: 0 <= j < i ==> s[j] != x
  {
    if s[0] == x then 0 else 1 + FirstIndex(s[1..], x)
  }

  /** `s` with its first occurrence of `x` taken out. */
  function RemoveFirst<T(==)>(s: seq<T>, x: T): (r: seq<T>)
    requires x in s
    ensures |r| == |s| - 1
  {
    if s[0] == x then s[1..] else [s[0]] + RemoveFirst(s[1..], x)
  }

  /** Removing `x` from a list whose first `x` sits at position `i` splices out position `i`. */
  lemma {:induction false} RemoveFirstAt<T>(s: seq<T>, x: T, i: nat)
    requires i < |s| && s[i] == x
    requires forall j :: 0 <= j < i ==> s[j] != x
    ensures RemoveFirst(s, x) == s[..i] + s[i + 1..]
  {
    if i > 0 {
      var t := s[1..];
      assert t[i - 1] == x;
      RemoveFirstAt(t, x, i - 1);
      assert s[..i] == [s[0]] + t[..i - 1];
      assert s[i + 1..] == t[i..];
    }
  }

  /**
   * Removal takes out exactly one occurrence, the first, and keeps every other
   * element in its place and order.
   */
  lemma RemoveFirstSplices<T>(s: seq<T>, x: T)
    requires x in s
    ensures var i := FirstIndex(s, x);
      RemoveFirst(s, x) == s[..i] + s[i + 1..]
  {
    RemoveFirstAt(s, x, FirstIndex(s, x));
  }

  /** Removal takes one `x` out of the multiset of held keys and leaves every other count alone. */
  lemma {:induction false} RemoveFirstMultiset<T>(s: seq<T>, x: T)
    requires x in s
    ensures multiset(RemoveFirst(s, x)) == multiset(s) - multiset{x}
  {
    assert s == [s[0]] + s[1..];
    if s[0] != x {
      RemoveFirstMultiset(s[1..], x);
    }
  }

  /** What remains after a removal differs from the old list only by the one removed key. */
  lemma RemoveFirstMembership<T>(s: seq<T>, x: T, y: T)
    requires x in s
    ensures y != x ==> (y in RemoveFirst(s, x) <==> y in s)
  {
    RemoveFirstMultiset(s, x);
    var r := RemoveFirst(s, x);
    assert y in r <==> y in multiset(r);
    assert y in s <==> y in multiset(s);
  }

  // ---------------------------------------------------------------------------
  // Choosing and showing the target modifiers.
  // ---------------------------------------------------------------------------

  /**
   * The target modifiers for a roll drawn from -2 to the full combination: the
   * three non-positive rolls give no modifiers, every other roll is its own mask.
   */
  function ModifiersFromRoll(roll: int): (m: Mask)
    requires -2 <= roll <= MaxModifiers as int
    ensures IsModifierCombination(m)
    ensures m == 0 <==> roll <= 0
    ensures roll > 0 ==> m as int == roll
  {
    (if roll < 0 then 0 else roll) as Mask
  }

  /** Every combination of Shift, Alt and Ctrl can be the target. */
  lemma EveryCombinationCanBeChosen(m: Mask)
    requires IsModifierCombination(m)
    ensures exists roll :: -2 <= roll <= MaxModifiers as int && ModifiersFromRoll(roll) == m
  {
    assert m <= MaxModifiers;
    assert ModifiersFromRoll(m as int) == m;
  }

  const ShiftLabel := "<Shift>"
  const AltLabel := "<Alt>"
  const CtrlLabel := "<Ctrl>"

  /** The labels of the selected modifiers, in the prompt's order Shift, Alt, Ctrl. */
  function LabelsForBits(shift: bool, alt: bool, ctrl: bool): (labels: seq<string>)
    ensures ShiftLabel in labels <==> shift
    ensures AltLabel in labels <==> alt
    ensures CtrlLabel in labels <==> ctrl
    ensures forall l :: l in labels ==> l in [ShiftLabel, AltLabel, CtrlLabel]
    ensures forall i, j :: 0 <= i < j < |labels| ==> LabelRank(labels[i]) < LabelRank(labels[j])
  {
    (if shift then [ShiftLabel] else [])
    + (if alt then [AltLabel] else [])
    + (if ctrl then [CtrlLabel] else [])
  }

  /** The labels of the target modifiers in the prompt, in the order Shift, Alt, Ctrl. */
  function ModifierLabels(m: Mask): (labels: seq<string>)
    ensures ShiftLabel in labels <==> m & ModShift != 0
    ensures AltLabel in labels <==> m & ModAlt != 0
    ensures CtrlLabel in labels <==> m & ModCtrl != 0
    ensures forall l :: l in labels ==> l in [ShiftLabel, AltLabel, CtrlLabel]
    ensures forall i, j :: 0 <= i < j < |labels| ==> LabelRank(labels[i]) < LabelRank(labels[j])
  {
    LabelsForBits(m & ModShift != 0, m & ModAlt != 0, m & ModCtrl != 0)
  }

  /** The position of a modifier label in the prompt's fixed order. */
  function LabelRank(l: string): nat {
    if l == ShiftLabel then 0 else if l == AltLabel then 1 else 2
  }
}
