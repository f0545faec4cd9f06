/**
 * The typewriter effect of the hero title: one tick types or deletes one
 * character of the current text; a finished text waits for a 2-second
 * timer before deletion starts; a fully deleted text moves on to the next.
 */
module Typing {
  /** The five texts, spelled exactly as the script's literals are
      (its accented letters are stored double-encoded as two characters). */
  const Texts: seq<string> := [
    "D\U{C3}\U{A9}veloppeur Full-Stack",
    "Expert Java/Spring Boot",
    "Sp\U{C3}\U{A9}cialiste APIs REST",
    "Passionn\U{C3}\U{A9} de Code",
    "Architecte Logiciel"
  ]

  /** Delay before the next tick while typing and while deleting, in milliseconds. */
  const TypingDelayMs: nat := 150
  const DeletingDelayMs: nat := 75

  function Min(a: int, b: int): int {
    if a < b then a else b
  }

  /** `s.substring(0, end)`: the end is clamped into `0..|s|`. */
  function Substring(s: string, end: int): (r: string)
    ensures r <= s
    ensures |r| == if end < 0 then 0 else Min(end, |s|)
  {
    if end < 0 then "" else s[..Min(end, |s|)]
  }

  lemma TextsNonEmpty()
    ensures forall i :: 0 <= i < |Texts| ==> |Texts[i]| >= 1
  {
  }

  class Typer {
    var textIndex: nat
    var charIndex: int
    var isDeleting: bool
    /** The 2-second timer that will set `isDeleting` is in flight. */
    var pausePending: bool
    /** The element's `textContent`. */
    var displayed: string

    ghost predicate Valid()
      reads this
    {
      && textIndex < |Texts|
      && charIndex >= 0
      && (isDeleting ==> charIndex >= 1 && !pausePending)
      && (pausePending ==> charIndex >= |Texts[textIndex]|)
      && displayed == Texts[textIndex][..Min(charIndex, |Texts[textIndex]|)]
    }

    constructor ()
      ensures Valid()
      ensures textIndex == 0 && charIndex == 0 && !isDeleting && !pausePending
    {
      textIndex, charIndex, isDeleting, pausePending := 0, 0, false, false;
      displayed := "";
    }

    /** `typeText`: one tick. Returns the delay before the next tick. */
    method TypeText() returns (typingSpeed: nat)
      requires Valid()
      modifies this
      ensures Valid()
      ensures displayed <= Texts[textIndex]
      ensures old(isDeleting) ==> charIndex == old(charIndex) - 1 && typingSpeed == DeletingDelayMs
      ensures !old(isDeleting) ==> charIndex == old(charIndex) + 1 && typingSpeed == TypingDelayMs
      ensures textIndex == if old(isDeleting) && charIndex == 0 then (old(textIndex) + 1) % |Texts| else old(textIndex)
      ensures isDeleting == (old(isDeleting) && charIndex != 0)
      ensures pausePending == (old(pausePending) || (!old(isDeleting) && charIndex == |Texts[textIndex]|))
      ensures !old(isDeleting) && charIndex == |Texts[textIndex]| ==> !old(pausePending)
    {
      TextsNonEmpty();
      var currentText := Texts[textIndex];
      if isDeleting {
        displayed := Substring(currentText, charIndex - 1);
        charIndex := charIndex - 1;
        typingSpeed := DeletingDelayMs;
      } else {
        displayed := Substring(currentText, charIndex + 1);
        charIndex := charIndex + 1;
        typingSpeed := TypingDelayMs;
      }
      if !isDeleting && charIndex == |currentText| {
        pausePending := true;
      } else if isDeleting && charIndex == 0 {
        isDeleting := false;
        textIndex := (textIndex + 1) % |Texts|;
      }
    }

    /** The 2-second timer fires: deletion starts; the text shown and the
        position are unchanged. */
    method PauseExpired()
      requires Valid() && pausePending
      modifies this
      ensures Valid()
      ensures isDeleting && !pausePending
      ensures textIndex == old(textIndex) && charIndex == old(charIndex) && displayed == old(displayed)
    {
      TextsNonEmpty();
      isDeleting := true;
      pausePending := false;
    }
  }
}
