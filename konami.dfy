/**
 * The Konami-code listener: a window over the last key codes pressed,
 * compared with the ten-key sequence after every `keydown`.
 */
module Konami {
  const KonamiSequence: seq<string> := [
    "ArrowUp", "ArrowUp", "ArrowDown", "ArrowDown",
    "ArrowLeft", "ArrowRight", "ArrowLeft", "ArrowRight",
    "KeyB", "KeyA"
  ]

  /** The last `n` of `keys` (all of them when there are fewer). */
  function LastKeys(keys: seq<string>, n: nat): (r: seq<string>)
    ensures |r| == if |keys| < n then |keys| else n
    ensures r == keys[|keys| - |r|..]
  {
    if |keys| < n then keys else keys[|keys| - n..]
  }

  /** `push(code)`, then one `shift()` when the buffer has grown longer than
      the sequence. */
  function Slide(codes: seq<string>, code: string): (r: seq<string>)
    ensures |r| == if |codes| < |KonamiSequence| then |codes| + 1 else |codes|
    ensures |codes| <= |KonamiSequence| ==> |r| <= |KonamiSequence|
    ensures r != [] && r[|r| - 1] == code
    ensures r[..|r| - 1] == LastKeys(codes, |r| - 1)
  {
    var pushed := codes + [code];
    if |pushed| > |KonamiSequence| then pushed[1..] else pushed
  }

  /** When the buffer holds the last keys typed, it still does after one
      more key. */
  lemma SlideKeepsLastKeys(typed: seq<string>, code: string)
    ensures Slide(LastKeys(typed, |KonamiSequence|), code) == LastKeys(typed + [code], |KonamiSequence|)
  {
  }

  class KonamiListener {
    /** The window of recent key codes (`konamiCode`). */
    var konamiCode: seq<string>
    /** The key codes pressed since the window was last emptied. */
    ghost var typed: seq<string>

    ghost predicate Valid()
      reads this
    {
      konamiCode == LastKeys(typed, |KonamiSequence|)
    }

    constructor ()
      ensures Valid() && konamiCode == [] && typed == []
    {
      konamiCode := [];
      typed := [];
    }

    /** The `keydown` handler. `activated` is the call of the easter egg,
        which happens exactly when the last ten keys typed since the window
        was last emptied spell the sequence; the window is emptied exactly
        then, and never holds more than ten codes. */
    method KeyDown(code: string) returns (activated: bool)
      requires Valid()
      modifies this
      ensures Valid()
      ensures |konamiCode| <= |KonamiSequence|
      ensures activated <==> LastKeys(old(typed) + [code], |KonamiSequence|) == KonamiSequence
      ensures activated ==> konamiCode == [] && typed == []
      ensures !activated ==> konamiCode == Slide(old(konamiCode), code) && typed == old(typed) + [code]
    {
      SlideKeepsLastKeys(typed, code);
      konamiCode := konamiCode + [code];
      if |konamiCode| > |KonamiSequence| {
        konamiCode := konamiCode[1..];
      }
      typed := typed + [code];
      activated := konamiCode == KonamiSequence;
      if activated {
        konamiCode := [];
        typed := [];
      }
    }
  }
}
