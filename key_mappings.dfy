/**
 * KeyMappings: the fixed table from computer-keyboard characters to semitone
 * offsets from middle C, and the note lookup built on it.
 */
module KeyMappings {
  const MiddleC: int := 60

  /** Two octaves on a QWERTY keyboard: white and black keys from C3 up to C5. */
  const KeyToOffset: map<char, int> := map[
    'q' := -12, 'w' := -10, 'e' := -8, 'r' := -7, 't' := -5, 'y' := -3, 'u' := -1, 'i' := 0,
    '2' := -11, '3' := -9, '5' := -6, '6' := -4, '7' := -2,
    'c' := 0, 'v' := 2, 'b' := 4, 'n' := 5, 'm' := 7, ',' := 9, '.' := 11, '/' := 12,
    'f' := 1, 'g' := 3, 'j' := 6, 'k' := 8, 'l' := 10
  ]

  /**
   * `Character.toLowerCase` as far as the table lookup can tell: the table's
   * keys are ASCII, and the only characters that lower-case to ASCII are
   * A..Z, U+0130 (to 'i') and U+212A KELVIN SIGN (to 'k'). Every other
   * character is kept as it is, which finds no key just as its lower case
   * would not.
   */
  function LookupKey(c: char): (k: char)
    ensures 'A' <= c <= 'Z' ==> k as int == c as int + 32
    ensures !('A' <= c <= 'Z') && c != '\U{0130}' && c != '\U{212A}' ==> k == c
  {
    if 'A' <= c <= 'Z' then (c as int + 32) as char
    else if c == '\U{0130}' then 'i'
    else if c == '\U{212A}' then 'k'
    else c
  }

  /** Every offset lies within one octave of middle C. */
  lemma OffsetsWithinOctave()
    ensures forall k :: k in KeyToOffset ==> -12 <= KeyToOffset[k] <= 12
  {
  }

  /**
   * The table covers every semitone from C3 to C5: each offset from -12 to 12
   * belongs to some key (0 to both 'i' and 'c').
   */
  lemma EverySemitoneMapped()
    ensures forall n :: -12 <= n <= 12 ==> n in KeyToOffset.Values
  {
    forall n | -12 <= n <= 12
      ensures n in KeyToOffset.Values
    {
      var k := "q2w3er5t6y7uifvgbnjmk,l./"[n + 12];
      assert k in KeyToOffset && KeyToOffset[k] == n;
    }
  }

  /** `getMidiNote`: 60 plus the offset of the lower-cased character, or -1 when it has none. */
  function GetMidiNote(keyChar: char): (note: int)
    ensures LookupKey(keyChar) !in KeyToOffset ==> note == -1
    ensures LookupKey(keyChar) in KeyToOffset ==> note == MiddleC + KeyToOffset[LookupKey(keyChar)]
  {
    var k := LookupKey(keyChar);
    if k !in KeyToOffset then -1
    else
      var note := MiddleC + KeyToOffset[k];
      if note < 0 || note > 127 then -1 else note
  }

  /** `isMapped`: the lower-cased character is a key of the table. */
  predicate IsMapped(keyChar: char)
    ensures IsMapped(keyChar) <==> GetMidiNote(keyChar) != -1
  {
    LookupKey(keyChar) in KeyToOffset
  }

  /** `getMiddleC`. */
  function GetMiddleC(): (n: int)
    ensures n == 60
  {
    MiddleC
  }

  /**
   * A character is mapped exactly when its note is not -1, and a mapped
   * character's note lies in 48..72, so the range check never fires.
   */
  lemma MappedIffNote(keyChar: char)
    ensures IsMapped(keyChar) <==> GetMidiNote(keyChar) != -1
    ensures IsMapped(keyChar) ==> 48 <= GetMidiNote(keyChar) <= 72
  {
    OffsetsWithinOctave();
  }

  /** An upper-case letter gives the same note as its lower-case form. */
  lemma CaseInsensitive(c: char)
    requires 'a' <= c <= 'z'
    ensures GetMidiNote((c as int - 32) as char) == GetMidiNote(c)
    ensures IsMapped((c as int - 32) as char) <==> IsMapped(c)
  {
    assert LookupKey((c as int - 32) as char) == c;
  }

  /** Examples: both 'i' and 'c' are middle C, 'q' is C3, '/' is C5; 'a' and 's' are unmapped. */
  lemma KeyExamples()
    ensures GetMidiNote('i') == 60 && GetMidiNote('c') == 60
    ensures GetMidiNote('Q') == 48 && GetMidiNote('/') == 72
    ensures !IsMapped('a') && !IsMapped('s') && GetMidiNote('a') == -1
  {
    assert LookupKey('Q') == 'q';
  }
}
