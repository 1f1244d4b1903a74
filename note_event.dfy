/** NoteEvent: an immutable MIDI note number, millisecond timestamp and on/off flag. */
module NoteEvents {
  import opened Wrappers
  import opened Errors

  /** The MIDI note range 0..127. */
  predicate ValidNote(note: int) {
    0 <= note <= 127
  }

  datatype NoteEvent = NoteEvent(midiNote: int, timestamp: int, isNoteOn: bool)
  {
    /** What the Java constructor checks before it stores the fields. */
    predicate Valid() {
      ValidNote(midiNote) && timestamp >= 0
    }

    /** `isNoteOff()` is always the negation of `isNoteOn()`. */
    predicate IsNoteOff()
      ensures IsNoteOff() <==> !isNoteOn
    {
      !isNoteOn
    }
  }

  /** A Java NoteEvent object can only exist once its constructor has validated it. */
  type Event = e: NoteEvent | e.Valid() witness NoteEvent(60, 0, true)

  /**
   * The NoteEvent constructor: the note range is checked first, then the sign
   * of the timestamp (a timestamp of 0 is accepted); a constructed event's
   * getters return exactly the constructor arguments.
   */
  function NewNoteEvent(midiNote: int, timestamp: int, isNoteOn: bool): (r: Result<Event, Error>)
    ensures r.Success? <==> ValidNote(midiNote) && timestamp >= 0
    ensures !ValidNote(midiNote) ==> r == Failure(NoteOutOfRange)
    ensures ValidNote(midiNote) && timestamp < 0 ==> r == Failure(NegativeTimestamp)
    ensures r.Success? ==>
      r.value.midiNote == midiNote && r.value.timestamp == timestamp && r.value.isNoteOn == isNoteOn
  {
    if midiNote < 0 || midiNote > 127 then Failure(NoteOutOfRange)
    else if timestamp < 0 then Failure(NegativeTimestamp)
    else Success(NoteEvent(midiNote, timestamp, isNoteOn))
  }

  /** `equals`: two events are equal exactly when note, timestamp and flag all match. */
  function Equals(a: NoteEvent, b: NoteEvent): (r: bool)
    ensures r <==> a == b
  {
    a.midiNote == b.midiNote && a.timestamp == b.timestamp && a.isNoteOn == b.isNoteOn
  }
}
