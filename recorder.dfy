/**
 * Recorder: the recording clock. While recording, it stamps note events with
 * the milliseconds elapsed since recording started. The wall clock is the
 * `now` parameter of each operation that reads it.
 */
module Recorders {
  import opened Wrappers
  import opened Errors
  import opened NoteEvents

  /** All events of a chord share one timestamp, in the order of the notes. */
  predicate ChordOnAt(events: seq<Event>, notes: seq<int>, timestamp: int) {
    |events| == |notes| &&
    forall i :: 0 <= i < |events| ==> events[i] == NoteEvent(notes[i], timestamp, true)
  }

  /** The index of the first note that the NoteEvent constructor rejects at `timestamp`. */
  predicate FirstRejected(notes: seq<int>, timestamp: int, k: int) {
    0 <= k < |notes| && NewNoteEvent(notes[k], timestamp, true).Failure? &&
    forall i :: 0 <= i < k ==> NewNoteEvent(notes[i], timestamp, true).Success?
  }

  class Recorder {
    var isRecording: bool
    /** The clock reading when recording last started. */
    var startTime: int

    /** A new recorder is stopped. */
    constructor ()
      ensures !isRecording && startTime == 0
    {
      isRecording := false;
      startTime := 0;
    }

    /** `startRecording`: starts recording, and restarts the clock even when already recording. */
    method StartRecording(now: int)
      modifies this
      ensures isRecording && startTime == now
    {
      isRecording := true;
      startTime := now;
    }

    /** `stopRecording`: stops recording; when already stopped, nothing changes. */
    method StopRecording()
      modifies this
      ensures !isRecording && startTime == old(startTime)
    {
      isRecording := false;
    }

    /**
     * `getCurrentTimestamp`: -1 while stopped; otherwise the time since
     * recording started.
     */
    function CurrentTimestamp(now: int): (r: int)
      reads this
      ensures !isRecording ==> r == -1
      ensures isRecording ==> r + startTime == now
    {
      if !isRecording then -1 else now - startTime
    }

    /** With the start time fixed, a later clock reading gives a strictly later timestamp. */
    lemma TimestampMonotone(now: int, later: int)
      requires isRecording && now < later
      ensures CurrentTimestamp(now) < CurrentTimestamp(later)
    {
    }

    /**
     * `recordNoteOn` / `recordNoteOff`: null while stopped; otherwise an event
     * for the note, stamped with the current timestamp, with the given flag.
     * The NoteEvent constructor rejects a note outside 0..127, or a clock
     * reading before the start time. The recorder itself never changes.
     */
    method RecordNote(midiNote: int, now: int, isNoteOn: bool) returns (r: Result<Option<Event>, Error>)
      ensures !isRecording ==> r == Success(None)
      ensures isRecording && ValidNote(midiNote) && now >= startTime ==>
        r == Success(Some(NoteEvent(midiNote, CurrentTimestamp(now), isNoteOn)))
      ensures isRecording && !ValidNote(midiNote) ==> r == Failure(NoteOutOfRange)
      ensures isRecording && ValidNote(midiNote) && now < startTime ==> r == Failure(NegativeTimestamp)
    {
      if !isRecording {
        return Success(None);
      }
      var relativeTime := now - startTime;
      var e := NewNoteEvent(midiNote, relativeTime, isNoteOn);
      if e.Failure? {
        return Failure(e.error);
      }
      return Success(Some(e.value));
    }

    /** `recordNoteOn`. */
    method RecordNoteOn(midiNote: int, now: int) returns (r: Result<Option<Event>, Error>)
      ensures !isRecording ==> r == Success(None)
      ensures isRecording && ValidNote(midiNote) && now >= startTime ==>
        r == Success(Some(NoteEvent(midiNote, CurrentTimestamp(now), true)))
      ensures isRecording && !ValidNote(midiNote) ==> r == Failure(NoteOutOfRange)
      ensures isRecording && ValidNote(midiNote) && now < startTime ==> r == Failure(NegativeTimestamp)
    {
      r := RecordNote(midiNote, now, true);
    }

    /** `recordNoteOff`. */
    method RecordNoteOff(midiNote: int, now: int) returns (r: Result<Option<Event>, Error>)
      ensures !isRecording ==> r == Success(None)
      ensures isRecording && ValidNote(midiNote) && now >= startTime ==>
        r == Success(Some(NoteEvent(midiNote, CurrentTimestamp(now), false)))
      ensures isRecording && !ValidNote(midiNote) ==> r == Failure(NoteOutOfRange)
      ensures isRecording && ValidNote(midiNote) && now < startTime ==> r == Failure(NegativeTimestamp)
    {
      r := RecordNote(midiNote, now, false);
    }

    /**
     * `recordChordOn`: an empty list while stopped; otherwise one note-on
     * event per note, in the order of the notes, all with the timestamp read
     * once before the loop. The first note the NoteEvent constructor rejects
     * aborts the whole call with that note's error.
     */
    method RecordChordOn(midiNotes: seq<int>, now: int) returns (r: Result<seq<Event>, Error>)
      ensures !isRecording ==> r == Success([])
      ensures isRecording && r.Success? ==> ChordOnAt(r.value, midiNotes, CurrentTimestamp(now))
      ensures isRecording ==>
        (r.Success? <==> forall i :: 0 <= i < |midiNotes| ==> NewNoteEvent(midiNotes[i], CurrentTimestamp(now), true).Success?)
      ensures isRecording && r.Failure? ==>
        exists k :: FirstRejected(midiNotes, CurrentTimestamp(now), k) &&
          r.error == NewNoteEvent(midiNotes[k], CurrentTimestamp(now), true).error
    {
      if !isRecording {
        return Success([]);
      }
      var relativeTime := now - startTime;
      var events: seq<Event> := [];
      for i := 0 to |midiNotes|
        invariant ChordOnAt(events, midiNotes[..i], relativeTime)
        invariant forall j :: 0 <= j < i ==> NewNoteEvent(midiNotes[j], relativeTime, true).Success?
      {
        var e := NewNoteEvent(midiNotes[i], relativeTime, true);
        if e.Failure? {
          assert FirstRejected(midiNotes, relativeTime, i);
          return Failure(e.error);
        }
        events := events + [e.value];
      }
      assert midiNotes[..|midiNotes|] == midiNotes;
      return Success(events);
    }
  }
}
