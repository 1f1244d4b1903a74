/**
 * PianoModel: the composition of recorder, player, chord manager and
 * recording manager. It routes played notes and chords, stamped by the
 * recorder, into the recording in progress. The sound output is an abstract
 * sink: only its rejection of notes outside 0..127 is kept.
 */
module Piano {
  import opened Wrappers
  import opened Errors
  import opened NoteEvents
  import opened EventLists
  import opened Recordings
  import opened RecordingNames
  import opened RecordingManagers
  import opened Recorders
  import opened Players
  import opened Chords

  /** One event per chord note, in chord order: note i with flag `isNoteOn`, stamped `clock(i) - startTime`. */
  predicate Stamped(events: seq<NoteEvent>, notes: seq<int>, clock: nat -> int, startTime: int, isNoteOn: bool) {
    |events| == |notes| &&
    forall i :: 0 <= i < |events| ==> events[i] == NoteEvent(notes[i], clock(i) - startTime, isNoteOn)
  }

  /** `after` is `before` followed by the stamped events of the chord notes. */
  predicate AppendedChord(before: seq<Event>, after: seq<Event>, notes: seq<int>,
                          clock: nat -> int, startTime: int, isNoteOn: bool) {
    |before| <= |after| && after[..|before|] == before &&
    Stamped(after[|before|..], notes, clock, startTime, isNoteOn)
  }

  /** Appending stamped events to a recording extends it by exactly those events. */
  lemma AppendStamped(before: seq<Event>, added: seq<Event>, notes: seq<int>,
                      clock: nat -> int, startTime: int, isNoteOn: bool)
    requires Stamped(added, notes, clock, startTime, isNoteOn)
    ensures AppendedChord(before, before + added, notes, clock, startTime, isNoteOn)
  {
    assert (before + added)[..|before|] == before;
    assert (before + added)[|before|..] == added;
  }

  class PianoModel {
    const recorder: Recorder
    const player: Player
    const chordManager: ChordManager
    const manager: RecordingManager

    /** A new model: stopped recorder and player, major chords, an empty manager. */
    constructor ()
      ensures fresh(recorder) && fresh(player) && fresh(chordManager) && fresh(manager)
      ensures !recorder.isRecording && !player.isPlaying && chordManager.defaultChordType == Major
      ensures manager.recordings == map[] && manager.current == null && manager.counter == 1
      ensures manager.Valid()
    {
      recorder := new Recorder();
      player := new Player();
      chordManager := new ChordManager();
      manager := new RecordingManager();
    }

    /** `isRecording`: the recorder's flag. */
    predicate IsRecording()
      reads this, recorder
      ensures IsRecording() <==> recorder.isRecording
    {
      recorder.isRecording
    }

    /** `isPlaying`: the player's flag. */
    predicate IsPlaying()
      reads this, player
      ensures IsPlaying() <==> player.isPlaying
    {
      player.isPlaying
    }

    /**
     * `startRecording`: the recorder starts (or restarts) its clock, and the
     * manager has a recording in progress: the one it already had, or a new
     * empty one with the next default name.
     */
    method StartRecording(now: int) returns (current: Recording)
      requires manager.Valid()
      modifies recorder, manager
      ensures recorder.isRecording && recorder.startTime == now
      ensures manager.current == current && manager.Valid()
      ensures old(manager.current) != null ==> current == old(manager.current)
      ensures old(manager.current) == null ==> fresh(current) && current.events == []
      ensures current.name == DefaultName(manager.counter)
      ensures manager.recordings == old(manager.recordings) && manager.counter == old(manager.counter)
    {
      recorder.StartRecording(now);
      current := manager.StartRecording();
    }

    /** `stopRecording()`: the recorder stops and the manager saves under the default name. */
    method StopRecording() returns (saved: Recording?)
      requires manager.Valid()
      modifies recorder, manager
      ensures !recorder.isRecording
      ensures old(manager.current) == null ==>
        saved == null && manager.recordings == old(manager.recordings) && manager.counter == old(manager.counter)
      ensures old(manager.current) != null ==>
        saved == old(manager.current) && saved.name == DefaultName(old(manager.counter)) &&
        manager.recordings == old(manager.recordings)[saved.name := saved] &&
        manager.counter == old(manager.counter) + 1
      ensures manager.current == null && manager.Valid()
    {
      recorder.StopRecording();
      saved := manager.StopRecording();
    }

    /** `stopRecording(name)`: the recorder stops and the manager saves under the given name. */
    method StopRecordingAs(name: string) returns (saved: Recording?)
      requires manager.Valid()
      modifies recorder, manager
      ensures !recorder.isRecording
      ensures old(manager.current) == null ==>
        saved == null && manager.recordings == old(manager.recordings) && manager.counter == old(manager.counter)
      ensures old(manager.current) != null && !JavaText.IsBlank(name) && JavaText.Trim(name) != old(manager.current).name ==>
        saved != null && fresh(saved) && saved.name == JavaText.Trim(name) &&
        saved.events == SortEvents(old(manager.current.events)) &&
        manager.recordings == old(manager.recordings)[JavaText.Trim(name) := saved] &&
        manager.counter == old(manager.counter)
      ensures old(manager.current) != null && (JavaText.IsBlank(name) || JavaText.Trim(name) == old(manager.current).name) ==>
        saved == old(manager.current) && saved.name == DefaultName(old(manager.counter)) &&
        manager.recordings == old(manager.recordings)[saved.name := saved] &&
        manager.counter == old(manager.counter) + 1
      ensures manager.current == null && manager.Valid()
    {
      recorder.StopRecording();
      saved := manager.StopRecordingAs(name);
    }

    /**
     * `playNote` / `stopNote`: the sound sink rejects a note outside 0..127
     * before anything else happens. While recording, the recorder stamps the
     * note (a clock reading before the start time makes the NoteEvent
     * constructor throw) and the event is appended to the recording in
     * progress, if there is one. Nothing else changes.
     */
    method RouteNote(midiNote: int, now: int, isNoteOn: bool) returns (o: Outcome<Error>)
      modifies manager.current
      ensures o == (if !ValidNote(midiNote) then Fail(NoteOutOfRange)
                    else if recorder.isRecording && now < recorder.startTime then Fail(NegativeTimestamp)
                    else Pass)
      ensures manager.current != null && o.Pass? && recorder.isRecording ==>
        manager.current.events == old(manager.current.events) + [NoteEvent(midiNote, now - recorder.startTime, isNoteOn)]
      ensures manager.current != null && !(o.Pass? && recorder.isRecording) ==>
        manager.current.events == old(manager.current.events)
    {
      if midiNote < 0 || midiNote > 127 {
        return Fail(NoteOutOfRange);
      }
      if recorder.isRecording {
        var event := recorder.RecordNote(midiNote, now, isNoteOn);
        if event.Failure? {
          return Fail(event.error);
        }
        if event.value.Some? {
          var current := manager.current;
          if current != null {
            var _ := current.AddNoteEvent(event.value);
          }
        }
      }
      return Pass;
    }

    /** `playNote`. */
    method PlayNote(midiNote: int, now: int) returns (o: Outcome<Error>)
      modifies manager.current
      ensures o == (if !ValidNote(midiNote) then Fail(NoteOutOfRange)
                    else if recorder.isRecording && now < recorder.startTime then Fail(NegativeTimestamp)
                    else Pass)
      ensures manager.current != null && o.Pass? && recorder.isRecording ==>
        manager.current.events == old(manager.current.events) + [NoteEvent(midiNote, now - recorder.startTime, true)]
      ensures manager.current != null && !(o.Pass? && recorder.isRecording) ==>
        manager.current.events == old(manager.current.events)
    {
      o := RouteNote(midiNote, now, true);
    }

    /** `stopNote`. */
    method StopNote(midiNote: int, now: int) returns (o: Outcome<Error>)
      modifies manager.current
      ensures o == (if !ValidNote(midiNote) then Fail(NoteOutOfRange)
                    else if recorder.isRecording && now < recorder.startTime then Fail(NegativeTimestamp)
                    else Pass)
      ensures manager.current != null && o.Pass? && recorder.isRecording ==>
        manager.current.events == old(manager.current.events) + [NoteEvent(midiNote, now - recorder.startTime, false)]
      ensures manager.current != null && !(o.Pass? && recorder.isRecording) ==>
        manager.current.events == old(manager.current.events)
    {
      o := RouteNote(midiNote, now, false);
    }

    /** The notes of the default chord on `root`. */
    function DefaultChord(root: int): (notes: seq<int>)
      reads this, chordManager
    {
      ChordNotes(root, Intervals(chordManager.defaultChordType))
    }

    /**
     * `playChord`: a root outside 0..127 is rejected. While recording, one
     * note-on event per chord note, in chord order and all with one
     * timestamp, is appended to the recording in progress.
     */
    method PlayChord(root: int, now: int) returns (o: Outcome<Error>)
      modifies manager.current
      ensures o == (if !ValidNote(root) then Fail(RootOutOfRange)
                    else if recorder.isRecording && now < recorder.startTime then Fail(NegativeTimestamp)
                    else Pass)
      ensures manager.current != null && o.Pass? && recorder.isRecording ==>
        AppendedChord(old(manager.current.events), manager.current.events, DefaultChord(root),
                      (_: nat) => now, recorder.startTime, true)
      ensures manager.current != null && !(o.Pass? && recorder.isRecording) ==>
        manager.current.events == old(manager.current.events)
    {
      var chord := chordManager.GenerateDefaultChord(root);
      if chord.Failure? {
        return Fail(chord.error);
      }
      var notes := chord.value;
      ChordRootFirst(root, Intervals(chordManager.defaultChordType));
      // the sink plays every note: they are all in 0..127
      if recorder.isRecording {
        var events := recorder.RecordChordOn(notes, now);
        if events.Failure? {
          assert !NewNoteEvent(notes[0], now - recorder.startTime, true).Success?;
          return Fail(events.error);
        }
        assert forall i :: 0 <= i < |notes| ==> NewNoteEvent(notes[i], now - recorder.startTime, true).Success?;
        // the root comes first, so the chord's events are never empty
        var current := manager.current;
        if events.value != [] && current != null {
          var _ := current.AddNoteEvents(Some(Present(events.value)));
          NonNullPrefixOfPresent(events.value);
          AppendStamped(old(current.events), events.value, notes, (_: nat) => now, recorder.startTime, true);
        }
      }
      return Pass;
    }

    /**
     * `stopChord`: a root outside 0..127 is rejected. While recording, each
     * chord note is stamped with its own clock reading, `clock(i)` for the
     * i-th note; if every stamp succeeds, one note-off event per chord note,
     * in chord order, is appended to the recording in progress. A reading
     * before the start time throws, and nothing is appended.
     */
    method StopChord(root: int, clock: nat -> int) returns (o: Outcome<Error>)
      modifies manager.current
      ensures !ValidNote(root) ==> o == Fail(RootOutOfRange)
      ensures ValidNote(root) && !recorder.isRecording ==> o == Pass
      ensures ValidNote(root) && recorder.isRecording ==>
        o == (if forall i :: 0 <= i < |DefaultChord(root)| ==> clock(i) >= recorder.startTime
              then Pass else Fail(NegativeTimestamp))
      ensures manager.current != null && o.Pass? && recorder.isRecording ==>
        AppendedChord(old(manager.current.events), manager.current.events, DefaultChord(root),
                      clock, recorder.startTime, false)
      ensures manager.current != null && !(o.Pass? && recorder.isRecording) ==>
        manager.current.events == old(manager.current.events)
    {
      var chord := chordManager.GenerateDefaultChord(root);
      if chord.Failure? {
        return Fail(chord.error);
      }
      var notes := chord.value;
      // the sink stops every note: they are all in 0..127
      if recorder.isRecording {
        var events := RecordChordOff(notes, clock);
        if events.Failure? {
          return Fail(events.error);
        }
        var current := manager.current;
        if current != null {
          if events.value != [] {
            var _ := current.AddNoteEvents(Some(Present(events.value)));
            NonNullPrefixOfPresent(events.value);
          } else {
            assert current.events == current.events + events.value;
          }
          AppendStamped(old(current.events), events.value, notes, clock, recorder.startTime, false);
        }
      }
      return Pass;
    }

    /**
     * The recording half of `stopChord`: each note is stamped off by the
     * recorder with its own clock reading, and the events are collected in
     * chord order. Nothing is collected while stopped; the first note the
     * NoteEvent constructor rejects aborts the loop with its error.
     */
    method RecordChordOff(notes: seq<int>, clock: nat -> int) returns (r: Result<seq<Event>, Error>)
      ensures !recorder.isRecording ==> r == Success([])
      ensures recorder.isRecording ==>
        (r.Success? <==> forall i :: 0 <= i < |notes| ==> NewNoteEvent(notes[i], clock(i) - recorder.startTime, false).Success?)
      ensures recorder.isRecording && r.Success? ==> Stamped(r.value, notes, clock, recorder.startTime, false)
      ensures recorder.isRecording && r.Failure? ==>
        exists k :: 0 <= k < |notes| && NewNoteEvent(notes[k], clock(k) - recorder.startTime, false) == Failure(r.error) &&
          forall j :: 0 <= j < k ==> NewNoteEvent(notes[j], clock(j) - recorder.startTime, false).Success?
    {
      var events: seq<Event> := [];
      for i := 0 to |notes|
        invariant !recorder.isRecording ==> events == []
        invariant recorder.isRecording ==> Stamped(events, notes[..i], clock, recorder.startTime, false)
        invariant recorder.isRecording ==>
          forall j :: 0 <= j < i ==> NewNoteEvent(notes[j], clock(j) - recorder.startTime, false).Success?
      {
        var event := recorder.RecordNoteOff(notes[i], clock(i));
        if event.Failure? {
          assert NewNoteEvent(notes[i], clock(i) - recorder.startTime, false) == Failure(event.error);
          return Failure(event.error);
        }
        if event.value.Some? {
          events := events + [event.value.value];
        }
      }
      assert notes[..|notes|] == notes;
      return Success(events);
    }

    /** `clearCurrentRecording`: empties the recording in progress, if any. */
    method ClearCurrentRecording()
      modifies manager.current
      ensures manager.current != null ==> manager.current.events == []
    {
      var current := manager.current;
      if current != null {
        current.Clear();
      }
    }

    /**
     * `startPlayback(recording)`: a null recording is ignored; otherwise the
     * player is started on it. The result says whether a playback thread was
     * started, which happens only when the player was not already playing;
     * that thread plays the recording's events as they are when it runs.
     */
    method StartPlaybackOf(recording: Recording?) returns (started: bool)
      modifies player
      ensures started <==> recording != null && !old(player.isPlaying)
      ensures player.isPlaying == (old(player.isPlaying) || recording != null)
    {
      if recording == null {
        return false;
      }
      var r := player.StartPlayback(true, true);
      started := r.value;
    }

    /** `startPlayback(name)`: an unknown or blank name is ignored. */
    method StartPlayback(recordingName: string) returns (started: bool)
      modifies player
      ensures started <==> manager.GetRecording(recordingName) != null && !old(player.isPlaying)
      ensures player.isPlaying == (old(player.isPlaying) || manager.GetRecording(recordingName) != null)
    {
      var recording := manager.GetRecording(recordingName);
      if recording == null {
        return false;
      }
      started := StartPlaybackOf(recording);
    }

    /** `stopPlayback`: the player's flag is cleared (the sink silences all notes). */
    method StopPlayback()
      modifies player
      ensures !player.isPlaying
    {
      player.StopPlayback();
    }
  }
}
