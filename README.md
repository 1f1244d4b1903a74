# KeyChord model layer in Dafny

KeyChord is a small desktop piano. Computer keys play notes and chords, and a
performance can be recorded, stored under a name, replayed and exported as a
MIDI file. This project models the model layer of the application
(`src/main/java/model/`) and proves properties of it:

- **note events**: an immutable MIDI note, a millisecond timestamp and an on/off flag;
- **recordings and tracks**: append-only event lists whose `getEvents` returns a
  stably sorted copy;
- **the recording manager**: named recordings, the recording in progress and
  the counter behind the default names "Recording N";
- **the recorder**: the clock that stamps events;
- **the player**: the playing flag and the loop that delivers events to a
  handler;
- **the chord generator** and **the key map**;
- **the piano model** that wires them together.

Modelling conventions:

- Every `IllegalArgumentException` becomes the `Failure`/`Fail` case of a
  `Result` or `Outcome`. `Errors.Error` names the cause.
- A nullable reference is an `Option`.
- A null string is modelled as `""`. Every check in the source treats null
  and blank names alike.
- The wall clock (`System.currentTimeMillis`) is a `now` parameter.
  `stopChord` reads the clock once per note, so there it is a function
  `clock` from the note's index to a reading.
- Sorting (`List.sort`, `Collections.sort`) is a stable insertion sort over
  sequences. `EventLists.StableSortUnique` shows that any stable sort by the
  same key gives the same list.
- The sound output (`MidiSoundManager`) is an abstract sink. Only its
  rejection of notes outside 0..127 is kept.
- The playback thread is modelled by running its body, `Players.Player.PlayEvents`.
  Other threads appear as an oracle `env`, consulted once per event.
- Java `int` and `long` are unbounded integers.
- `String.trim`, `Integer.parseInt` and `String.compareTo` are written out in
  `JavaText`, restricted to what the model layer uses. `Character.toLowerCase`
  is written out in `KeyMappings.LookupKey` only for the characters whose lower
  case is a key of the table (A–Z, U+0130 and U+212A); every other character
  is kept as it is, which makes no difference to the lookup.

Three behaviours of the code that a reader may not expect:

- `Player.playEvents` checks the playing flag only before each sleep, not
  after it. A stop that arrives during the sleep still lets that event be
  delivered (`Players.Interference` has no case for it).
- `saveRecording` can store a recording under a key that differs from the
  recording's name. So the key-equals-name invariant holds only conditionally
  (`RecordingManagers.RecordingManager.KeysMatchNames`).
- `renameRecording` rejects a new name that is already a key, the old name
  included. It does not only reject names used by a different entry.

## Model

| member | source | states |
|---|---|---|
| NoteEvents.NewNoteEvent | src/main/java/model/NoteEvent.java:21-31 | construction succeeds exactly for a note in 0..127 and a timestamp ≥ 0 (0 accepted); the note is checked first, then the timestamp; a built event's getters return the arguments |
| NoteEvents.NoteEvent.IsNoteOff | src/main/java/model/NoteEvent.java:65-67 | `isNoteOff` is the negation of `isNoteOn` |
| NoteEvents.Equals | src/main/java/model/NoteEvent.java:76-83 | two events are equal exactly when note, timestamp and flag all match (both directions) |
| EventLists.Insert | src/main/java/model/Recording.java:121-130 | one insertion step adds exactly the new event to the multiset of events |
| EventLists.SortEvents | src/main/java/model/Recording.java:121-130 | the sorted list is a permutation of the input |
| EventLists.InsertSorted | src/main/java/model/Recording.java:123-130 | inserting into a list sorted by (timestamp, midiNote) keeps it sorted |
| EventLists.BeforeStrictOrder | src/main/java/model/Recording.java:123-130 | the comparator of `getEvents` is irreflexive, asymmetric and transitive, and ties two events exactly when they share timestamp and note (the on/off flag is ignored) |
| EventLists.SortEventsSorted | src/main/java/model/Recording.java:123-130 | the result of the sort is ascending by (timestamp, midiNote) |
| EventLists.SortEventsStable | src/main/java/model/Recording.java:123-130 | the sort is stable: the events of each (timestamp, midiNote) key keep their insertion order |
| EventLists.SortedWithSameKeysEqual | src/main/java/model/Recording.java:123-130 | two sorted lists holding the same events per key, in the same order, are equal |
| EventLists.StableSortUnique | src/main/java/model/Recording.java:123-130 | every sorted list that keeps the per-key order of the input is the model's sort, so the library's stable sort returns it |
| EventLists.SortedCopy | src/main/java/model/Recording.java:119-133 | copying and sorting gives a sorted permutation that keeps the per-key order |
| EventLists.NonNullPrefixAppend | src/main/java/model/Recording.java:104-109 | appending a null-free list, then more, appends the null-free part in full |
| EventLists.NonNullPrefixAll | src/main/java/model/Recording.java:104-109 | without nulls, every element is appended, in list order |
| EventLists.NonNullPrefixOfPresent | src/main/java/model/PianoModel.java:177-182 | a list of events handed to `addNoteEvents` is appended entirely |
| Recordings.Recording.Init | src/main/java/model/Recording.java:41-51 | the stored name and events are the given ones |
| Recordings.Recording.New | src/main/java/model/Recording.java:25-32 | a null or blank name is rejected; otherwise the trimmed name is stored and there are no events |
| Recordings.Recording.NewWithEvents | src/main/java/model/Recording.java:41-51 | the same name check; the events are a copy of the given list, and a null list gives none |
| Recordings.Recording.SetName | src/main/java/model/Recording.java:68-76 | a blank name is rejected; the name never changes (it is a `const`) |
| Recordings.Recording.AddNoteEvent | src/main/java/model/Recording.java:84-91 | null is rejected with no change; otherwise exactly that event is appended |
| Recordings.Recording.AddNoteEvents | src/main/java/model/Recording.java:99-111 | a null list is rejected with no change; otherwise the elements before the first null are appended in order, and a null element is reported after them, with no rollback |
| Recordings.Recording.GetEvents | src/main/java/model/Recording.java:119-133 | a sorted permutation of the stored events that keeps per-key order; the stored list is unchanged |
| Recordings.Recording.Clear | src/main/java/model/Recording.java:138-142 | the recording becomes empty |
| Recordings.Recording.EventCount | src/main/java/model/Recording.java:149-153 | the count is the number of stored events |
| Recordings.Recording.IsEmpty | src/main/java/model/Recording.java:160-164 | empty exactly when the event count is 0 |
| Recordings.Recording.GetDuration | src/main/java/model/Recording.java:180-191 | 0 when empty; otherwise the maximum timestamp: no event is later, and some event has it |
| Tracks.Track.Init | src/main/java/model/Track.java:24-30 | a valid track number is stored and the track is empty |
| Tracks.Track.New | src/main/java/model/Track.java:24-30 | numbers outside 1..9 are rejected; otherwise `getTrackNumber` returns the argument and the track is empty |
| Tracks.Track.AddNoteEvent | src/main/java/model/Track.java:38-45 | null is rejected with no change; otherwise exactly that event is appended |
| Tracks.Track.AddNoteEvents | src/main/java/model/Track.java:54-66 | a null list is rejected; otherwise the elements before the first null are appended in order, with no rollback |
| Tracks.Track.Clear | src/main/java/model/Track.java:71-75 | the track becomes empty |
| Tracks.Track.GetEvents | src/main/java/model/Track.java:82-96 | a sorted permutation of the stored events that keeps per-key order; the stored list is unchanged |
| Tracks.Track.EventCount | src/main/java/model/Track.java:112-116 | the count is the number of stored events |
| Tracks.Track.IsEmpty | src/main/java/model/Track.java:123-127 | empty exactly when the event count is 0 |
| JavaText.Trim | src/main/java/model/Recording.java:26-29 | the trimmed name neither starts nor ends with a character ≤ U+0020, and it is empty exactly when every character is one |
| JavaText.TrimIsSlice | src/main/java/model/Recording.java:26-29 | the trimmed name is the contiguous slice of the name left after removing a run of characters ≤ U+0020 at the front and one at the back |
| JavaText.TrimOfTrimmed | src/main/java/model/Recording.java:29 | a name without such characters at its ends is its own trim |
| JavaText.TrimIdempotent | src/main/java/model/RecordingManager.java:74-81 | trimming an already trimmed name changes nothing, so a stored trimmed name passes the name check again |
| JavaText.ParseInt | src/main/java/model/RecordingManager.java:204-214 | a value is returned only for ASCII digits, optionally after one '+' or '-'; for such text the value is the digits' decimal value (negated after '-') when it lies in the 32-bit int range, and nothing otherwise |
| JavaText.NatToString | src/main/java/model/RecordingManager.java:54 | the decimal text of the counter is a nonempty digit string whose value is the counter |
| JavaText.ParseIntOfNatToString | src/main/java/model/RecordingManager.java:204-214 | parsing the decimal text of an int in range gives it back |
| JavaText.ParseIntOfNegative | src/main/java/model/RecordingManager.java:204-214 | parsing '-' followed by the decimal text of n, for n up to 2^31, gives -n |
| JavaText.CompareStrings | src/main/java/model/RecordingManager.java:190 | when one string is a prefix of the other, `compareTo` is the difference of the lengths |
| JavaText.CompareStringsFirstDifference | src/main/java/model/RecordingManager.java:190 | at the first index where the strings differ, `compareTo` is the difference of the two characters there |
| JavaText.CompareStringsAntisymmetric | src/main/java/model/RecordingManager.java:190 | swapping the arguments of `compareTo` negates the result |
| JavaText.CompareStringsZero | src/main/java/model/RecordingManager.java:190 | `compareTo` is 0 exactly for equal strings |
| JavaText.CompareStringsTransitive | src/main/java/model/RecordingManager.java:190 | `compareTo(...) <= 0` is transitive |
| RecordingNames.DefaultName | src/main/java/model/RecordingManager.java:54 | the default name is "Recording " followed by the counter's digits; it is not blank and is its own trim |
| RecordingNames.DefaultNameInjective | src/main/java/model/RecordingManager.java:54 | different counters give different default names |
| RecordingNames.ExtractRecordingNumber | src/main/java/model/RecordingManager.java:204-214 | no number for a name not starting with "Recording "; for a name that does, exactly the parse of its trimmed remainder (so a number whenever that remainder parses), always within the int range |
| RecordingNames.DefaultNameNumbered | src/main/java/model/RecordingManager.java:204-214 | every default name carries its own counter back |
| RecordingNames.WordNameUnnumbered | src/main/java/model/RecordingManager.java:204-214 | "Recording five" carries no number |
| RecordingNames.IntCompare | src/main/java/model/RecordingManager.java:181 | `Integer.compare` is negative, zero or positive as a < b, a == b, a > b |
| RecordingNames.CompareNames | src/main/java/model/RecordingManager.java:174-192 | two numbered names order by their numbers and tie exactly on equal numbers; a numbered name comes before an unnumbered one; two unnumbered names tie exactly when equal |
| RecordingNames.CompareNamesAntisymmetric | src/main/java/model/RecordingManager.java:174-192 | swapping the names negates the comparator |
| RecordingNames.CompareNamesTransitive | src/main/java/model/RecordingManager.java:174-192 | the comparator's "not after" relation is transitive, so it is a total preorder |
| RecordingNames.CompareNamesZero | src/main/java/model/RecordingManager.java:174-192 | the comparator ties two names only when they are equal or carry the same number |
| RecordingNames.InsertName | src/main/java/model/RecordingManager.java:174 | one insertion step adds exactly the new name to the multiset of names |
| RecordingNames.InsertNameSorted | src/main/java/model/RecordingManager.java:174-192 | inserting into a list sorted by the comparator keeps it sorted |
| RecordingNames.NumberedFirst | src/main/java/model/RecordingManager.java:182-187 | in a sorted list, every numbered name comes before every other name |
| RecordingNames.NumberedAscending | src/main/java/model/RecordingManager.java:179-181 | numbered names appear in ascending order of their numbers |
| RecordingNames.OthersLexicographic | src/main/java/model/RecordingManager.java:188-190 | the other names appear in `compareTo` order |
| RecordingManagers.RecordingManager.constructor | src/main/java/model/RecordingManager.java:39-43 | no recordings, nothing in progress, counter 1 |
| RecordingManagers.RecordingManager.StartRecording | src/main/java/model/RecordingManager.java:51-59 | with nothing in progress, a new empty "Recording <counter>" becomes current; otherwise the current one is returned; either way the current recording is named "Recording <counter>" (the invariant `Valid`, kept by every manager method); the map and counter never change |
| RecordingManagers.RecordingManager.StopRecordingAs | src/main/java/model/RecordingManager.java:68-91 | nothing in progress: null and no change; a new non-blank name: a new recording with the sorted events under the trimmed name, counter unchanged; otherwise the current recording under "Recording <old counter>", counter + 1; nothing in progress afterwards; the keys keep matching the names |
| RecordingManagers.RecordingManager.StopRecording | src/main/java/model/RecordingManager.java:98-100 | the current recording is stored under "Recording <old counter>" and the counter advances by one; nothing in progress afterwards |
| RecordingManagers.RecordingManager.SaveRecording | src/main/java/model/RecordingManager.java:120-131 | a blank name or null recording is rejected with no change; otherwise the trimmed name maps to the recording and every other key is kept |
| RecordingManagers.RecordingManager.DeleteRecording | src/main/java/model/RecordingManager.java:139-147 | true exactly when the trimmed name was a key; only that key is removed; a blank name changes nothing |
| RecordingManagers.RecordingManager.GetRecording | src/main/java/model/RecordingManager.java:155-162 | null for a blank or unknown name; otherwise the recording under the trimmed name, which carries that name while the keys match the names |
| RecordingManagers.RecordingManager.ListRecordings | src/main/java/model/RecordingManager.java:169-196 | every key exactly once, sorted by the comparator |
| RecordingManagers.RecordingManager.ExportToMidi | src/main/java/model/RecordingManager.java:224-236 | a blank name, a null file, then an unknown name are rejected in that order; otherwise the sorted events of the recording are what is written |
| RecordingManagers.RecordingManager.RenameRecording | src/main/java/model/RecordingManager.java:282-308 | blank or unknown old name: false, no change; blank or taken new name: rejected, no change; otherwise the old key is gone and the new key maps to a new recording with the old events, sorted |
| RecordingManagers.KeysMatchNamesAfterPut | src/main/java/model/RecordingManager.java:79-87 | storing a recording under its own name keeps every key equal to its recording's name |
| RecordingManagers.RecordingManager.DefaultSavesDistinct | src/test/java/model/RecordingManagerTest.java:226-234 | two start/stop rounds with default names store "Recording <c>" and "Recording <c + 1>", two different keys, and advance the counter by two |
| Recorders.Recorder.constructor | src/main/java/model/Recorder.java:29-32 | a new recorder is stopped |
| Recorders.Recorder.StartRecording | src/main/java/model/Recorder.java:37-43 | recording, with the start time reset to now even when already recording |
| Recorders.Recorder.StopRecording | src/main/java/model/Recorder.java:48-52 | not recording; the start time is kept |
| Recorders.Recorder.CurrentTimestamp | src/main/java/model/Recorder.java:125-132 | -1 while stopped; otherwise the time since the start |
| Recorders.Recorder.TimestampMonotone | src/main/java/model/Recorder.java:76-78 | with the start time fixed, a later clock reading gives a strictly larger timestamp |
| Recorders.Recorder.RecordNote | src/main/java/model/Recorder.java:71-97 | null while stopped; otherwise an event for the note stamped `now - startTime`, or the constructor's error; the recorder never changes |
| Recorders.Recorder.RecordNoteOn | src/main/java/model/Recorder.java:71-80 | the same with the on flag |
| Recorders.Recorder.RecordNoteOff | src/main/java/model/Recorder.java:88-97 | the same with the off flag |
| Recorders.Recorder.RecordChordOn | src/main/java/model/Recorder.java:105-118 | empty while stopped; otherwise one note-on per note, in order, sharing one timestamp; it fails exactly when some note is rejected, with the first rejected note's error |
| Players.CallOf | src/main/java/model/Player.java:130-134 | an on event calls `onNoteOn` and any other `onNoteOff`, with the event's note |
| Players.CallsOf | src/main/java/model/Player.java:104-135 | one call per event, in order |
| Players.FirstStop | src/main/java/model/Player.java:104-127 | the first interfered index: no interference before it, interference at it unless it is the end |
| Players.Player.constructor | src/main/java/model/Player.java:34-36 | a new player is not playing |
| Players.Player.StartPlayback | src/main/java/model/Player.java:51-68 | a null source, then a null handler, is rejected before the flag is touched; while playing nothing happens; otherwise the flag is set and one thread is started |
| Players.Player.StopPlayback | src/main/java/model/Player.java:73-77 | the flag is cleared |
| Players.Player.PlayEvents | src/main/java/model/Player.java:94-140 | null or empty list: no calls; otherwise the calls are those of the prefix of the events before the first interference, none if the flag was already clear; the flag ends false |
| Chords.Intervals | src/main/java/model/ChordManager.java:33-53 | each table starts at 0, rises strictly, stays within 0..11 and has four entries exactly for the seventh chords |
| Chords.ChordNotes | src/main/java/model/ChordManager.java:100-111 | at most one note per interval, every one in 0..127 |
| Chords.ChordNotesBelow | src/main/java/model/ChordManager.java:103-109 | a bound on every `root + interval` bounds every chord note |
| Chords.ChordMembers | src/main/java/model/ChordManager.java:103-109 | a note is in the chord exactly when it is in 0..127 and is `root + interval` for some interval |
| Chords.ChordRootFirst | src/main/java/model/ChordManager.java:103-109 | a valid root is the first chord note |
| Chords.ChordComplete | src/main/java/model/ChordManager.java:103-111 | when every `root + interval` is in range, the chord is exactly those notes in table order |
| Chords.ChordAscending | src/main/java/model/ChordManager.java:103-111 | chord notes rise strictly |
| Chords.ChordOfTypeComplete | src/main/java/model/ChordManager.java:103-111 | when root + largest interval ≤ 127, the chord has one note per interval, starting at the root |
| Chords.ChordExamples | src/main/java/model/ChordManager.java:34-41 | 60 major is [60, 64, 67]; 125 major seventh is [125] |
| Chords.ChordManager.constructor | src/main/java/model/ChordManager.java:61-63 | the default type is major |
| Chords.ChordManager.WithDefault | src/main/java/model/ChordManager.java:70-72 | the default type is the given one |
| Chords.ChordManager.SetDefaultChordType | src/main/java/model/ChordManager.java:119-121 | the default type is replaced |
| Chords.ChordManager.GenerateChord | src/main/java/model/ChordManager.java:93-112 | a root outside 0..127 is rejected; otherwise the in-range `root + interval` notes in table order |
| Chords.ChordManager.GenerateDefaultChord | src/main/java/model/ChordManager.java:81-83 | the same with the current default type |
| KeyMappings.LookupKey | src/main/java/model/KeyMappings.java:64 | upper-case ASCII letters are lowered; characters that cannot lower-case to a table key stay as they are |
| KeyMappings.EverySemitoneMapped | src/main/java/model/KeyMappings.java:17-55 | the table covers every semitone offset from -12 (C3) to 12 (C5) |
| KeyMappings.IsMapped | src/main/java/model/KeyMappings.java:82-84 | a character is mapped exactly when its note is not -1 |
| KeyMappings.OffsetsWithinOctave | src/main/java/model/KeyMappings.java:17-55 | every table offset lies in -12..12 |
| KeyMappings.GetMidiNote | src/main/java/model/KeyMappings.java:63-74 | -1 for an unmapped character; otherwise 60 plus the offset of the lower-cased character |
| KeyMappings.GetMiddleC | src/main/java/model/KeyMappings.java:91-93 | middle C is 60 |
| KeyMappings.MappedIffNote | src/main/java/model/KeyMappings.java:82-84 | mapped exactly when the note is not -1, and a mapped note lies in 48..72 |
| KeyMappings.CaseInsensitive | src/main/java/model/KeyMappings.java:64 | an upper-case letter gives the same note and mapping as its lower case |
| KeyMappings.KeyExamples | src/main/java/model/KeyMappings.java:22-46 | 'i' and 'c' give 60, 'Q' gives 48, '/' gives 72; 'a' and 's' are unmapped |
| Piano.PianoModel.constructor | src/main/java/model/PianoModel.java:40-46 | fresh, stopped recorder and player, major chords, an empty manager |
| Piano.PianoModel.IsRecording | src/main/java/model/PianoModel.java:100-102 | the recorder's flag |
| Piano.PianoModel.IsPlaying | src/main/java/model/PianoModel.java:298-300 | the player's flag |
| Piano.PianoModel.StartRecording | src/main/java/model/PianoModel.java:69-72 | the recorder is recording from now, and the manager has a recording in progress: the old one, or a new empty default-named one |
| Piano.PianoModel.StopRecording | src/main/java/model/PianoModel.java:79-82 | the recorder stops and the recording in progress is saved under "Recording <old counter>", the counter advancing by one |
| Piano.PianoModel.StopRecordingAs | src/main/java/model/PianoModel.java:90-93 | the recorder stops and the manager's two save branches apply to the given name |
| Piano.PianoModel.RouteNote | src/main/java/model/PianoModel.java:109-142 | an invalid note is rejected by the sink first; while recording, exactly one stamped event is appended to the recording in progress, or the timestamp is rejected; otherwise nothing changes |
| Piano.PianoModel.PlayNote | src/main/java/model/PianoModel.java:109-122 | the same with a note-on event |
| Piano.PianoModel.StopNote | src/main/java/model/PianoModel.java:129-142 | the same with a note-off event |
| Piano.PianoModel.PlayChord | src/main/java/model/PianoModel.java:167-185 | an invalid root is rejected; while recording, one note-on per chord note, in chord order and sharing one timestamp, is appended; otherwise nothing changes |
| Piano.PianoModel.StopChord | src/main/java/model/PianoModel.java:192-216 | an invalid root is rejected; while recording, one note-off per chord note, in chord order and each with its own clock reading, is appended, unless a reading is rejected, in which case nothing is appended |
| Piano.PianoModel.RecordChordOff | src/main/java/model/PianoModel.java:201-208 | nothing while stopped; otherwise one note-off per note, in order, each stamped with its own clock reading; it fails exactly when some stamp is rejected, with the error of the first rejected note |
| Piano.PianoModel.ClearCurrentRecording | src/main/java/model/PianoModel.java:305-310 | the recording in progress, if any, becomes empty |
| Piano.PianoModel.StartPlaybackOf | src/main/java/model/PianoModel.java:236-251 | a null recording starts nothing; otherwise a thread is started exactly when the player was not playing, and the player is playing afterwards |
| Piano.PianoModel.StartPlayback | src/main/java/model/PianoModel.java:223-229 | a blank or unknown name starts nothing; otherwise as above for the stored recording |
| Piano.PianoModel.StopPlayback | src/main/java/model/PianoModel.java:288-291 | the player's flag is cleared |

## Left out

- `MidiSoundManager` (the synthesizer, instruments, velocities, `allNotesOff`, `close`) is not part of this model; it is a wrapper around `javax.sound.midi`. Only its rejection of notes outside 0..127 is kept, in `Piano.PianoModel.RouteNote`. The velocities PianoModel passes are constants in 0..127, so that check never fails.
- The body of `exportToMIDI` (the MIDI sequence, the tick conversion in floating point and the file write) is left out; `ExportToMidi` returns the events that would be written.
- Threads, `synchronized` blocks, `ConcurrentHashMap` and sleeps are left out: every operation runs to completion on its own. The interleavings that matter to the player are the oracle `env`. The race between a stopped playback thread and a restarted one is not modelled.
- `Players.Player.PlayEvents` does not model the timing of delivery (the sleep until each event is due), only which calls are made and in which order.
- The sorted snapshot a playback thread takes is not modelled: `Piano.PianoModel.StartPlaybackOf` reports only that a thread is started. The thread's body is `PlayEvents`.
- `Recording.getCreationTime` is left out: it is a wall-clock reading with no property attached.
- Getters that return a field (`getName`, `getTrackNumber`, `getMidiNote`, `getTimestamp`, `isNoteOn`, `getDefaultChordType`, `getCurrentRecording`, `getRecordingManager`, `getRecorder`, `getChordManager`, and `Recorder.isRecording` and `Player.isPlaying`) are the fields themselves.
- `toString` and `hashCode` of NoteEvent are left out: they are formatting and hashing only.
- `playNoteWithoutRecording`, `stopNoteWithoutRecording` and `startPlaybackWithHandler` are left out: they only forward to the sound sink or to `Player.startPlayback`.
- `getIntervals` returns a copy of the table. A Dafny sequence is a value, so `Chords.Intervals` cannot be altered by a caller, and there is no copy to model.
- Java `int` and `long` overflow are not modelled. This covers the recording counter passing 2^31 - 1 and timestamps beyond the `long` range. `RecordingNames.DefaultNameNumbered` requires a counter within the int range for that reason.
- `String.compareTo` compares UTF-16 code units. The model compares Dafny characters, which agree for every character outside the surrogate range.
- `Integer.parseInt` also accepts non-ASCII Unicode digits. `JavaText.ParseInt` accepts only ASCII digits.
- `listRecordings` takes the keys in hash-map order, so names the comparator ties (such as "Recording 1" and "Recording 01") come out in an unspecified order. `RecordingManagers.RecordingManager.ListRecordings` promises only sortedness and the exact multiset of keys.
- A null element in the list given to `new Recording(name, events)`, and a null `Integer` in the note list given to `recordChordOn`, are not modelled: the model's lists hold events and integers only.
- RecordingManagers.RecordingManager.SaveRecording: the keys keep matching the names only when the saved recording's name is the trimmed key, because the source does not check this.
