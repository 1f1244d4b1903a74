/**
 * Every exception the model layer throws is an IllegalArgumentException; the
 * constructors below name its cause, one per distinct message in the source.
 */
module Errors {

  datatype Error =
    | NoteOutOfRange          // a MIDI note outside 0..127
    | NegativeTimestamp       // a NoteEvent timestamp below 0
    | BlankRecordingName      // a recording name that is null or trims to nothing
    | NullEvent               // a null NoteEvent handed to addNoteEvent
    | NullEventList           // a null list handed to addNoteEvents
    | NullInEventList         // a null element met while appending a list
    | TrackNumberOutOfRange   // a track number outside 1..9
    | NullRecording           // a null recording handed to saveRecording
    | NullFile                // a null target file for the MIDI export
    | RecordingNotFound       // an export of a name that is not stored
    | BlankNewName            // a rename to a null or blank name
    | DuplicateName           // a rename to a name that is already stored
    | RootOutOfRange          // a chord root outside 0..127
    | NullEventSource         // playback started with no event source
    | NullHandler             // playback started with no handler
}
