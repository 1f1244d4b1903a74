/**
 * RecordingManager: the session store. It keeps a map from name to recording,
 * at most one recording in progress, and the counter that numbers default names.
 */
module RecordingManagers {
  import opened Wrappers
  import opened Errors
  import opened JavaText
  import opened NoteEvents
  import opened EventLists
  import opened Recordings
  import opened RecordingNames

  class RecordingManager {
    var recordings: map<string, Recording>
    /** The recording in progress, or null. */
    var current: Recording?
    /** The number the next default name carries; it only ever grows. */
    var counter: nat

    /** Every recording is stored under its own name. */
    ghost predicate KeysMatchNames()
      reads this
    {
      NamesMatch(recordings)
    }

    /**
     * The manager's invariant: a recording in progress carries the default
     * name of the current counter, since the counter only moves when the
     * recording in progress is cleared.
     */
    ghost predicate Valid()
      reads this
    {
      current != null ==> current.name == DefaultName(counter)
    }

    /** A new manager: no recordings, nothing in progress, counter 1. */
    constructor ()
      ensures recordings == map[] && current == null && counter == 1
      ensures Valid() && KeysMatchNames()
    {
      recordings := map[];
      current := null;
      counter := 1;
    }

    /**
     * `startRecording`: creates "Recording <counter>" only when nothing is in
     * progress; otherwise returns the recording already in progress and
     * changes nothing.
     */
    method StartRecording() returns (r: Recording)
      requires Valid()
      modifies this
      ensures old(current) != null ==> r == old(current)
      ensures old(current) == null ==> fresh(r) && r.events == []
      ensures r.name == DefaultName(counter)
      ensures current == r && Valid()
      ensures recordings == old(recordings) && counter == old(counter)
    {
      if current != null {
        return current;
      }
      r := new Recording.Init(DefaultName(counter), []);
      current := r;
    }

    /**
     * `stopRecording(name)`. With nothing in progress it returns null and
     * changes nothing. A non-blank name whose trim differs from the current
     * name stores a new recording under the trimmed name, holding the current
     * events in sorted order, and leaves the counter alone. Otherwise the
     * current recording itself is stored under its own name and the counter
     * advances by one. Either way nothing is in progress afterwards.
     */
    method StopRecordingAs(name: string) returns (saved: Recording?)
      requires Valid()
      modifies this
      ensures old(current) == null ==>
        saved == null && recordings == old(recordings) && counter == old(counter)
      ensures old(current) != null && !IsBlank(name) && Trim(name) != old(current).name ==>
        saved != null && fresh(saved) && saved.name == Trim(name) &&
        saved.events == SortEvents(old(current.events)) &&
        recordings == old(recordings)[Trim(name) := saved] && counter == old(counter)
      ensures old(current) != null && (IsBlank(name) || Trim(name) == old(current).name) ==>
        saved == old(current) && saved.name == DefaultName(old(counter)) &&
        recordings == old(recordings)[saved.name := saved] && counter == old(counter) + 1
      ensures current == null && Valid()
      ensures old(KeysMatchNames()) ==> KeysMatchNames()
    {
      if current == null {
        return null;
      }
      var cur := current;
      if !IsBlank(name) && Trim(name) != cur.name {
        // a new name: store a sorted copy under it
        var saveName := Trim(name);
        TrimIdempotent(name);
        var evs := cur.GetEvents();
        saved := new Recording.Init(saveName, evs);
        recordings := recordings[saveName := saved];
        current := null;
        if old(KeysMatchNames()) {
          KeysMatchNamesAfterPut(old(recordings), saveName, saved);
        }
      } else {
        // the current name: store the recording itself and advance the counter
        recordings := recordings[cur.name := cur];
        saved := cur;
        current := null;
        counter := counter + 1;
        if old(KeysMatchNames()) {
          KeysMatchNamesAfterPut(old(recordings), cur.name, cur);
        }
      }
    }

    /** `stopRecording()`: the same as stopping under a null name. */
    method StopRecording() returns (saved: Recording?)
      requires Valid()
      modifies this
      ensures old(current) == null ==>
        saved == null && recordings == old(recordings) && counter == old(counter)
      ensures old(current) != null ==>
        saved == old(current) && saved.name == DefaultName(old(counter)) &&
        recordings == old(recordings)[saved.name := saved] && counter == old(counter) + 1
      ensures current == null && Valid()
      ensures old(KeysMatchNames()) ==> KeysMatchNames()
    {
      saved := StopRecordingAs("");
    }

    /**
     * `saveRecording`: a blank name or a null recording is rejected; otherwise
     * the trimmed name maps to the recording, replacing any earlier entry. The
     * recording keeps its own name, so the names match the keys afterwards
     * only when that name is the trimmed one.
     */
    method SaveRecording(name: string, recording: Recording?) returns (o: Outcome<Error>)
      requires Valid()
      modifies this
      ensures IsBlank(name) ==> o == Fail(BlankRecordingName) && recordings == old(recordings)
      ensures !IsBlank(name) && recording == null ==> o == Fail(NullRecording) && recordings == old(recordings)
      ensures !IsBlank(name) && recording != null ==>
        o == Pass && recordings == old(recordings)[Trim(name) := recording]
      ensures current == old(current) && counter == old(counter) && Valid()
      ensures old(KeysMatchNames()) && (recording == null || recording.name == Trim(name)) ==> KeysMatchNames()
    {
      if IsBlank(name) {
        return Fail(BlankRecordingName);
      }
      if recording == null {
        return Fail(NullRecording);
      }
      recordings := recordings[Trim(name) := recording];
      return Pass;
    }

    /**
     * `deleteRecording`: true exactly when the trimmed name was a key, and
     * only that key is removed; a blank name removes nothing.
     */
    method DeleteRecording(name: string) returns (deleted: bool)
      requires Valid()
      modifies this
      ensures IsBlank(name) ==> !deleted && recordings == old(recordings)
      ensures !IsBlank(name) ==>
        deleted == (Trim(name) in old(recordings)) && recordings == old(recordings) - {Trim(name)}
      ensures current == old(current) && counter == old(counter) && Valid()
      ensures old(KeysMatchNames()) ==> KeysMatchNames()
    {
      if IsBlank(name) {
        return false;
      }
      deleted := Trim(name) in recordings;
      recordings := recordings - {Trim(name)};
    }

    /**
     * `getRecording`: the recording stored under the trimmed name, or null
     * when the name is blank or not a key.
     */
    function GetRecording(name: string): (r: Recording?)
      reads this
      ensures IsBlank(name) ==> r == null
      ensures !IsBlank(name) ==> (r != null <==> Trim(name) in recordings)
      ensures r != null ==> r == recordings[Trim(name)]
      ensures r != null && KeysMatchNames() ==> r.name == Trim(name)
    {
      if IsBlank(name) || Trim(name) !in recordings then null else recordings[Trim(name)]
    }

    /**
     * `listRecordings`: every key exactly once, sorted by the name comparator,
     * so numbered names come first in ascending order and the rest follow in
     * `compareTo` order. Keys are taken in an unspecified order, as from a
     * hash map.
     */
    method ListRecordings() returns (names: seq<string>)
      ensures multiset(names) == multiset(recordings.Keys)
      ensures SortedNames(names)
    {
      var remaining := recordings.Keys;
      names := [];
      while remaining != {}
        invariant remaining <= recordings.Keys
        invariant multiset(names) + multiset(remaining) == multiset(recordings.Keys)
        invariant SortedNames(names)
        decreases |remaining|
      {
        var k :| k in remaining;
        InsertNameSorted(names, k);
        names := InsertName(names, k);
        assert multiset(remaining) == multiset(remaining - {k}) + multiset{k};
        remaining := remaining - {k};
      }
    }

    /**
     * The argument checks of `exportToMIDI`, in their order: a blank name, a
     * missing file, then an unknown recording. On success, the events that
     * would be written: the recording's events in sorted order.
     */
    method ExportToMidi(name: string, fileGiven: bool) returns (r: Result<seq<Event>, Error>)
      ensures IsBlank(name) ==> r == Failure(BlankRecordingName)
      ensures !IsBlank(name) && !fileGiven ==> r == Failure(NullFile)
      ensures !IsBlank(name) && fileGiven && Trim(name) !in recordings ==> r == Failure(RecordingNotFound)
      ensures r.Success? <==> !IsBlank(name) && fileGiven && Trim(name) in recordings
      ensures r.Success? ==> r.value == SortEvents(recordings[Trim(name)].events)
    {
      if IsBlank(name) {
        return Failure(BlankRecordingName);
      }
      if !fileGiven {
        return Failure(NullFile);
      }
      var recording := GetRecording(name);
      if recording == null {
        return Failure(RecordingNotFound);
      }
      var evs := recording.GetEvents();
      return Success(evs);
    }

    /**
     * `renameRecording`: a blank or unknown old name gives false and changes
     * nothing; a blank new name, or a new name already in use (the old name
     * included), is rejected and changes nothing; otherwise the old key is
     * gone and the new key maps to a new recording with the old events, sorted.
     */
    method RenameRecording(oldName: string, newName: string) returns (r: Result<bool, Error>)
      requires Valid()
      modifies this
      ensures IsBlank(oldName) ==> r == Success(false)
      ensures !IsBlank(oldName) && IsBlank(newName) ==> r == Failure(BlankNewName)
      ensures !IsBlank(oldName) && !IsBlank(newName) && Trim(oldName) !in old(recordings) ==> r == Success(false)
      ensures (!IsBlank(oldName) && !IsBlank(newName) && Trim(oldName) in old(recordings) &&
               Trim(newName) in old(recordings)) ==> r == Failure(DuplicateName)
      ensures r != Success(true) ==> recordings == old(recordings)
      ensures r == Success(true) <==>
        !IsBlank(oldName) && !IsBlank(newName) &&
        Trim(oldName) in old(recordings) && Trim(newName) !in old(recordings)
      ensures r == Success(true) ==>
        Trim(newName) in recordings && fresh(recordings[Trim(newName)]) &&
        recordings[Trim(newName)].name == Trim(newName) &&
        recordings[Trim(newName)].events == SortEvents(old(recordings[Trim(oldName)].events)) &&
        recordings == (old(recordings) - {Trim(oldName)})[Trim(newName) := recordings[Trim(newName)]]
      ensures current == old(current) && counter == old(counter) && Valid()
      ensures old(KeysMatchNames()) ==> KeysMatchNames()
    {
      if IsBlank(oldName) {
        return Success(false);
      }
      if IsBlank(newName) {
        return Failure(BlankNewName);
      }
      var recording := GetRecording(oldName);
      if recording == null {
        return Success(false);
      }
      var newKey := Trim(newName);
      if newKey in recordings {
        return Failure(DuplicateName);
      }
      TrimIdempotent(newName);
      var evs := recording.GetEvents();
      var renamed := new Recording.Init(newKey, evs);
      recordings := recordings[newKey := renamed];
      recordings := recordings - {Trim(oldName)};
      return Success(true);
    }

    /**
     * Two start/stop rounds with default names store two recordings under two
     * different names, "Recording <counter>" and "Recording <counter + 1>".
     */
    method DefaultSavesDistinct() returns (first: Recording, second: Recording)
      requires Valid()
      modifies this
      ensures first.name == DefaultName(old(counter)) && second.name == DefaultName(old(counter) + 1)
      ensures first.name != second.name
      ensures recordings == old(recordings)[first.name := first][second.name := second]
      ensures current == null && counter == old(counter) + 2 && Valid()
    {
      var started := StartRecording();
      var saved := StopRecording();
      first := saved;
      started := StartRecording();
      saved := StopRecording();
      second := saved;
    }
  }

  /** Every recording of `m` is stored under its own name. */
  ghost predicate NamesMatch(m: map<string, Recording>) {
    forall k :: k in m ==> m[k].name == k
  }

  /** Storing a recording under its own name keeps every key matching its name. */
  lemma KeysMatchNamesAfterPut(m: map<string, Recording>, k: string, r: Recording)
    requires NamesMatch(m) && r.name == k
    ensures NamesMatch(m[k := r])
  {
  }
}
