/** Recording: a named, append-only list of note events. */
module Recordings {
  import opened Wrappers
  import opened Errors
  import opened JavaText
  import opened NoteEvents
  import opened EventLists

  /** A name as the constructors store it: already trimmed, and not blank. */
  predicate IsStoredName(name: string) {
    !IsBlank(name) && Trim(name) == name
  }

  class Recording {
    /** Fixed at construction; a rename builds a new Recording. */
    const name: string
    /** The stored events, in insertion order. */
    var events: seq<Event>

    /** The part of both Java constructors after the name check. */
    constructor Init(name: string, events: seq<Event>)
      requires IsStoredName(name)
      ensures this.name == name && this.events == events
    {
      this.name := name;
      this.events := events;
    }

    /** `new Recording(name)`: rejects a null or blank name and stores the trimmed one. */
    static method New(name: string) returns (r: Result<Recording, Error>)
      ensures r.Failure? <==> IsBlank(name)
      ensures r.Failure? ==> r.error == BlankRecordingName
      ensures r.Success? ==> fresh(r.value) && r.value.name == Trim(name) && r.value.events == []
    {
      r := NewWithEvents(name, None);
    }

    /**
     * `new Recording(name, events)`: the same name check; the given events are
     * copied, and a null list means no events.
     */
    static method NewWithEvents(name: string, events: Option<seq<Event>>) returns (r: Result<Recording, Error>)
      ensures r.Failure? <==> IsBlank(name)
      ensures r.Failure? ==> r.error == BlankRecordingName
      ensures r.Success? ==> fresh(r.value) && r.value.name == Trim(name)
      ensures r.Success? ==> r.value.events == (if events.Some? then events.value else [])
    {
      if IsBlank(name) {
        return Failure(BlankRecordingName);
      }
      TrimIdempotent(name);
      var rec := new Recording.Init(Trim(name), if events.Some? then events.value else []);
      return Success(rec);
    }

    /** `setName`: validates the argument, but the name is final and never changes. */
    method SetName(newName: string) returns (o: Outcome<Error>)
      ensures o == (if IsBlank(newName) then Fail(BlankRecordingName) else Pass)
    {
      if IsBlank(newName) {
        return Fail(BlankRecordingName);
      }
      return Pass;
    }

    /** `addNoteEvent`: rejects null; otherwise appends exactly that event. */
    method AddNoteEvent(event: Option<Event>) returns (o: Outcome<Error>)
      modifies this
      ensures event.None? ==> o == Fail(NullEvent) && events == old(events)
      ensures event.Some? ==> o == Pass && events == old(events) + [event.value]
    {
      if event.None? {
        return Fail(NullEvent);
      }
      events := events + [event.value];
      return Pass;
    }

    /**
     * `addNoteEvents`: rejects a null list; otherwise appends the elements in
     * order. A null element throws, but only after the elements before it were
     * appended: there is no rollback.
     */
    method AddNoteEvents(list: Option<seq<Option<Event>>>) returns (o: Outcome<Error>)
      modifies this
      ensures list.None? ==> o == Fail(NullEventList) && events == old(events)
      ensures list.Some? ==> events == old(events) + NonNullPrefix(list.value)
      ensures list.Some? ==> o == (if NoNulls(list.value) then Pass else Fail(NullInEventList))
    {
      if list.None? {
        return Fail(NullEventList);
      }
      var es := list.value;
      for i := 0 to |es|
        invariant NoNulls(es[..i])
        invariant events == old(events) + NonNullPrefix(es[..i])
      {
        if es[i].None? {
          assert es == es[..i] + es[i..];
          NonNullPrefixAppend(es[..i], es[i..]);
          return Fail(NullInEventList);
        }
        assert es[..i + 1] == es[..i] + [es[i]];
        NonNullPrefixAppend(es[..i], [es[i]]);
        events := events + [es[i].value];
      }
      assert es[..|es|] == es;
      return Pass;
    }

    /**
     * `getEvents`: a copy of the events, stably sorted by (timestamp, midiNote);
     * the stored list is left as it was.
     */
    method GetEvents() returns (r: seq<Event>)
      ensures r == SortEvents(events)
      ensures Sorted(r) && multiset(r) == multiset(events)
      ensures forall t, n :: WithKey(r, t, n) == WithKey(events, t, n)
    {
      r := SortedCopy(events);
    }

    /** `clear`: the recording becomes empty. */
    method Clear()
      modifies this
      ensures events == []
    {
      events := [];
    }

    /** `getEventCount`. */
    function EventCount(): (n: nat)
      reads this
      ensures n == |events|
    {
      |events|
    }

    /** `isEmpty` holds exactly when the event count is 0. */
    predicate IsEmpty()
      reads this
      ensures IsEmpty() <==> EventCount() == 0
    {
      events == []
    }

    /** `getDuration`: 0 when empty, otherwise the largest timestamp of an event. */
    method GetDuration() returns (d: int)
      ensures events == [] ==> d == 0
      ensures forall i :: 0 <= i < |events| ==> events[i].timestamp <= d
      ensures events != [] ==> exists i :: 0 <= i < |events| && events[i].timestamp == d
    {
      if events == [] {
        return 0;
      }
      var maxTime := 0;
      for i := 0 to |events|
        invariant maxTime >= 0
        invariant forall k :: 0 <= k < i ==> events[k].timestamp <= maxTime
        invariant i == 0 ==> maxTime == 0
        invariant i > 0 ==> exists k :: 0 <= k < i && events[k].timestamp == maxTime
      {
        if events[i].timestamp > maxTime {
          maxTime := events[i].timestamp;
        } else if i == 0 {
          assert events[0].timestamp == 0;
        }
      }
      return maxTime;
    }
  }
}
