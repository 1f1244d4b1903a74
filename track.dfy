/** Track: a numbered (1..9), append-only list of note events. */
module Tracks {
  import opened Wrappers
  import opened Errors
  import opened NoteEvents
  import opened EventLists

  predicate ValidTrackNumber(n: int) {
    1 <= n <= 9
  }

  class Track {
    const trackNumber: int
    /** The stored events, in insertion order. */
    var events: seq<Event>

    /** The part of the Java constructor after the range check. */
    constructor Init(trackNumber: int)
      requires ValidTrackNumber(trackNumber)
      ensures this.trackNumber == trackNumber && events == []
    {
      this.trackNumber := trackNumber;
      events := [];
    }

    /**
     * `new Track(n)`: track numbers outside 1..9 are rejected; otherwise the
     * track is empty and `getTrackNumber` returns `n`.
     */
    static method New(trackNumber: int) returns (r: Result<Track, Error>)
      ensures r.Failure? <==> !ValidTrackNumber(trackNumber)
      ensures r.Failure? ==> r.error == TrackNumberOutOfRange
      ensures r.Success? ==> fresh(r.value) && r.value.trackNumber == trackNumber && r.value.events == []
    {
      if trackNumber < 1 || trackNumber > 9 {
        return Failure(TrackNumberOutOfRange);
      }
      var t := new Track.Init(trackNumber);
      return Success(t);
    }

    /** `addNoteEvent`: rejects null; otherwise appends exactly that event. */
    method AddNoteEvent(event: Option<Event>) returns (o: Outcome<Error>)
      modifies this
      ensures event.None? ==> o == Fail(NullEvent) && events == old(events)
      ensures event.Some? ==> o == Pass && events == old(events) + [event.value]
    {
      if event.None? {
        return Fail(NullEvent);
      }
      events := events + [event.value];
      return Pass;
    }

    /**
     * `addNoteEvents`: rejects a null list; otherwise appends the elements in
     * order, and a null element throws after the elements before it were appended.
     */
    method AddNoteEvents(list: Option<seq<Option<Event>>>) returns (o: Outcome<Error>)
      modifies this
      ensures list.None? ==> o == Fail(NullEventList) && events == old(events)
      ensures list.Some? ==> events == old(events) + NonNullPrefix(list.value)
      ensures list.Some? ==> o == (if NoNulls(list.value) then Pass else Fail(NullInEventList))
    {
      if list.None? {
        return Fail(NullEventList);
      }
      var es := list.value;
      for i := 0 to |es|
        invariant NoNulls(es[..i])
        invariant events == old(events) + NonNullPrefix(es[..i])
      {
        if es[i].None? {
          assert es == es[..i] + es[i..];
          NonNullPrefixAppend(es[..i], es[i..]);
          return Fail(NullInEventList);
        }
        assert es[..i + 1] == es[..i] + [es[i]];
        NonNullPrefixAppend(es[..i], [es[i]]);
        events := events + [es[i].value];
      }
      assert es[..|es|] == es;
      return Pass;
    }

    /** `clear`: the track becomes empty. */
    method Clear()
      modifies this
      ensures events == []
    {
      events := [];
    }

    /** `getEvents`: a stably sorted copy; the stored list is left as it was. */
    method GetEvents() returns (r: seq<Event>)
      ensures r == SortEvents(events)
      ensures Sorted(r) && multiset(r) == multiset(events)
      ensures forall t, n :: WithKey(r, t, n) == WithKey(events, t, n)
    {
      r := SortedCopy(events);
    }

    /** `getEventCount`. */
    function EventCount(): (n: nat)
      reads this
      ensures n == |events|
    {
      |events|
    }

    /** `isEmpty` holds exactly when the event count is 0. */
    predicate IsEmpty()
      reads this
      ensures IsEmpty() <==> EventCount() == 0
    {
      events == []
    }
  }
}
