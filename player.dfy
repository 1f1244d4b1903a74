/**
 * Player: the `isPlaying` flag and the loop that delivers a list of events to
 * a playback handler. The playback thread is modelled by running its body,
 * PlayEvents, in sequence; what other threads do while it runs is an
 * oracle, `env`, consulted once per event.
 */
module Players {
  import opened Wrappers
  import opened Errors
  import opened NoteEvents

  /** A call the player makes on its NotePlaybackHandler. */
  datatype HandlerCall = OnNoteOn(note: int) | OnNoteOff(note: int)

  /**
   * What happens around event i while it waits its turn: nothing, a
   * `stopPlayback` from another thread before the flag is checked, or an
   * interrupt of the sleep before the event is due.
   */
  datatype Interference = Continue | StopRequested | SleepInterrupted

  /** The handler call an event produces: `onNoteOn` for note-on events, `onNoteOff` otherwise. */
  function CallOf(e: Event): (c: HandlerCall)
    ensures c.note == e.midiNote
    ensures c.OnNoteOn? <==> e.isNoteOn
  {
    if e.isNoteOn then OnNoteOn(e.midiNote) else OnNoteOff(e.midiNote)
  }

  /** The calls the events produce, one per event, in order. */
  function CallsOf(events: seq<Event>): (r: seq<HandlerCall>)
    ensures |r| == |events|
    ensures forall i :: 0 <= i < |events| ==> r[i] == CallOf(events[i])
  {
    seq(|events|, i requires 0 <= i < |events| => CallOf(events[i]))
  }

  /** The first index in from..n at which playback is interfered with, or n if none is. */
  function FirstStop(env: nat -> Interference, from: nat, n: nat): (k: nat)
    requires from <= n
    ensures from <= k <= n
    ensures forall j :: from <= j < k ==> env(j) == Continue
    ensures k < n ==> env(k) != Continue
    decreases n - from
  {
    if from == n then n
    else if env(from) != Continue then from
    else FirstStop(env, from + 1, n)
  }

  /** Delivering the first k events one after the other gives the calls of that prefix. */
  lemma CallsOfSnoc(events: seq<Event>, k: nat)
    requires k < |events|
    ensures CallsOf(events[..k + 1]) == CallsOf(events[..k]) + [CallOf(events[k])]
  {
  }

  class Player {
    var isPlaying: bool

    /** A new player is not playing. */
    constructor ()
      ensures !isPlaying
    {
      isPlaying := false;
    }

    /**
     * `startPlayback`: a null source, then a null handler, is rejected before
     * the flag is looked at. While already playing it does nothing; otherwise
     * it sets the flag and starts a playback thread. The result says whether
     * a thread was started.
     */
    method StartPlayback(sourceGiven: bool, handlerGiven: bool) returns (r: Result<bool, Error>)
      modifies this
      ensures !sourceGiven ==> r == Failure(NullEventSource) && isPlaying == old(isPlaying)
      ensures sourceGiven && !handlerGiven ==> r == Failure(NullHandler) && isPlaying == old(isPlaying)
      ensures sourceGiven && handlerGiven ==> r == Success(!old(isPlaying)) && isPlaying
    {
      if !sourceGiven {
        return Failure(NullEventSource);
      }
      if !handlerGiven {
        return Failure(NullHandler);
      }
      if isPlaying {
        return Success(false);
      }
      isPlaying := true;
      return Success(true);
    }

    /** `stopPlayback`: clears the flag. */
    method StopPlayback()
      modifies this
      ensures !isPlaying
    {
      isPlaying := false;
    }

    /**
     * `playEvents`, the body of the playback thread. A null or empty list
     * clears the flag and calls nothing. Otherwise the events are delivered in
     * order, the flag being checked before each one; a stop request or an
     * interrupted sleep ends playback before the event it happens at. So the
     * calls are the calls of a prefix of the list, cut at the first
     * interference, and the flag is false afterwards.
     */
    method PlayEvents(events: Option<seq<Event>>, env: nat -> Interference) returns (calls: seq<HandlerCall>)
      modifies this
      ensures events.None? || events.value == [] ==> calls == []
      ensures events.Some? ==> |calls| <= |events.value| && calls == CallsOf(events.value[..|calls|])
      ensures events.Some? && events.value != [] ==>
        |calls| == (if old(isPlaying) then FirstStop(env, 0, |events.value|) else 0)
      ensures !isPlaying
    {
      calls := [];
      if events.None? || events.value == [] {
        isPlaying := false;
        return;
      }
      var es := events.value;
      ghost var playing0 := isPlaying;
      for i := 0 to |es|
        invariant calls == CallsOf(es[..i])
        invariant isPlaying == playing0
        invariant i > 0 ==> playing0 && forall j :: 0 <= j < i ==> env(j) == Continue
      {
        if env(i) == StopRequested {
          // another thread's stopPlayback got the lock first
          isPlaying := false;
        }
        if !isPlaying {
          assert i == 0 || env(i) != Continue;
          return;
        }
        if env(i) == SleepInterrupted {
          isPlaying := false;
          return;
        }
        CallsOfSnoc(es, i);
        calls := calls + [CallOf(es[i])];
      }
      assert es[..|es|] == es;
      isPlaying := false;
    }
  }
}
