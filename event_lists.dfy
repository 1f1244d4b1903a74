/**
 * Event lists as Recording and Track hold them: the chronological order that
 * `getEvents` sorts by, the stable sort itself, and appending from a list that
 * may contain nulls.
 */
module EventLists {
  import opened Wrappers
  import opened NoteEvents

  /** The comparator of `getEvents`: by timestamp, then by MIDI note; the on/off flag is ignored. */
  predicate Before(a: Event, b: Event) {
    a.timestamp < b.timestamp || (a.timestamp == b.timestamp && a.midiNote < b.midiNote)
  }

  /**
   * The comparator is a strict order that ties exactly the events sharing a
   * (timestamp, midiNote) key, so it sorts by that key alone.
   */
  lemma BeforeStrictOrder(a: Event, b: Event, c: Event)
    ensures !Before(a, a)
    ensures Before(a, b) ==> !Before(b, a)
    ensures Before(a, b) && Before(b, c) ==> Before(a, c)
    ensures !Before(a, b) && !Before(b, a) <==> a.timestamp == b.timestamp && a.midiNote == b.midiNote
  {
  }

  /** Ascending by (timestamp, midiNote). */
  predicate Sorted(s: seq<Event>) {
    forall i, j :: 0 <= i < j < |s| ==> !Before(s[j], s[i])
  }

  /** Places `e` after every element of the sorted `s` that does not come after it. */
  function Insert(s: seq<Event>, e: Event): (r: seq<Event>)
    ensures multiset(r) == multiset(s) + multiset{e}
  {
    if s == [] then [e]
    else if Before(e, s[0]) then [e] + s
    else
      assert s == [s[0]] + s[1..];
      [s[0]] + Insert(s[1..], e)
  }

  /** The stable sort of `getEvents`: insert the elements one at a time, in list order. */
  function SortEvents(s: seq<Event>): (r: seq<Event>)
    ensures multiset(r) == multiset(s)
  {
    if s == [] then []
    else
      assert s == s[..|s| - 1] + [s[|s| - 1]];
      Insert(SortEvents(s[..|s| - 1]), s[|s| - 1])
  }

  lemma {:induction false} InsertSorted(s: seq<Event>, e: Event)
    requires Sorted(s)
    ensures Sorted(Insert(s, e))
  {
    if s != [] && !Before(e, s[0]) {
      var t := Insert(s[1..], e);
      InsertSorted(s[1..], e);
      forall j | 0 <= j < |t| ensures !Before(t[j], s[0]) {
        assert t[j] in multiset(t);
        if t[j] != e {
          assert t[j] in s[1..];
        }
      }
    }
  }

  /** The result of getEvents is sorted by (timestamp, midiNote). */
  lemma {:induction false} SortEventsSorted(s: seq<Event>)
    ensures Sorted(SortEvents(s))
  {
    if s != [] {
      SortEventsSorted(s[..|s| - 1]);
      InsertSorted(SortEvents(s[..|s| - 1]), s[|s| - 1]);
    }
  }

  /** The events of `s` whose timestamp is `t` and whose note is `n`, in their order in `s`. */
  function WithKey(s: seq<Event>, t: int, n: int): seq<Event>
  {
    if s == [] then []
    else (if s[0].timestamp == t && s[0].midiNote == n then [s[0]] else []) + WithKey(s[1..], t, n)
  }

  lemma {:induction false} WithKeyAppend(a: seq<Event>, b: seq<Event>, t: int, n: int)
    ensures WithKey(a + b, t, n) == WithKey(a, t, n) + WithKey(b, t, n)
  {
    if a == [] {
      assert a + b == b;
    } else {
      assert (a + b)[0] == a[0];
      assert (a + b)[1..] == a[1..] + b;
      WithKeyAppend(a[1..], b, t, n);
    }
  }

  lemma {:induction false} WithKeyElements(s: seq<Event>, t: int, n: int)
    ensures forall x :: x in WithKey(s, t, n) ==> x in s && x.timestamp == t && x.midiNote == n
  {
    if s != [] {
      WithKeyElements(s[1..], t, n);
    }
  }

  /** An element of a sorted list never comes before its head. */
  lemma HeadIsLeast(s: seq<Event>, x: Event)
    requires Sorted(s) && x in s
    ensures !Before(x, s[0])
  {
    var k :| 0 <= k < |s| && s[k] == x;
    if k > 0 {
      assert !Before(s[k], s[0]);
    }
  }

  /** An element's own key selects at least that element. */
  lemma {:induction false} WithKeyOfMember(s: seq<Event>, x: Event)
    requires x in s
    ensures WithKey(s, x.timestamp, x.midiNote) != []
  {
    if s[0] != x {
      assert x in s[1..];
      WithKeyOfMember(s[1..], x);
    }
  }

  /** No event whose key occurs in a sorted list comes before the list's head. */
  lemma KeyNotBelowHead(s: seq<Event>, y: Event)
    requires Sorted(s) && WithKey(s, y.timestamp, y.midiNote) != []
    ensures !Before(y, s[0])
  {
    WithKeyElements(s, y.timestamp, y.midiNote);
    var x := WithKey(s, y.timestamp, y.midiNote)[0];
    assert x in WithKey(s, y.timestamp, y.midiNote);
    HeadIsLeast(s, x);
  }

  lemma SortedTail(s: seq<Event>)
    requires Sorted(s) && s != []
    ensures Sorted(s[1..])
  {
    forall i, j | 0 <= i < j < |s| - 1 ensures !Before(s[1..][j], s[1..][i]) {
      assert s[1..][i] == s[i + 1] && s[1..][j] == s[j + 1];
    }
  }

  /** An event inserted in front of a sorted list has no equal-key event after it. */
  lemma InsertFrontStable(s: seq<Event>, e: Event, t: int, n: int)
    requires Sorted(s) && s != [] && Before(e, s[0])
    ensures WithKey([e] + s, t, n) == WithKey(s, t, n) + WithKey([e], t, n)
  {
    WithKeyAppend([e], s, t, n);
    if e.timestamp == t && e.midiNote == n && WithKey(s, t, n) != [] {
      KeyNotBelowHead(s, e);
      assert false;
    }
  }

  /** Passing over the head: if inserting into the tail is stable, so is inserting into the list. */
  lemma InsertPastHeadStable(s: seq<Event>, e: Event, t: int, n: int)
    requires s != [] && !Before(e, s[0])
    requires WithKey(Insert(s[1..], e), t, n) == WithKey(s[1..], t, n) + WithKey([e], t, n)
    ensures WithKey(Insert(s, e), t, n) == WithKey(s, t, n) + WithKey([e], t, n)
  {
    var rest := Insert(s[1..], e);
    assert Insert(s, e) == [s[0]] + rest;
    assert ([s[0]] + rest)[1..] == rest;
    var h := if s[0].timestamp == t && s[0].midiNote == n then [s[0]] else [];
    assert WithKey([s[0]] + rest, t, n) == h + WithKey(rest, t, n);
    assert WithKey(s, t, n) == h + WithKey(s[1..], t, n);
    AppendAssoc(h, WithKey(s[1..], t, n), WithKey([e], t, n));
  }

  /** Regrouping a concatenation; stated apart so the step above stays cheap. */
  lemma AppendAssoc(a: seq<Event>, b: seq<Event>, c: seq<Event>)
    ensures a + (b + c) == (a + b) + c
  {
  }

  /** Inserting into a sorted list puts `e` after every element with the same key. */
  lemma {:induction false} InsertStable(s: seq<Event>, e: Event, t: int, n: int)
    requires Sorted(s)
    ensures WithKey(Insert(s, e), t, n) == WithKey(s, t, n) + WithKey([e], t, n)
  {
    if s == [] {
      assert Insert(s, e) == [e];
    } else if Before(e, s[0]) {
      assert Insert(s, e) == [e] + s;
      InsertFrontStable(s, e, t, n);
    } else {
      SortedTail(s);
      InsertStable(s[1..], e, t, n);
      InsertPastHeadStable(s, e, t, n);
    }
  }

  /** getEvents is stable: events with equal (timestamp, midiNote) keep their insertion order. */
  lemma {:induction false} SortEventsStable(s: seq<Event>, t: int, n: int)
    ensures WithKey(SortEvents(s), t, n) == WithKey(s, t, n)
  {
    if s != [] {
      var p, l := s[..|s| - 1], s[|s| - 1];
      SortEventsStable(p, t, n);
      SortEventsSorted(p);
      InsertStable(SortEvents(p), l, t, n);
      assert s == p + [l];
      WithKeyAppend(p, [l], t, n);
    }
  }

  /** Two sorted lists with the same events per key start with the same event. */
  lemma SameKeysSameHead(r: seq<Event>, q: seq<Event>)
    requires Sorted(r) && Sorted(q) && r != [] && q != []
    requires forall t, n :: WithKey(r, t, n) == WithKey(q, t, n)
    ensures r[0] == q[0]
  {
    var a, b := r[0], q[0];
    WithKeyOfMember(q, b);
    assert WithKey(r, b.timestamp, b.midiNote) == WithKey(q, b.timestamp, b.midiNote);
    KeyNotBelowHead(r, b);
    WithKeyOfMember(r, a);
    assert WithKey(q, a.timestamp, a.midiNote) == WithKey(r, a.timestamp, a.midiNote);
    KeyNotBelowHead(q, a);
    // so both heads have one key, and each opens the list of that key
    var t, n := a.timestamp, a.midiNote;
    assert WithKey(r, t, n) == [a] + WithKey(r[1..], t, n);
    assert WithKey(q, t, n) == [b] + WithKey(q[1..], t, n);
    assert WithKey(r, t, n)[0] == a && WithKey(q, t, n)[0] == b;
  }

  /** Removing a common head keeps the events per key equal. */
  lemma SameKeysTails(r: seq<Event>, q: seq<Event>, t: int, n: int)
    requires r != [] && q != [] && r[0] == q[0]
    requires WithKey(r, t, n) == WithKey(q, t, n)
    ensures WithKey(r[1..], t, n) == WithKey(q[1..], t, n)
  {
    var h := if r[0].timestamp == t && r[0].midiNote == n then [r[0]] else [];
    assert WithKey(r, t, n) == h + WithKey(r[1..], t, n);
    assert WithKey(q, t, n) == h + WithKey(q[1..], t, n);
    assert WithKey(r[1..], t, n) == WithKey(r, t, n)[|h|..];
    assert WithKey(q[1..], t, n) == WithKey(q, t, n)[|h|..];
  }

  /**
   * A stable sort has only one possible result: two sorted lists that agree on
   * the events of every key are equal. So SortEvents is what any stable sort
   * of the same list (such as the library sort the source calls) returns.
   */
  lemma {:induction false} SortedWithSameKeysEqual(r: seq<Event>, q: seq<Event>)
    requires Sorted(r) && Sorted(q)
    requires forall t, n :: WithKey(r, t, n) == WithKey(q, t, n)
    ensures r == q
  {
    if r != [] && q == [] {
      WithKeyOfMember(r, r[0]);
      assert false;
    } else if r == [] && q != [] {
      WithKeyOfMember(q, q[0]);
      assert false;
    } else if r != [] {
      SameKeysSameHead(r, q);
      forall t, n ensures WithKey(r[1..], t, n) == WithKey(q[1..], t, n) {
        SameKeysTails(r, q, t, n);
      }
      SortedTail(r);
      SortedTail(q);
      SortedWithSameKeysEqual(r[1..], q[1..]);
      assert r == [r[0]] + r[1..] && q == [q[0]] + q[1..];
    }
  }

  /** Every sorted list that keeps the per-key order of `s` is SortEvents(s). */
  lemma StableSortUnique(s: seq<Event>, r: seq<Event>)
    requires Sorted(r)
    requires forall t, n :: WithKey(r, t, n) == WithKey(s, t, n)
    ensures r == SortEvents(s)
  {
    SortEventsSorted(s);
    forall t, n ensures WithKey(r, t, n) == WithKey(SortEvents(s), t, n) {
      SortEventsStable(s, t, n);
    }
    SortedWithSameKeysEqual(r, SortEvents(s));
  }

  /**
   * The body of `getEvents`: copy the list and stably sort the copy. The
   * result is sorted, a permutation of `s`, and keeps the order of events with
   * equal keys.
   */
  method SortedCopy(s: seq<Event>) returns (r: seq<Event>)
    ensures r == SortEvents(s)
    ensures Sorted(r) && multiset(r) == multiset(s)
    ensures forall t, n :: WithKey(r, t, n) == WithKey(s, t, n)
  {
    r := [];
    for i := 0 to |s|
      invariant r == SortEvents(s[..i])
    {
      assert s[..i + 1][..i] == s[..i];
      r := Insert(r, s[i]);
    }
    assert s[..|s|] == s;
    SortEventsSorted(s);
    forall t, n ensures WithKey(r, t, n) == WithKey(s, t, n) {
      SortEventsStable(s, t, n);
    }
  }

  /** A Java list that may hold nulls has no null element. */
  predicate NoNulls(es: seq<Option<Event>>) {
    forall i :: 0 <= i < |es| ==> es[i].Some?
  }

  /** The elements before the first null: what `addNoteEvents` appends before it throws. */
  function NonNullPrefix(es: seq<Option<Event>>): seq<Event>
  {
    if es == [] || es[0].None? then [] else [es[0].value] + NonNullPrefix(es[1..])
  }

  lemma {:induction false} NonNullPrefixAppend(a: seq<Option<Event>>, b: seq<Option<Event>>)
    requires NoNulls(a)
    ensures NonNullPrefix(a + b) == NonNullPrefix(a) + NonNullPrefix(b)
  {
    if a == [] {
      assert a + b == b;
    } else {
      assert (a + b)[0] == a[0];
      assert (a + b)[1..] == a[1..] + b;
      NonNullPrefixAppend(a[1..], b);
    }
  }

  /** Without nulls, every element is appended, in list order. */
  lemma {:induction false} NonNullPrefixAll(es: seq<Option<Event>>)
    requires NoNulls(es)
    ensures |NonNullPrefix(es)| == |es|
    ensures forall i :: 0 <= i < |es| ==> NonNullPrefix(es)[i] == es[i].value
  {
    if es != [] {
      NonNullPrefixAll(es[1..]);
    }
  }

  /** A list of events seen as a Java list of non-null references. */
  function Present(s: seq<Event>): (r: seq<Option<Event>>)
    ensures |r| == |s| && NoNulls(r)
    ensures forall i :: 0 <= i < |s| ==> r[i] == Some(s[i])
  {
    seq(|s|, i requires 0 <= i < |s| => Some(s[i]))
  }

  lemma {:induction false} NonNullPrefixOfPresent(s: seq<Event>)
    ensures NonNullPrefix(Present(s)) == s
  {
    NonNullPrefixAll(Present(s));
  }
}
