/** ChordManager: chord types as interval tables, and chords built from a root note. */
module Chords {
  import opened Wrappers
  import opened Errors
  import opened NoteEvents

  datatype ChordType =
    | Major | Minor | Diminished | Augmented
    | MajorSeventh | MinorSeventh | Sus2 | Sus4

  /**
   * The semitone intervals of each chord type, above the root. Every table
   * starts at the root, rises strictly, stays within one octave and has three
   * or four notes. `getIntervals` hands out a copy; a Dafny sequence is a
   * value, so no caller can alter the table.
   */
  function Intervals(t: ChordType): (ivs: seq<int>)
    ensures 3 <= |ivs| <= 4 && ivs[0] == 0
    ensures forall i, j :: 0 <= i < j < |ivs| ==> ivs[i] < ivs[j]
    ensures forall i :: 0 <= i < |ivs| ==> 0 <= ivs[i] <= 11
    ensures |ivs| == 4 <==> t == MajorSeventh || t == MinorSeventh
  {
    match t
    case Major => [0, 4, 7]
    case Minor => [0, 3, 7]
    case Diminished => [0, 3, 6]
    case Augmented => [0, 4, 8]
    case MajorSeventh => [0, 4, 7, 11]
    case MinorSeventh => [0, 3, 7, 10]
    case Sus2 => [0, 2, 7]
    case Sus4 => [0, 5, 7]
  }

  /** `root + interval` for each interval, in order, keeping only notes in 0..127. */
  function ChordNotes(root: int, ivs: seq<int>): (notes: seq<int>)
    ensures |notes| <= |ivs|
    ensures forall i :: 0 <= i < |notes| ==> ValidNote(notes[i])
  {
    if ivs == [] then []
    else
      var prefix := ChordNotes(root, ivs[..|ivs| - 1]);
      var note := root + ivs[|ivs| - 1];
      if ValidNote(note) then prefix + [note] else prefix
  }

  /** A bound on every `root + interval` bounds every chord note. */
  lemma {:induction false} ChordNotesBelow(root: int, ivs: seq<int>, bound: int)
    requires forall j :: 0 <= j < |ivs| ==> root + ivs[j] < bound
    ensures forall i :: 0 <= i < |ChordNotes(root, ivs)| ==> ChordNotes(root, ivs)[i] < bound
  {
    if ivs != [] {
      ChordNotesBelow(root, ivs[..|ivs| - 1], bound);
    }
  }

  /** A note is in the chord exactly when it is valid and is `root + interval` for some interval. */
  lemma {:induction false} ChordMembers(root: int, ivs: seq<int>, x: int)
    ensures x in ChordNotes(root, ivs) <==> ValidNote(x) && exists j :: 0 <= j < |ivs| && x == root + ivs[j]
  {
    if ivs != [] {
      var p := ivs[..|ivs| - 1];
      ChordMembers(root, p, x);
      if ValidNote(x) && exists j :: 0 <= j < |ivs| && x == root + ivs[j] {
        var j :| 0 <= j < |ivs| && x == root + ivs[j];
        if j < |p| {
          assert x == root + p[j];
        }
      }
      if x in ChordNotes(root, p) {
        var j :| 0 <= j < |p| && x == root + p[j];
        assert x == root + ivs[j];
      }
    }
  }

  /** A table that starts at 0 puts a valid root first. */
  lemma {:induction false} ChordRootFirst(root: int, ivs: seq<int>)
    requires ValidNote(root) && ivs != [] && ivs[0] == 0
    ensures ChordNotes(root, ivs) != [] && ChordNotes(root, ivs)[0] == root
  {
    if |ivs| > 1 {
      var p := ivs[..|ivs| - 1];
      ChordRootFirst(root, p);
    }
  }

  /** When every `root + interval` is a valid note, nothing is dropped. */
  lemma {:induction false} ChordComplete(root: int, ivs: seq<int>)
    requires forall i :: 0 <= i < |ivs| ==> ValidNote(root + ivs[i])
    ensures |ChordNotes(root, ivs)| == |ivs|
    ensures forall i :: 0 <= i < |ivs| ==> ChordNotes(root, ivs)[i] == root + ivs[i]
  {
    if ivs != [] {
      ChordComplete(root, ivs[..|ivs| - 1]);
    }
  }

  /** Strictly rising intervals give strictly rising notes. */
  lemma {:induction false} ChordAscending(root: int, ivs: seq<int>)
    requires forall i, j :: 0 <= i < j < |ivs| ==> ivs[i] < ivs[j]
    ensures forall i, j :: 0 <= i < j < |ChordNotes(root, ivs)| ==> ChordNotes(root, ivs)[i] < ChordNotes(root, ivs)[j]
  {
    if ivs != [] {
      var p := ivs[..|ivs| - 1];
      ChordAscending(root, p);
      ChordNotesBelow(root, p, root + ivs[|ivs| - 1]);
    }
  }

  /**
   * For a chord type, the root's chord has every table note when the largest
   * interval still lands within 0..127.
   */
  lemma ChordOfTypeComplete(root: int, t: ChordType)
    requires ValidNote(root) && root + Intervals(t)[|Intervals(t)| - 1] <= 127
    ensures ChordNotes(root, Intervals(t))[0] == root
    ensures |ChordNotes(root, Intervals(t))| == |Intervals(t)|
  {
    var ivs := Intervals(t);
    forall i | 0 <= i < |ivs| ensures ValidNote(root + ivs[i]) {
      if i < |ivs| - 1 {
        assert ivs[i] < ivs[|ivs| - 1];
      }
    }
    ChordComplete(root, ivs);
  }

  /** Examples: C major from middle C, and a chord whose top notes fall off the MIDI range. */
  lemma ChordExamples()
    ensures ChordNotes(60, Intervals(Major)) == [60, 64, 67]
    ensures ChordNotes(125, Intervals(MajorSeventh)) == [125]
  {
    ChordComplete(60, [0, 4, 7]);
    assert ChordNotes(125, [0]) == [125];
    assert [0, 4, 7, 11][..3][..2][..1] == [0];
  }

  class ChordManager {
    var defaultChordType: ChordType

    /** `new ChordManager()`: the default type is major. */
    constructor ()
      ensures defaultChordType == Major
    {
      defaultChordType := Major;
    }

    /** `new ChordManager(type)`. */
    constructor WithDefault(t: ChordType)
      ensures defaultChordType == t
    {
      defaultChordType := t;
    }

    /** `setDefaultChordType`: only the default type changes. */
    method SetDefaultChordType(t: ChordType)
      modifies this
      ensures defaultChordType == t
    {
      defaultChordType := t;
    }

    /**
     * `generateChord(root, type)`: a root outside 0..127 is rejected;
     * otherwise the valid `root + interval` notes of the type's table, in
     * table order.
     */
    method GenerateChord(root: int, t: ChordType) returns (r: Result<seq<int>, Error>)
      ensures !ValidNote(root) ==> r == Failure(RootOutOfRange)
      ensures ValidNote(root) ==> r == Success(ChordNotes(root, Intervals(t)))
    {
      if root < 0 || root > 127 {
        return Failure(RootOutOfRange);
      }
      var ivs := Intervals(t);
      var notes: seq<int> := [];
      for i := 0 to |ivs|
        invariant notes == ChordNotes(root, ivs[..i])
      {
        assert ivs[..i + 1][..i] == ivs[..i];
        var note := root + ivs[i];
        if 0 <= note <= 127 {
          notes := notes + [note];
        }
      }
      assert ivs[..|ivs|] == ivs;
      return Success(notes);
    }

    /** `generateChord(root)`: the same, with the current default type. */
    method GenerateDefaultChord(root: int) returns (r: Result<seq<int>, Error>)
      ensures !ValidNote(root) ==> r == Failure(RootOutOfRange)
      ensures ValidNote(root) ==> r == Success(ChordNotes(root, Intervals(defaultChordType)))
    {
      r := GenerateChord(root, defaultChordType);
    }
  }
}
