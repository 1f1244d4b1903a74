/**
 * Recording names: the default "Recording N" names the manager hands out, the
 * number such a name carries, and the order `listRecordings` sorts names in.
 */
module RecordingNames {
  import opened Wrappers
  import opened JavaText

  const DefaultPrefix: string := "Recording "

  /** The name `startRecording` gives a new recording when the counter is `n`. */
  function DefaultName(n: nat): (r: string)
    ensures StartsWith(r, DefaultPrefix) && r[|DefaultPrefix|..] == NatToString(n)
    ensures !IsBlank(r) && Trim(r) == r
  {
    var r := DefaultPrefix + NatToString(n);
    assert r[|DefaultPrefix|..] == NatToString(n);
    assert !IsTrimmable(r[0]);
    TrimOfTrimmed(r);
    r
  }

  /** Distinct counter values give distinct default names. */
  lemma DefaultNameInjective(m: nat, n: nat)
    requires DefaultName(m) == DefaultName(n)
    ensures m == n
  {
    assert NatToString(m) == DefaultName(m)[|DefaultPrefix|..] == DefaultName(n)[|DefaultPrefix|..] == NatToString(n);
  }

  /**
   * `extractRecordingNumber`: a name that starts with "Recording " and whose
   * remainder, once trimmed, parses as an int carries that int; any other name
   * carries none.
   */
  function ExtractRecordingNumber(name: string): (r: Option<int>)
    ensures !StartsWith(name, DefaultPrefix) ==> r == None
    ensures StartsWith(name, DefaultPrefix) ==> r == ParseInt(Trim(name[|DefaultPrefix|..]))
    ensures r.Some? ==> IntMin <= r.value <= IntMax
  {
    if !StartsWith(name, DefaultPrefix) then None
    else ParseInt(Trim(name[|DefaultPrefix|..]))
  }

  /** Every default name carries its own counter value back. */
  lemma DefaultNameNumbered(n: nat)
    requires n <= IntMax
    ensures ExtractRecordingNumber(DefaultName(n)) == Some(n)
  {
    var digits := NatToString(n);
    assert !IsTrimmable(digits[0]) && !IsTrimmable(digits[|digits| - 1]);
    TrimOfTrimmed(digits);
    ParseIntOfNatToString(n);
  }

  /** A name whose remainder is not a number carries none, e.g. "Recording five". */
  lemma WordNameUnnumbered()
    ensures ExtractRecordingNumber("Recording five") == None
  {
    var name := "Recording five";
    assert StartsWith(name, DefaultPrefix);
    var rest := name[|DefaultPrefix|..];
    assert rest == "five";
    TrimOfTrimmed(rest);
    assert !IsDigit(rest[0]);
  }

  /** `Integer.compare`. */
  function IntCompare(a: int, b: int): (r: int)
    ensures r < 0 <==> a < b
    ensures r == 0 <==> a == b
    ensures -1 <= r <= 1
  {
    if a < b then -1 else if a == b then 0 else 1
  }

  /**
   * The comparator of `listRecordings`: two numbered names compare by number,
   * a numbered name precedes an unnumbered one, and two unnumbered names
   * compare as `String.compareTo` does.
   */
  function CompareNames(a: string, b: string): (r: int)
    ensures ExtractRecordingNumber(a).Some? && ExtractRecordingNumber(b).Some? ==>
      (r < 0 <==> ExtractRecordingNumber(a).value < ExtractRecordingNumber(b).value) &&
      (r == 0 <==> ExtractRecordingNumber(a).value == ExtractRecordingNumber(b).value)
    ensures ExtractRecordingNumber(a).Some? && ExtractRecordingNumber(b).None? ==> r < 0
    ensures ExtractRecordingNumber(a).None? && ExtractRecordingNumber(b).Some? ==> r > 0
    ensures ExtractRecordingNumber(a).None? && ExtractRecordingNumber(b).None? ==> (r == 0 <==> a == b)
  {
    var na, nb := ExtractRecordingNumber(a), ExtractRecordingNumber(b);
    if na.Some? && nb.Some? then IntCompare(na.value, nb.value)
    else if na.Some? then -1
    else if nb.Some? then 1
    else
      CompareStringsZero(a, b);
      CompareStrings(a, b)
  }

  /** Swapping the arguments of the comparator negates the result. */
  lemma CompareNamesAntisymmetric(a: string, b: string)
    ensures CompareNames(a, b) == -CompareNames(b, a)
  {
    CompareStringsAntisymmetric(a, b);
  }

  /** The comparator's "not after" relation is transitive. */
  lemma CompareNamesTransitive(a: string, b: string, c: string)
    requires CompareNames(a, b) <= 0 && CompareNames(b, c) <= 0
    ensures CompareNames(a, c) <= 0
  {
    if ExtractRecordingNumber(a).None? && ExtractRecordingNumber(b).None? && ExtractRecordingNumber(c).None? {
      CompareStringsTransitive(a, b, c);
    }
  }

  /**
   * The comparator ties two names only when both carry the same number, as
   * "Recording 7" and "Recording +7" do; unnumbered names tie only with themselves.
   */
  lemma CompareNamesZero(a: string, b: string)
    requires CompareNames(a, b) == 0
    ensures a == b || ExtractRecordingNumber(a) == ExtractRecordingNumber(b) != None
  {
    CompareStringsZero(a, b);
  }

  /** Ascending with respect to the comparator. */
  predicate SortedNames(s: seq<string>) {
    forall i, j :: 0 <= i < j < |s| ==> CompareNames(s[i], s[j]) <= 0
  }

  /** One step of a stable insertion sort: `x` goes after every name not greater than it. */
  function InsertName(s: seq<string>, x: string): (r: seq<string>)
    ensures multiset(r) == multiset(s) + multiset{x}
  {
    if s == [] then [x]
    else if CompareNames(x, s[0]) < 0 then [x] + s
    else
      assert s == [s[0]] + s[1..];
      [s[0]] + InsertName(s[1..], x)
  }

  lemma {:induction false} InsertNameSorted(s: seq<string>, x: string)
    requires SortedNames(s)
    ensures SortedNames(InsertName(s, x))
  {
    if s == [] {
    } else if CompareNames(x, s[0]) < 0 {
      forall j | 0 <= j < |s| ensures CompareNames(x, s[j]) <= 0 {
        if j > 0 {
          CompareNamesTransitive(x, s[0], s[j]);
        }
      }
    } else {
      var t := InsertName(s[1..], x);
      InsertNameSorted(s[1..], x);
      CompareNamesAntisymmetric(x, s[0]);
      forall j | 0 <= j < |t| ensures CompareNames(s[0], t[j]) <= 0 {
        assert t[j] in multiset(t);
        if t[j] != x {
          assert t[j] in s[1..];
        }
      }
      assert InsertName(s, x) == [s[0]] + t;
    }
  }

  /** In a sorted list, every numbered name comes before every unnumbered one. */
  lemma NumberedFirst(s: seq<string>, i: int, j: int)
    requires SortedNames(s) && 0 <= i < j < |s|
    requires ExtractRecordingNumber(s[j]).Some?
    ensures ExtractRecordingNumber(s[i]).Some?
  {
    assert CompareNames(s[i], s[j]) <= 0;
  }

  /** Numbered names appear in ascending order of their numbers. */
  lemma NumberedAscending(s: seq<string>, i: int, j: int)
    requires SortedNames(s) && 0 <= i < j < |s|
    requires ExtractRecordingNumber(s[i]).Some? && ExtractRecordingNumber(s[j]).Some?
    ensures ExtractRecordingNumber(s[i]).value <= ExtractRecordingNumber(s[j]).value
  {
    assert CompareNames(s[i], s[j]) <= 0;
  }

  /** Unnumbered names appear in `String.compareTo` order. */
  lemma OthersLexicographic(s: seq<string>, i: int, j: int)
    requires SortedNames(s) && 0 <= i < j < |s|
    requires ExtractRecordingNumber(s[i]).None? && ExtractRecordingNumber(s[j]).None?
    ensures CompareStrings(s[i], s[j]) <= 0
  {
    assert CompareNames(s[i], s[j]) <= 0;
  }
}
