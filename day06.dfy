/** Tuning trouble: the first position where the last `markerLength`
    characters of the datastream are all different. */
module Day06 {

  const StartOfPacketMarkerLength := 4
  const StartOfMessageMarkerLength := 14
  const MarkerNotFound := -1

  /** `possibleMarker.toSet().size == possibleMarker.length`. */
  predicate AllDifferent(window: string) {
    |set c | c in window| == |window|
  }

  /** The size test says that no character occurs twice. */
  lemma {:induction false} AllDifferentMeaning(window: string)
    ensures AllDifferent(window) <==> forall i, j :: 0 <= i < j < |window| ==> window[i] != window[j]
  {
    if window != [] {
      var init := window[..|window| - 1];
      var last := window[|window| - 1];
      AllDifferentMeaning(init);
      assert (set c | c in window) == (set c | c in init) + {last};
      CardinalityAtMost(init);
      if last in init {
        var k :| 0 <= k < |init| && init[k] == last;
        assert window[k] == window[|window| - 1];
      } else {
        forall i, j | 0 <= i < j < |window| && (forall i', j' :: 0 <= i' < j' < |init| ==> init[i'] != init[j'])
          ensures window[i] != window[j]
        {
          if j < |window| - 1 {
            assert window[i] == init[i] && window[j] == init[j];
          } else {
            assert window[i] in init;
          }
        }
      }
    }
  }

  lemma {:induction false} CardinalityAtMost(s: string)
    ensures |set c | c in s| <= |s|
  {
    if s != [] {
      var init := s[..|s| - 1];
      CardinalityAtMost(init);
      assert (set c | c in s) == (set c | c in init) + {s[|s| - 1]};
    }
  }

  /** The window of `markerLength` characters starting at `i` has no
      repeated character. */
  predicate MarkerAt(line: string, markerLength: nat, i: nat)
    requires i + markerLength <= |line|
  {
    AllDifferent(line[i..i + markerLength])
  }

  /** The windows starting at `i`, `i + 1`, ... below `limit`, searched in
      order; the answer is the position just after the first window whose
      characters all differ. */
  function SearchFrom(line: string, markerLength: nat, i: nat, limit: int): (r: int)
    requires limit <= |line| - markerLength + 1
    ensures r == MarkerNotFound || (i + markerLength <= r < limit + markerLength)
    decreases limit - i
  {
    if i >= limit then MarkerNotFound
    else if MarkerAt(line, markerLength, i) then i + markerLength
    else SearchFrom(line, markerLength, i + 1, limit)
  }

  /** `play` as written: `for (i in 0 until line.length - markerLength)`
      never looks at the window that ends at the last character. */
  function PlayAsWritten(line: string, markerLength: nat): int {
    SearchFrom(line, markerLength, 0, |line| - markerLength)
  }

  /** `play` with every window checked, the last one included. */
  function Play(line: string, markerLength: nat): (r: int)
    ensures r == MarkerNotFound || markerLength <= r <= |line|
  {
    SearchFrom(line, markerLength, 0, |line| - markerLength + 1)
  }

  /** The search finds the first qualifying window below the limit, or
      reports that there is none. */
  lemma {:induction false} SearchFromMeaning(line: string, markerLength: nat, i: nat, limit: int)
    requires limit <= |line| - markerLength + 1
    ensures var r := SearchFrom(line, markerLength, i, limit);
      && (r != MarkerNotFound ==>
          && i + markerLength <= r < limit + markerLength
          && MarkerAt(line, markerLength, r - markerLength)
          && forall j :: i <= j < r - markerLength ==> !MarkerAt(line, markerLength, j))
      && (r == MarkerNotFound ==> forall j :: i <= j < limit ==> !MarkerAt(line, markerLength, j))
    decreases limit - i
  {
    if i < limit && !MarkerAt(line, markerLength, i) {
      SearchFromMeaning(line, markerLength, i + 1, limit);
    }
  }

  /** The corrected search: the result is the end of the first window of
      distinct characters, or -1 when the line has none. */
  lemma PlayMeaning(line: string, markerLength: nat)
    ensures var r := Play(line, markerLength);
      && (r != MarkerNotFound ==>
          && markerLength <= r <= |line|
          && MarkerAt(line, markerLength, r - markerLength)
          && forall j :: 0 <= j < r - markerLength ==> !MarkerAt(line, markerLength, j))
      && (r == MarkerNotFound ==> forall j :: 0 <= j <= |line| - markerLength ==> !MarkerAt(line, markerLength, j))
  {
    SearchFromMeaning(line, markerLength, 0, |line| - markerLength + 1);
  }

  /** As written, a found marker always ends before the last character. */
  lemma PlayAsWrittenBound(line: string, markerLength: nat)
    ensures PlayAsWritten(line, markerLength) <= |line| - 1
  {
  }

  /** The two searches differ exactly when the only qualifying window is
      the one ending at the end of the line. */
  lemma {:induction false} AsWrittenDiffers(line: string, markerLength: nat, i: nat)
    requires i <= |line| - markerLength + 1
    ensures SearchFrom(line, markerLength, i, |line| - markerLength) != SearchFrom(line, markerLength, i, |line| - markerLength + 1)
      <==> SearchFrom(line, markerLength, i, |line| - markerLength + 1) == |line|
    decreases |line| - i
  {
    if i < |line| - markerLength && !MarkerAt(line, markerLength, i) {
      AsWrittenDiffers(line, markerLength, i + 1);
    }
  }

  /** The datastream "abcd" starts with a packet marker that ends at
      position 4, but the loop as written stops before checking it. */
  lemma MissedLastWindow()
    ensures PlayAsWritten("abcd", StartOfPacketMarkerLength) == MarkerNotFound
    ensures Play("abcd", StartOfPacketMarkerLength) == 4
  {
    var w := "abcd"[0..4];
    assert w == "abcd";
    assert (set c | c in w) == {'a', 'b', 'c', 'd'};
  }

  lemma NotMarker(line: string, markerLength: nat, j: nat, a: nat, b: nat)
    requires j <= a < b < j + markerLength <= |line| && line[a] == line[b]
    ensures !MarkerAt(line, markerLength, j)
  {
    var w := line[j..j + markerLength];
    AllDifferentMeaning(w);
    assert w[a - j] == w[b - j];
  }

  lemma IsMarker(line: string, markerLength: nat, j: nat)
    requires j + markerLength <= |line|
    requires forall a, b :: j <= a < b < j + markerLength ==> line[a] != line[b]
    ensures MarkerAt(line, markerLength, j)
  {
    var w := line[j..j + markerLength];
    AllDifferentMeaning(w);
    forall a, b | 0 <= a < b < markerLength
      ensures w[a] != w[b]
    {
      assert w[a] == line[j + a] && w[b] == line[j + b];
    }
  }

  /** A qualifying window with none before it is what both searches find,
      as long as it is not the last window. */
  lemma {:induction false} FindsFirst(line: string, markerLength: nat, i: nat, k: nat)
    requires i <= k && k + markerLength < |line| && MarkerAt(line, markerLength, k)
    requires forall j :: i <= j < k ==> !MarkerAt(line, markerLength, j)
    ensures SearchFrom(line, markerLength, i, |line| - markerLength + 1) == k + markerLength
    ensures SearchFrom(line, markerLength, i, |line| - markerLength) == k + markerLength
    decreases k - i
  {
    if i < k {
      FindsFirst(line, markerLength, i + 1, k);
    }
  }

  /** Two of the sample datastreams. */
  const Sample2 := "bvwbjplbgvbhsrlpgdmjqwftvncz"

  lemma Sample2Packet(line: string)
    requires line == Sample2
    ensures Play(line, StartOfPacketMarkerLength) == 5
  {
    NotMarker(line, 4, 0, 0, 3);
    IsMarker(line, 4, 1);
    FindsFirst(line, 4, 0, 1);
  }

  const Sample3 := "nppdvjthqldpwncqszvftbrmjlhg"

  lemma Sample3Packet(line: string)
    requires line == Sample3
    ensures Play(line, StartOfPacketMarkerLength) == 6
  {
    NotMarker(line, 4, 0, 1, 2);
    NotMarker(line, 4, 1, 1, 2);
    IsMarker(line, 4, 2);
    FindsFirst(line, 4, 0, 2);
  }

}
