/** What the marker scan guarantees: markers come out already in line
    order (so sorting them changes nothing), exactly the `o` lines are
    markers, each segment holds exactly one of them, and what an output
    file name does and does not tell apart. */
module MarkerProps {
  import opened JsString
  import opened ObjNames
  import opened ObjLines
  import opened Splitter

  /** The order `sort((a, b) => a.lineIndex - b.lineIndex)` establishes. */
  predicate SortedByLine(ms: seq<Marker>) {
    forall k, l :: 0 <= k < l < |ms| ==> ms[k].lineIndex <= ms[l].lineIndex
  }

  /** A list whose line indices strictly increase has exactly one
      rearrangement sorted by line index: itself. */
  lemma {:induction false} SortedPermutationUnique(ms: seq<Marker>, sorted: seq<Marker>)
    requires StrictlyIncreasing(ms)
    requires multiset(sorted) == multiset(ms)
    requires SortedByLine(sorted)
    ensures sorted == ms
    decreases |ms|
  {
    assert |sorted| == |multiset(sorted)| == |multiset(ms)| == |ms|;
    if ms != [] {
      SameFirst(ms, sorted);
      SameRest(ms, sorted);
      assert StrictlyIncreasing(ms[1..]) by {
        forall k, l | 0 <= k < l < |ms| - 1
          ensures ms[1..][k].lineIndex < ms[1..][l].lineIndex
        {
          assert ms[k + 1].lineIndex < ms[l + 1].lineIndex;
        }
      }
      assert SortedByLine(sorted[1..]) by {
        forall k, l | 0 <= k < l < |sorted| - 1
          ensures sorted[1..][k].lineIndex <= sorted[1..][l].lineIndex
        {
          assert sorted[k + 1].lineIndex <= sorted[l + 1].lineIndex;
        }
      }
      SortedPermutationUnique(ms[1..], sorted[1..]);
      assert sorted == [sorted[0]] + sorted[1..];
      assert ms == [ms[0]] + ms[1..];
    }
  }

  /** The least line index comes first in both lists. */
  lemma SameFirst(ms: seq<Marker>, sorted: seq<Marker>)
    requires StrictlyIncreasing(ms) && ms != []
    requires multiset(sorted) == multiset(ms)
    requires SortedByLine(sorted)
    ensures sorted != [] && sorted[0] == ms[0]
  {
    assert ms[0] in multiset(sorted);
    var p :| 0 <= p < |sorted| && sorted[p] == ms[0];
    assert sorted[0] in multiset(ms);
    var q :| 0 <= q < |ms| && ms[q] == sorted[0];
  }

  /** Removing the same first element leaves equal multisets. */
  lemma SameRest(ms: seq<Marker>, sorted: seq<Marker>)
    requires ms != [] && sorted != [] && sorted[0] == ms[0]
    requires multiset(sorted) == multiset(ms)
    ensures multiset(sorted[1..]) == multiset(ms[1..])
  {
    assert ms == [ms[0]] + ms[1..];
    assert sorted == [sorted[0]] + sorted[1..];
    assert multiset(ms[1..]) == multiset(ms) - multiset{ms[0]};
    assert multiset(sorted[1..]) == multiset(sorted) - multiset{sorted[0]};
  }

  /** The sort after the scan is a no-op: every rearrangement of the
      scanned markers that is sorted by line index is the scan's own list. */
  lemma SortIsNoOp(lines: seq<string>, sorted: seq<Marker>)
    requires multiset(sorted) == multiset(Markers(lines))
    requires SortedByLine(sorted)
    ensures sorted == Markers(lines)
  {
    SortedPermutationUnique(Markers(lines), sorted);
  }

  /** The split reports "no objects" exactly when no line is an `o` line;
      otherwise it writes one document per marker. */
  lemma NoMarkersIff(lines: seq<string>)
    ensures SplitLines(lines) == NoObjectsFound
      <==> forall j :: 0 <= j < |lines| ==> !IsMarkerLine(lines[j])
    ensures SplitLines(lines).Split? ==> |SplitLines(lines).files| == |Markers(lines)|
  {
    var ms := Markers(lines);
    if exists j :: 0 <= j < |lines| && IsMarkerLine(lines[j]) {
      var j :| 0 <= j < |lines| && IsMarkerLine(lines[j]);
      ScanUpToComplete(lines, |lines|, j);
    }
    if |ms| > 0 {
      ScanUpToMarker(lines, |lines|, 0);
    }
  }

  /** A marker line is classified as an object line by the segment pass. */
  lemma MarkerKind(line: string)
    ensures IsMarkerLine(line) <==> Kind(line) == ObjectMarker
  {
    var t := Trim(line);
    if StartsWith(t, "o ") {
      assert t[0] == 'o';
    }
  }

  /** No line before the first marker is an `o` line. */
  lemma HeaderHasNoMarker(lines: seq<string>, ms: seq<Marker>, p: nat)
    requires ms == Markers(lines) && |ms| > 0
    requires p < ms[0].lineIndex
    ensures !IsMarkerLine(lines[p])
  {
    if IsMarkerLine(lines[p]) {
      ScanUpToComplete(lines, |lines|, p);
    }
  }

  /** Strictly between a marker and the next one (or the end) lies no marker. */
  lemma NoMarkerInside(ms: seq<Marker>, n: nat, i: nat, p: nat)
    requires ValidMarkers(ms, n) && i < |ms|
    requires ms[i].lineIndex < p < SegmentEnd(ms, i, n)
    ensures forall k :: 0 <= k < |ms| ==> ms[k].lineIndex != p
  {
    forall k | 0 <= k < |ms|
      ensures ms[k].lineIndex != p
    {
      if k > i + 1 {
        assert ms[i + 1].lineIndex < ms[k].lineIndex;
      }
    }
  }

  /** Each segment starts with its own `o` line, and none of its other
      lines is an `o` line. */
  lemma SegmentShape(lines: seq<string>, ms: seq<Marker>, i: nat, j: nat)
    requires ms == Markers(lines) && i < |ms|
    requires j < |SegmentLines(lines, ms, i)|
    ensures IsMarkerLine(SegmentLines(lines, ms, i)[0])
    ensures j > 0 ==> !IsMarkerLine(SegmentLines(lines, ms, i)[j])
  {
    var p := ms[i].lineIndex + j;
    assert SegmentLines(lines, ms, i)[j] == lines[p];
    assert IsMarkerLine(lines[ms[i].lineIndex]) by {
      ScanUpToMarker(lines, |lines|, i);
    }
    if j > 0 {
      assert !IsMarkerLine(lines[p]) by {
        NoMarkerInside(ms, |lines|, i, p);
        if IsMarkerLine(lines[p]) {
          ScanUpToComplete(lines, |lines|, p);
        }
      }
    }
  }

  /** Output names differ exactly when the object numbers differ. */
  lemma OutputFileNameInjective(baseName: string, m: nat, n: nat)
    ensures OutputFileName(baseName, m) == OutputFileName(baseName, n) <==> m == n
  {
    if OutputFileName(baseName, m) == OutputFileName(baseName, n) {
      var a, b := NatToString(m), NatToString(n);
      var pre := baseName + "_";
      assert OutputFileName(baseName, m) == pre + a + ".obj";
      assert OutputFileName(baseName, n) == pre + b + ".obj";
      assert |a| == |b|;
      assert a == (pre + a + ".obj")[|pre|..|pre| + |a|];
      assert b == (pre + b + ".obj")[|pre|..|pre| + |b|];
      NatToStringInjective(m, n);
    }
  }

  /** Two markers can share a number and so a file name: `obj1` and a bare
      `Cube` are both number 1, whatever their positions. */
  lemma NumberCollision(ordinal1: nat, ordinal2: nat)
    ensures ObjectNumber("obj1", ordinal1) == 1
    ensures ObjectNumber("Cube", ordinal2) == 1
  {
    assert "obj1" == [] + "obj" + "1" + [];
    ObjTagNumber([], "1", [], ordinal1);
    assert DigitsValue("1") == 1;
    assert "Cube" == [] + "Cube" + [];
    BareCubeNumber([], [], ordinal2);
  }
}
