/** What the split promises about its outputs: the header and the segments
    partition the input, the running counters are prefix sums of the
    segments' element counts, and a face reference to an element of its
    own object is renumbered to that same element in the object's file. */
module SplitProps {
  import opened JsString
  import opened ObjLines
  import opened FaceRemap
  import opened Splitter

  /** Segments 0 .. n-1, one after the other. */
  function SegmentsUpTo(lines: seq<string>, ms: seq<Marker>, n: nat): seq<string>
    requires ValidMarkers(ms, |lines|) && n <= |ms|
  {
    if n == 0 then [] else SegmentsUpTo(lines, ms, n - 1) + SegmentLines(lines, ms, n - 1)
  }

  /** The first `n` segments are exactly the lines from the first marker
      up to where segment `n` starts: no gap, no overlap. */
  lemma {:induction false} SegmentsUpToSlice(lines: seq<string>, ms: seq<Marker>, n: nat)
    requires ValidMarkers(ms, |lines|) && 0 < |ms| && n <= |ms|
    ensures ms[0].lineIndex <= SegmentStart(ms, n, |lines|) <= |lines|
    ensures SegmentsUpTo(lines, ms, n) == lines[ms[0].lineIndex..SegmentStart(ms, n, |lines|)]
    decreases n
  {
    if n > 0 {
      SegmentsUpToSlice(lines, ms, n - 1);
      var a, b, e := ms[0].lineIndex, ms[n - 1].lineIndex, SegmentStart(ms, n, |lines|);
      assert SegmentEnd(ms, n - 1, |lines|) == e;
      assert lines[a..b] + lines[b..e] == lines[a..e];
    }
  }

  /** All segments together are everything from the first marker on. */
  lemma AllSegments(lines: seq<string>, ms: seq<Marker>)
    requires ValidMarkers(ms, |lines|) && 0 < |ms|
    ensures SegmentsUpTo(lines, ms, |ms|) == lines[ms[0].lineIndex..]
  {
    SegmentsUpToSlice(lines, ms, |ms|);
  }

  /** The header followed by every segment, in order, is the whole input. */
  lemma PartitionCoverage(lines: seq<string>, ms: seq<Marker>)
    requires ValidMarkers(ms, |lines|) && 0 < |ms|
    ensures Header(lines, ms) + SegmentsUpTo(lines, ms, |ms|) == lines
  {
    AllSegments(lines, ms);
    assert lines[..ms[0].lineIndex] + lines[ms[0].lineIndex..] == lines;
  }

  /** The counters in force for segment `i` are the element counts of
      segments 0 .. i-1. */
  lemma CountersArePrefixSums(lines: seq<string>, ms: seq<Marker>, i: nat)
    requires ValidMarkers(ms, |lines|) && 0 < |ms| && i <= |ms|
    ensures CountersBefore(lines, ms, i) == CountsOf(SegmentsUpTo(lines, ms, i))
  {
    SegmentsUpToSlice(lines, ms, i);
  }

  /** The running count of one element kind for segment `i`. */
  lemma CountersBeforeOf(lines: seq<string>, ms: seq<Marker>, i: nat, k: LineKind)
    requires ValidMarkers(ms, |lines|) && i < |ms| && k.IsElement()
    ensures CountersBefore(lines, ms, i).Of(k) == |KindLines(lines[ms[0].lineIndex..ms[i].lineIndex], k)|
  {
    CountsOfKind(lines[ms[0].lineIndex..ms[i].lineIndex], k);
  }

  /** Emitting a line never turns it into, or out of, a vertex, normal or
      texture-coordinate line, and leaves such a line as it was. */
  lemma EmitKeepsElements(line: string, c: Counts, k: LineKind)
    requires k.IsElement()
    ensures Kind(EmitLine(line, c)) == k <==> Kind(line) == k
    ensures Kind(line) == k ==> EmitLine(line, c) == line
  {
    if Kind(line) == Face {
      match FaceMatch(Trim(line))
      case None =>
      case Some(indices) =>
        var out := "f " + Join(RemapRefs(SplitWhiteSpace(indices), c), " ");
        assert out[0] == 'f';
        NotElementLine(out, k);
    }
  }

  /** A segment and its emitted form have the same element lines. */
  lemma {:induction false} EmitSegmentElements(seg: seq<string>, c: Counts, k: LineKind)
    requires k.IsElement()
    ensures KindLines(EmitSegment(seg, c), k) == KindLines(seg, k)
    decreases |seg|
  {
    if seg != [] {
      var n := |seg| - 1;
      var x := seg[n];
      assert seg == seg[..n] + [x];
      assert EmitSegment(seg, c) == EmitSegment(seg[..n], c) + [EmitLine(x, c)];
      EmitSegmentElements(seg[..n], c, k);
      KindLinesSnoc(EmitSegment(seg[..n], c), EmitLine(x, c), k);
      KindLinesSnoc(seg[..n], x, k);
      EmitKeepsElements(x, c, k);
    }
  }

  /** The element lines of the file for marker `i`: the header's, then its
      own segment's. */
  lemma FileElements(lines: seq<string>, ms: seq<Marker>, i: nat, k: LineKind)
    requires ValidMarkers(ms, |lines|) && i < |ms| && k.IsElement()
    ensures KindLines(FileFor(lines, ms, i).lines, k)
      == KindLines(Header(lines, ms), k) + KindLines(SegmentLines(lines, ms, i), k)
  {
    var seg, c := SegmentLines(lines, ms, i), CountersBefore(lines, ms, i);
    KindLinesAppend(Header(lines, ms), EmitSegment(seg, c), k);
    EmitSegmentElements(seg, c, k);
  }

  /** The element lines of a window `lines[b..e]` sit in the document's
      list right after those of the lines before `b`. */
  lemma WindowElements(lines: seq<string>, b: nat, e: nat, k: LineKind, r: nat, h: nat)
    requires b <= e <= |lines| && r < Count(lines[b..e], k) && h == Count(lines[..b], k)
    ensures h + r < Count(lines, k)
    ensures KindLines(lines, k)[h + r] == KindLines(lines[b..e], k)[r]
  {
    CutInThree(lines, b, e);
    KindLinesAppend3(lines[..b], lines[b..e], lines[e..], k);
    IndexOfSecond(KindLines(lines, k), KindLines(lines[..b], k),
      KindLines(lines[b..e], k) + KindLines(lines[e..], k), r);
  }

  lemma CutInThree(lines: seq<string>, b: nat, e: nat)
    requires b <= e <= |lines|
    ensures lines == lines[..b] + lines[b..e] + lines[e..]
  {
  }

  lemma KindLinesAppend3(x: seq<string>, y: seq<string>, z: seq<string>, k: LineKind)
    ensures KindLines(x + y + z, k) == KindLines(x, k) + (KindLines(y, k) + KindLines(z, k))
  {
    KindLinesAppend(x + y, z, k);
    KindLinesAppend(x, y, k);
  }

  /** The header's elements and those counted before segment `i` are
      exactly the elements before the segment's first line. */
  lemma ElementsBeforeSegment(lines: seq<string>, ms: seq<Marker>, i: nat, k: LineKind)
    requires ValidMarkers(ms, |lines|) && i < |ms| && k.IsElement()
    ensures Count(Header(lines, ms), k) + CountersBefore(lines, ms, i).Of(k)
      == Count(lines[..ms[i].lineIndex], k)
  {
    var a, b := ms[0].lineIndex, ms[i].lineIndex;
    CountersBeforeOf(lines, ms, i, k);
    assert lines[..b] == lines[..a] + lines[a..b];
    KindLinesAppend(lines[..a], lines[a..b], k);
  }

  /** Element `r` of segment `i` is, in the input, preceded by the
      header's elements (`h` of them) and the `cnt` elements of the
      segments before it. */
  lemma OwnElementInInput(lines: seq<string>, ms: seq<Marker>, i: nat, k: LineKind, r: nat, h: nat, cnt: nat)
    requires ValidMarkers(ms, |lines|) && i < |ms| && k.IsElement()
    requires h == Count(Header(lines, ms), k) && cnt == CountersBefore(lines, ms, i).Of(k)
    requires r < Count(SegmentLines(lines, ms, i), k)
    ensures h + cnt + r < Count(lines, k)
    ensures KindLines(lines, k)[h + cnt + r] == KindLines(SegmentLines(lines, ms, i), k)[r]
  {
    var b, e := ms[i].lineIndex, SegmentEnd(ms, i, |lines|);
    assert SegmentLines(lines, ms, i) == lines[b..e];
    assert h + cnt == Count(lines[..b], k) by {
      ElementsBeforeSegment(lines, ms, i, k);
    }
    assert h + cnt + r < Count(lines, k) && KindLines(lines, k)[h + cnt + r] == KindLines(lines[b..e], k)[r] by {
      WindowElements(lines, b, e, k, r, h + cnt);
    }
  }

  lemma IndexOfSecond(all: seq<string>, a: seq<string>, b: seq<string>, r: nat)
    requires all == a + b && r < |b|
    ensures |a| + r < |all| && all[|a| + r] == b[r]
  {
  }

  /** Element `r` of segment `i` is, in its file, preceded by the header's
      `h` elements only. */
  lemma OwnElementInFile(lines: seq<string>, ms: seq<Marker>, i: nat, k: LineKind, r: nat, h: nat)
    requires ValidMarkers(ms, |lines|) && i < |ms| && k.IsElement()
    requires h == Count(Header(lines, ms), k)
    requires r < Count(SegmentLines(lines, ms, i), k)
    ensures h + r < Count(FileFor(lines, ms, i).lines, k)
    ensures KindLines(FileFor(lines, ms, i).lines, k)[h + r] == KindLines(SegmentLines(lines, ms, i), k)[r]
  {
    FileElements(lines, ms, i, k);
    IndexOfSecond(KindLines(FileFor(lines, ms, i).lines, k), KindLines(Header(lines, ms), k),
      KindLines(SegmentLines(lines, ms, i), k), r);
  }

  /** Element `r` of kind `k` of object `i` is element `h + cnt + r` of
      the input and element `h + r` of the object's file, `h` being the
      header's count and `cnt` the running count of kind `k`; so the face
      reference `h + cnt + r + 1` that names it in the input is rewritten
      to `h + r + 1`, which names the same line in the file. */
  lemma OwnElementSame(lines: seq<string>, ms: seq<Marker>, i: nat, k: LineKind, r: nat, h: nat, cnt: nat)
    requires ValidMarkers(ms, |lines|) && i < |ms| && k.IsElement()
    requires h == Count(Header(lines, ms), k) && cnt == CountersBefore(lines, ms, i).Of(k)
    requires r < Count(SegmentLines(lines, ms, i), k)
    ensures RemapComponent(NatToString(h + cnt + r + 1), cnt) == NatToString(h + r + 1)
    ensures h + cnt + r < Count(lines, k)
    ensures h + r < Count(FileFor(lines, ms, i).lines, k)
    ensures KindLines(FileFor(lines, ms, i).lines, k)[h + r] == KindLines(lines, k)[h + cnt + r]
  {
    assert RemapComponent(NatToString(h + cnt + r + 1), cnt) == NatToString(h + r + 1) by {
      RemapShift(h + r + 1, cnt);
      assert cnt + (h + r + 1) == h + cnt + r + 1;
    }
    OwnElementInInput(lines, ms, i, k, r, h, cnt);
    OwnElementInFile(lines, ms, i, k, r, h);
  }

  /** Every output file starts with the header lines, verbatim, followed
      by the emitted segment, which has exactly as many lines as the segment. */
  lemma HeaderPrefix(lines: seq<string>, ms: seq<Marker>, i: nat)
    requires ValidMarkers(ms, |lines|) && i < |ms|
    ensures |FileFor(lines, ms, i).lines| == ms[0].lineIndex + |SegmentLines(lines, ms, i)|
    ensures FileFor(lines, ms, i).lines[..ms[0].lineIndex] == lines[..ms[0].lineIndex]
    ensures FileFor(lines, ms, i).lines[ms[0].lineIndex..]
      == EmitSegment(SegmentLines(lines, ms, i), CountersBefore(lines, ms, i))
  {
    var hdr, out := Header(lines, ms), EmitSegment(SegmentLines(lines, ms, i), CountersBefore(lines, ms, i));
    assert FileFor(lines, ms, i).lines == hdr + out;
    assert (hdr + out)[..|hdr|] == hdr;
    assert (hdr + out)[|hdr|..] == out;
  }

  /** What the second pass makes of one line. */
  lemma EmitLineCases(line: string, c: Counts)
    ensures Kind(line) != Face ==> EmitLine(line, c) == line
    ensures Kind(line) == Face ==> EmitLine(line, c) == RemapFaceLine(line, c)
    ensures FaceMatch(Trim(line)).None? ==> EmitLine(line, c) == line
  {
  }

  /** Line `j` of segment `i` appears right after the header in its file:
      verbatim unless it is a face line, and a face line is rewritten
      against the counters in force before the segment, or kept verbatim
      when its trimmed text does not match `^f\s+(.+)$`. */
  lemma FileLayout(lines: seq<string>, ms: seq<Marker>, i: nat, j: nat)
    requires ValidMarkers(ms, |lines|) && i < |ms|
    requires j < |SegmentLines(lines, ms, i)|
    ensures ms[0].lineIndex + j < |FileFor(lines, ms, i).lines|
    ensures Kind(SegmentLines(lines, ms, i)[j]) != Face
      ==> FileFor(lines, ms, i).lines[ms[0].lineIndex + j] == SegmentLines(lines, ms, i)[j]
    ensures Kind(SegmentLines(lines, ms, i)[j]) == Face ==>
      FileFor(lines, ms, i).lines[ms[0].lineIndex + j]
        == RemapFaceLine(SegmentLines(lines, ms, i)[j], CountersBefore(lines, ms, i))
    ensures FaceMatch(Trim(SegmentLines(lines, ms, i)[j])).None?
      ==> FileFor(lines, ms, i).lines[ms[0].lineIndex + j] == SegmentLines(lines, ms, i)[j]
  {
    var seg, c := SegmentLines(lines, ms, i), CountersBefore(lines, ms, i);
    HeaderPrefix(lines, ms, i);
    var file := FileFor(lines, ms, i).lines;
    assert file[ms[0].lineIndex..][j] == EmitLine(seg[j], c);
    EmitLineCases(seg[j], c);
  }

  /** The lines after the first `h` of each file, one file after the other. */
  function Bodies(files: seq<ObjFile>, h: nat): seq<string> {
    if files == [] then []
    else
      var last := files[|files| - 1].lines;
      Bodies(files[..|files| - 1], h) + (if h <= |last| then last[h..] else [])
  }

  lemma BodiesStep(lines: seq<string>, ms: seq<Marker>, n: nat)
    requires ValidMarkers(ms, |lines|) && 0 < n <= |ms|
    ensures Bodies(FilesUpTo(lines, ms, n), ms[0].lineIndex)
      == Bodies(FilesUpTo(lines, ms, n - 1), ms[0].lineIndex)
        + EmitSegment(SegmentLines(lines, ms, n - 1), CountersBefore(lines, ms, n - 1))
  {
    var fs, f := FilesUpTo(lines, ms, n - 1), FileFor(lines, ms, n - 1);
    assert FilesUpTo(lines, ms, n) == fs + [f];
    assert (fs + [f])[..|fs|] == fs;
    HeaderPrefix(lines, ms, n - 1);
  }

  /** The non-header lines of the first `n` files hold the element lines of
      the first `n` segments, in order. */
  lemma {:induction false} BodiesElements(lines: seq<string>, ms: seq<Marker>, n: nat, k: LineKind)
    requires ValidMarkers(ms, |lines|) && 0 < |ms| && n <= |ms| && k.IsElement()
    ensures KindLines(Bodies(FilesUpTo(lines, ms, n), ms[0].lineIndex), k)
      == KindLines(SegmentsUpTo(lines, ms, n), k)
    decreases n
  {
    if n > 0 {
      var seg, c := SegmentLines(lines, ms, n - 1), CountersBefore(lines, ms, n - 1);
      var before := Bodies(FilesUpTo(lines, ms, n - 1), ms[0].lineIndex);
      var out := EmitSegment(seg, c);
      BodiesStep(lines, ms, n);
      BodiesElements(lines, ms, n - 1, k);
      KindLinesAppend(before, out, k);
      KindLinesAppend(SegmentsUpTo(lines, ms, n - 1), seg, k);
      EmitSegmentElements(seg, c, k);
    }
  }

  /** The files for all markers, after the header, hold the element lines
      of everything from the first marker on. */
  lemma AllBodiesElements(lines: seq<string>, ms: seq<Marker>, k: LineKind)
    requires ValidMarkers(ms, |lines|) && 0 < |ms| && k.IsElement()
    ensures KindLines(Bodies(FilesUpTo(lines, ms, |ms|), ms[0].lineIndex), k)
      == KindLines(lines[ms[0].lineIndex..], k)
  {
    AllSegments(lines, ms);
    BodiesElements(lines, ms, |ms|, k);
  }

  /** Concatenating what follows the header in every output file gives
      back the input's vertex, normal and texture-coordinate lines after
      the header, in their original order. */
  lemma ElementsPreserved(lines: seq<string>, ms: seq<Marker>, k: LineKind)
    requires ms == Markers(lines) && 0 < |ms| && k.IsElement()
    ensures SplitLines(lines).Split?
    ensures KindLines(Bodies(SplitLines(lines).files, ms[0].lineIndex), k)
      == KindLines(lines[ms[0].lineIndex..], k)
  {
    assert SplitLines(lines) == Split(FilesUpTo(lines, ms, |ms|));
    AllBodiesElements(lines, ms, k);
  }
}
